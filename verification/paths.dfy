/** Clip naming and the file-system paths of a clip (ycsp/pipeline.py:102,
    136-138). Paths are built with `os.path.join`, modelled here for POSIX. */
module Paths {
  import opened Wrappers
  import opened Tokens

  /** `os.path.join(dir, part)` on POSIX: an absolute `part` replaces `dir`;
      otherwise a separator is inserted unless `dir` is empty or already ends
      with one. */
  function Join(dir: string, part: string): (r: string)
    ensures |part| <= |r| && r[|r| - |part|..] == part
    ensures (|part| > 0 && part[0] == '/') || dir <= r
  {
    if |part| > 0 && part[0] == '/' then part
    else if dir == [] || dir[|dir| - 1] == '/' then dir + part
    else dir + "/" + part
  }

  /** `os.path.join(resources_dir, tube_title, 'clips')`: the directory that
      receives every clip of one video. With a non-empty resources directory
      without a trailing '/', and a non-empty title that neither starts nor
      ends with '/', it is `resources/title/clips`. */
  function ClipsDir(resourcesDir: string, tubeTitle: string): (r: string)
    ensures |r| >= 5 && r[|r| - 5..] == "clips"
    ensures resourcesDir != [] && resourcesDir[|resourcesDir| - 1] != '/'
            && tubeTitle != [] && tubeTitle[0] != '/' && tubeTitle[|tubeTitle| - 1] != '/'
            ==> r == resourcesDir + "/" + tubeTitle + "/clips"
  {
    var videoDir := Join(resourcesDir, tubeTitle);
    assert resourcesDir != [] && resourcesDir[|resourcesDir| - 1] != '/' && tubeTitle != [] && tubeTitle[0] != '/'
           ==> videoDir == resourcesDir + "/" + tubeTitle;
    Join(videoDir, "clips")
  }

  /** The clip name `title-t-d`, built from the raw attribute tokens. A start
      token without '-' (every digit token) is read back, together with the
      duration token, from the name. */
  function ClipName(tubeTitle: string, t: string, d: string): (r: string)
    ensures '-' !in t ==> SplitClipName(tubeTitle, r) == Some((t, d))
  {
    var name := tubeTitle + "-" + t + "-" + d;
    assert name == (tubeTitle + "-") + (t + "-" + d);
    assert name[|tubeTitle| + 1..] == t + "-" + d;
    if '-' in t then name else SplitAtDashFirst(t, d); name
  }

  /** Splits at the first '-'. */
  function SplitAtDash(s: string): (r: Option<(string, string)>)
    ensures r.Some? ==> '-' !in r.value.0 && s == r.value.0 + "-" + r.value.1
    ensures r.None? <==> '-' !in s
  {
    if s == [] then None
    else if s[0] == '-' then Some(([], s[1..]))
    else match SplitAtDash(s[1..])
      case None => None
      case Some(p) => Some(([s[0]] + p.0, p.1))
  }

  /** Reads the start and duration tokens back from a clip name of the given
      title: the inverse of `ClipName`. */
  function SplitClipName(tubeTitle: string, name: string): (r: Option<(string, string)>)
    ensures r.Some? ==> name == tubeTitle + "-" + r.value.0 + "-" + r.value.1 && '-' !in r.value.0
  {
    if tubeTitle + "-" <= name then SplitAtDash(name[|tubeTitle| + 1..]) else None
  }

  lemma {:induction false} SplitAtDashFirst(t: string, d: string)
    requires '-' !in t
    ensures SplitAtDash(t + "-" + d) == Some((t, d))
    decreases |t|
  {
    if t != [] {
      SplitAtDashFirst(t[1..], d);
      assert (t + "-" + d)[1..] == t[1..] + "-" + d;
      assert [t[0]] + t[1..] == t;
    }
  }

  /** For a fixed title and digit start tokens, clip names are equal exactly when
      the (start, duration) token pairs are. */
  lemma {:induction false} ClipNameInjective(tubeTitle: string, t1: string, d1: string, t2: string, d2: string)
    requires IsDigits(t1) && IsDigits(t2)
    ensures ClipName(tubeTitle, t1, d1) == ClipName(tubeTitle, t2, d2) <==> t1 == t2 && d1 == d2
  {
    assert '-' !in t1 && '-' !in t2;
  }

  /** Without the digit restriction names collide: the name is not a quoted
      encoding of the pair. */
  lemma ClipNameCollision()
    ensures ClipName("v", "1-2", "3") == ClipName("v", "1", "2-3")
    ensures ("1-2", "3") != ("1", "2-3")
  {
  }

  /** `os.path.join(clips_dir, clip_name + ".mp4")`: the joined clip name with
      `.mp4` appended. */
  function MediaPath(clipsDir: string, name: string): (r: string)
    ensures r == Join(clipsDir, name) + ".mp4"
  {
    StemExtension(clipsDir, name, ".mp4");
    Join(clipsDir, name + ".mp4")
  }

  /** `os.path.join(clips_dir, clip_name + ".txt")`: the same joined clip name
      with `.txt` appended, so a clip's media and caption files differ only in
      their extension. */
  function CaptionPath(clipsDir: string, name: string): (r: string)
    ensures r == Join(clipsDir, name) + ".txt"
    ensures |r| >= 4 && r[..|r| - 4] + ".mp4" == MediaPath(clipsDir, name)
  {
    StemExtension(clipsDir, name, ".txt");
    Join(clipsDir, name + ".txt")
  }

  /** Appending an extension to the last part of a join appends it to the
      joined path, unless an empty name lets an absolute extension replace
      the directory. */
  lemma {:induction false} StemExtension(dir: string, name: string, ext: string)
    requires name != [] || ext == [] || ext[0] != '/'
    ensures Join(dir, name + ext) == Join(dir, name) + ext
  {
    if name == [] {
      assert name + ext == ext;
      if ext != [] {
        if dir == [] || dir[|dir| - 1] == '/' {
          assert dir + name == dir;
        } else {
          assert dir + "/" + name == dir + "/";
        }
      }
    } else {
      assert (name + ext)[0] == name[0];
      if name[0] == '/' {
      } else if dir == [] || dir[|dir| - 1] == '/' {
        assert dir + (name + ext) == (dir + name) + ext;
      } else {
        assert dir + "/" + (name + ext) == (dir + "/" + name) + ext;
      }
    }
  }

  /** Where a clip lands: inside the clips directory, unless the normalised title
      begins with '/', in which case `os.path.join` discards the directory and
      the clip path is the absolute name itself. */
  lemma {:induction false} ClipPathLocation(resourcesDir: string, tubeTitle: string, t: string, d: string)
    ensures var dir, name := ClipsDir(resourcesDir, tubeTitle), ClipName(tubeTitle, t, d);
      MediaPath(dir, name)
        == if |tubeTitle| > 0 && tubeTitle[0] == '/' then name + ".mp4" else dir + "/" + name + ".mp4"
  {
    var dir, name := ClipsDir(resourcesDir, tubeTitle), ClipName(tubeTitle, t, d);
    assert name[0] == if tubeTitle == [] then '-' else tubeTitle[0];
    assert dir != [] && dir[|dir| - 1] == 's' by {
      assert dir[|dir| - 1] == dir[|dir| - 5..][4];
    }
    StemExtension(dir, name, ".mp4");
    if name[0] != '/' {
      assert Join(dir, name) == dir + "/" + name;
    }
  }
}
