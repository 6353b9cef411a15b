/** The subclip extraction call (ycsp/pipeline.py:147-163): the argument vector
    handed to the ffmpeg binary. Times are milliseconds; `fmt` stands for the
    source's `"%0.2f"` rendering of seconds and is left uninterpreted. */
module Extract {
  import opened Wrappers

  /** One request to cut `[startMs, endMs]` out of `source` into `target`. */
  datatype ExtractCall = ExtractCall(source: string, startMs: nat, endMs: nat, target: string)

  /** Map every input stream and copy audio and video without re-encoding. */
  const StreamCopyFlags: seq<string> := ["-map", "0", "-vcodec", "copy", "-acodec", "copy"]

  /** `[bin, "-y", "-ss", fmt(start), "-i", src, "-t", fmt(end - start), <stream copy>, target]`:
      overwrite, seek to the start, then copy for the clip's length. The line
      has fifteen arguments, and reading it back recovers exactly the binary,
      the start, the input, the length `end - start` and the target. */
  function FfmpegArgv(ffmpeg: string, call: ExtractCall, fmt: int -> string): (argv: seq<string>)
    ensures |argv| == 15
    ensures ReadArgv(argv)
      == Some(Invocation(ffmpeg, fmt(call.startMs), call.source, fmt(call.endMs - call.startMs), call.target))
  {
    var line := [ffmpeg, "-y", "-ss", fmt(call.startMs), "-i", call.source, "-t", fmt(call.endMs - call.startMs)]
      + StreamCopyFlags + [call.target];
    assert line[8..14] == StreamCopyFlags;
    line
  }

  /** The varying parts of an extraction command line. */
  datatype Invocation = Invocation(binary: string, seek: string, input: string, length: string, output: string)

  /** Recognises the fixed-shape command line and reads its varying parts back. */
  function ReadArgv(argv: seq<string>): (r: Option<Invocation>)
    ensures r.Some? ==> argv == [r.value.binary, "-y", "-ss", r.value.seek, "-i", r.value.input, "-t", r.value.length]
                                 + StreamCopyFlags + [r.value.output]
  {
    if |argv| == 15 && argv[1] == "-y" && argv[2] == "-ss" && argv[4] == "-i" && argv[6] == "-t"
       && argv[8..14] == StreamCopyFlags
    then
      var inv := Invocation(argv[0], argv[3], argv[5], argv[7], argv[14]);
      assert argv == argv[..8] + argv[8..14] + argv[14..];
      Some(inv)
    else None
  }
}
