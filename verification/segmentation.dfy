/** The caption-driven segmentation loop of `__download_and_split_into_clips`
    (ycsp/pipeline.py:88, 102, 115-144) as a pure planning function: from the
    video title and the `<p>` nodes of the caption body, the ordered clip plans
    it attempts, and the error that stopped it, if any. */
module Segmentation {
  import opened Wrappers
  import opened Seqs
  import opened Text
  import opened Tokens
  import opened Paths
  import opened Extract

  /** A `<p>` node of the caption body: its `t` and `d` attributes, when present,
      and its ElementTree `.text`, the character data before its first child
      element, which is absent when there is none. */
  datatype Paragraph = Paragraph(t: Option<string>, d: Option<string>, text: Option<string>)

  /** One planned clip: its name, the media and caption files it writes, its
      time span in milliseconds, and the sanitised caption written beside it. */
  datatype ClipPlan = ClipPlan(
    name: string,
    mediaPath: string,
    captionPath: string,
    startMs: nat,
    endMs: nat,
    caption: string)

  /** Why the loop stopped: a `KeyError` on a missing attribute, or a token that
      `float` rejects. `index` is the node's position in the document. */
  datatype PlanError =
    | MissingAttribute(index: nat, attribute: string)
    | MalformedTime(index: nat, token: string)

  /** The plans attempted, in order, and the error that ended the loop early.
      The clips of the plans before an error have already been attempted. */
  datatype Outcome = Outcome(plans: seq<ClipPlan>, error: Option<PlanError>)

  /** A node that gets past the attribute lookups and the time parsing. */
  predicate WellFormed(p: Paragraph) {
    p.t.Some? && p.d.Some? && IsDigits(p.t.value) && IsDigits(p.d.value)
  }

  predicate HasText(p: Paragraph) {
    p.text.Some?
  }

  /** The clip of a well-formed node with text: it starts at the parsed `t` and
      ends the parsed `d` later; its name reads back to the raw tokens; its
      media and caption paths are one joined path with `.mp4` and `.txt`
      appended; its caption is the node's text with every character outside
      the whitelist deleted. */
  function PlanOf(tubeTitle: string, clipsDir: string, p: Paragraph): (r: ClipPlan)
    requires WellFormed(p) && HasText(p)
    ensures ParseMillis(p.t.value) == Some(r.startMs)
    ensures ParseMillis(p.d.value).Some? && r.endMs == r.startMs + ParseMillis(p.d.value).value
    ensures SplitClipName(tubeTitle, r.name) == Some((p.t.value, p.d.value))
    ensures r.mediaPath == Join(clipsDir, r.name) + ".mp4"
    ensures r.captionPath == Join(clipsDir, r.name) + ".txt"
    ensures r.caption == Sanitize(p.text.value)
    ensures forall i :: 0 <= i < |r.caption| ==> IsCaptionChar(r.caption[i])
  {
    assert '-' !in p.t.value;
    var name := ClipName(tubeTitle, p.t.value, p.d.value);
    var start := DigitsValue(p.t.value);
    ClipPlan(name, MediaPath(clipsDir, name), CaptionPath(clipsDir, name),
             start, start + DigitsValue(p.d.value), Sanitize(p.text.value))
  }

  /** The error a node that is not well formed raises, at position `index`, in
      the order of the lookups and parses: a missing `t`, then a missing `d`,
      then a malformed `t`, then a malformed `d`. */
  function Fault(p: Paragraph, index: nat): (r: PlanError)
    requires !WellFormed(p)
    ensures r.index == index
    ensures r.MissingAttribute? <==> p.t.None? || p.d.None?
    ensures r.MalformedTime? ==> !IsDigits(r.token) && (r.token == p.t.value || r.token == p.d.value)
    ensures p.t.None? ==> r == MissingAttribute(index, "t")
    ensures p.t.Some? && p.d.None? ==> r == MissingAttribute(index, "d")
    ensures p.t.Some? && p.d.Some? && !IsDigits(p.t.value) ==> r == MalformedTime(index, p.t.value)
  {
    if p.t.None? then MissingAttribute(index, "t")
    else if p.d.None? then MissingAttribute(index, "d")
    else if !IsDigits(p.t.value) then MalformedTime(index, p.t.value)
    else MalformedTime(index, p.d.value)
  }

  /** One iteration of the loop: look up `t`, then `d`, parse both, and only then
      skip a node without text. */
  function PlanParagraph(tubeTitle: string, clipsDir: string, p: Paragraph, index: nat)
    : (r: Result<Option<ClipPlan>, PlanError>)
    ensures r.Success? <==> WellFormed(p)
    ensures r.Success? ==> (r.value.Some? <==> HasText(p))
    ensures r.Success? && r.value.Some? ==> r.value.value == PlanOf(tubeTitle, clipsDir, p)
    ensures r.Failure? ==> r.error == Fault(p, index)
  {
    if p.t.None? then Failure(MissingAttribute(index, "t"))
    else if p.d.None? then Failure(MissingAttribute(index, "d"))
    else if ParseMillis(p.t.value).None? then Failure(MalformedTime(index, p.t.value))
    else if ParseMillis(p.d.value).None? then Failure(MalformedTime(index, p.d.value))
    else if p.text.None? then Success(None)
    else Success(Some(PlanOf(tubeTitle, clipsDir, p)))
  }

  /** One pass of the loop body: a node and its position in the document. */
  type Iteration = (Paragraph, nat) -> Result<Option<ClipPlan>, PlanError>

  /** The loop body of one video, with its title and clips directory fixed. */
  function LoopBody(tubeTitle: string, clipsDir: string): Iteration {
    (p: Paragraph, index: nat) => PlanParagraph(tubeTitle, clipsDir, p, index)
  }

  /** The `for` loop over `nodes`, the first of which sits at position `index`:
      runs `body` on each node in document order, collects the plans it emits,
      and stops at the first error. */
  function RunLoop(body: Iteration, nodes: seq<Paragraph>, index: nat): (r: Outcome)
    ensures |r.plans| <= |nodes|
    decreases |nodes|
  {
    if nodes == [] then Outcome([], None)
    else match body(nodes[0], index)
      case Failure(e) => Outcome([], Some(e))
      case Success(None) => RunLoop(body, nodes[1..], index + 1)
      case Success(Some(plan)) =>
        var rest := RunLoop(body, nodes[1..], index + 1);
        Outcome([plan] + rest.plans, rest.error)
  }

  /** The whole segmentation of one video: normalise the title, derive the clips
      directory, and run the loop over the paragraph nodes. */
  function Segment(rawTitle: string, resourcesDir: string, nodes: seq<Paragraph>): (r: Outcome)
    ensures |r.plans| <= |nodes|
  {
    var tubeTitle := NormalizeTitle(rawTitle);
    RunLoop(LoopBody(tubeTitle, ClipsDir(resourcesDir, tubeTitle)), nodes, 0)
  }

  /** The command line that cuts a planned clip out of the downloaded `source`:
      it seeks to the plan's start, copies for `end - start` (by `PlanOf`, the
      duration token's value), reads `source` and writes the plan's media
      path. */
  function ExtractArgv(ffmpeg: string, source: string, plan: ClipPlan, fmt: int -> string): (argv: seq<string>)
    ensures ReadArgv(argv)
      == Some(Invocation(ffmpeg, fmt(plan.startMs), source, fmt(plan.endMs - plan.startMs), plan.mediaPath))
  {
    FfmpegArgv(ffmpeg, ExtractCall(source, plan.startMs, plan.endMs, plan.mediaPath), fmt)
  }

  /** The loop is sequential: running it over `a + b` is running it over `a`, and,
      unless `a` stopped with an error, continuing over `b`. */
  lemma {:induction false} RunLoopAppend(body: Iteration, a: seq<Paragraph>, b: seq<Paragraph>, index: nat)
    ensures var ra := RunLoop(body, a, index);
      var rb := RunLoop(body, b, index + |a|);
      RunLoop(body, a + b, index) == if ra.error.Some? then ra else Outcome(ra.plans + rb.plans, rb.error)
    decreases |a|
  {
    if a == [] {
      assert a + b == b;
    } else {
      assert (a + b)[0] == a[0];
      assert (a + b)[1..] == a[1..] + b;
      RunLoopAppend(body, a[1..], b, index + 1);
      var rest := RunLoop(body, a[1..], index + 1);
      var rb := RunLoop(body, b, index + |a|);
      match body(a[0], index)
      case Failure(e) =>
      case Success(None) =>
      case Success(Some(plan)) =>
        assert [plan] + (rest.plans + rb.plans) == ([plan] + rest.plans) + rb.plans;
    }
  }

  /** The loop ends with an error exactly when some iteration fails. */
  lemma {:induction false} RunLoopError(body: Iteration, nodes: seq<Paragraph>, index: nat)
    ensures RunLoop(body, nodes, index).error.None?
      <==> forall k :: 0 <= k < |nodes| ==> body(nodes[k], index + k).Success?
    decreases |nodes|
  {
    if nodes != [] {
      RunLoopError(body, nodes[1..], index + 1);
      assert forall k :: 0 < k < |nodes| ==> nodes[k] == nodes[1..][k - 1] && index + k == (index + 1) + (k - 1);
    }
  }

  /** The one step of the loop body a well-formed node takes. */
  lemma LoopBodyWellFormed(tubeTitle: string, clipsDir: string, p: Paragraph, index: nat)
    requires WellFormed(p)
    ensures LoopBody(tubeTitle, clipsDir)(p, index)
      == if HasText(p) then Success(Some(PlanOf(tubeTitle, clipsDir, p))) else Success(None)
  {
  }

  /** A loop whose body never fails emits, in document order, one plan for each
      node `keep` selects and nothing for the others. */
  lemma {:induction false} RunLoopNoFailure(
    body: Iteration, emit: Paragraph -> Option<ClipPlan>, keep: Paragraph -> bool, nodes: seq<Paragraph>, index: nat)
    requires forall k :: 0 <= k < |nodes| ==> body(nodes[k], index + k) == Success(emit(nodes[k]))
    requires forall k :: 0 <= k < |nodes| ==> (emit(nodes[k]).Some? <==> keep(nodes[k]))
    ensures var r, kept := RunLoop(body, nodes, index), Filter(nodes, keep);
      && r.error == None
      && |r.plans| == |kept|
      && forall k :: 0 <= k < |kept| ==> emit(kept[k]) == Some(r.plans[k])
    decreases |nodes|
  {
    if nodes != [] {
      var n := nodes[0];
      assert forall k :: 0 < k < |nodes| ==> nodes[1..][k - 1] == nodes[k] && (index + 1) + (k - 1) == index + k;
      RunLoopNoFailure(body, emit, keep, nodes[1..], index + 1);
      var rest := RunLoop(body, nodes[1..], index + 1);
      var keptRest := Filter(nodes[1..], keep);
      var r := RunLoop(body, nodes, index);
      var kept := Filter(nodes, keep);
      assert body(n, index + 0) == Success(emit(n));
      if keep(n) {
        assert r.plans == [emit(n).value] + rest.plans;
        assert kept == [n] + keptRest;
        forall k | 0 <= k < |kept|
          ensures emit(kept[k]) == Some(r.plans[k])
        {
          if k > 0 {
            assert kept[k] == keptRest[k - 1];
            assert r.plans[k] == rest.plans[k - 1];
          }
        }
      } else {
        assert r == rest;
        assert kept == keptRest;
      }
    }
  }

  /** What a node that passes the checks contributes to the plan list. */
  function Emission(tubeTitle: string, clipsDir: string): Paragraph -> Option<ClipPlan> {
    (p: Paragraph) => if WellFormed(p) && HasText(p) then Some(PlanOf(tubeTitle, clipsDir, p)) else None
  }

  /** When every node is well formed, the loop never stops early and emits exactly
      one plan per node with text, in document order, with nothing merged. */
  lemma {:induction false} RunLoopWellFormed(tubeTitle: string, clipsDir: string, nodes: seq<Paragraph>, index: nat)
    requires forall k :: 0 <= k < |nodes| ==> WellFormed(nodes[k])
    ensures RunLoop(LoopBody(tubeTitle, clipsDir), nodes, index).error == None
    ensures |RunLoop(LoopBody(tubeTitle, clipsDir), nodes, index).plans| == |Filter(nodes, HasText)|
    ensures var r, kept := RunLoop(LoopBody(tubeTitle, clipsDir), nodes, index), Filter(nodes, HasText);
      forall k :: 0 <= k < |kept| ==>
        WellFormed(kept[k]) && HasText(kept[k]) && r.plans[k] == PlanOf(tubeTitle, clipsDir, kept[k])
  {
    var body, emit := LoopBody(tubeTitle, clipsDir), Emission(tubeTitle, clipsDir);
    forall k | 0 <= k < |nodes|
      ensures body(nodes[k], index + k) == Success(emit(nodes[k]))
      ensures emit(nodes[k]).Some? <==> HasText(nodes[k])
    {
      LoopBodyWellFormed(tubeTitle, clipsDir, nodes[k], index + k);
    }
    RunLoopNoFailure(body, emit, HasText, nodes, index);
    var r, kept := RunLoop(body, nodes, index), Filter(nodes, HasText);
    forall k | 0 <= k < |kept|
      ensures WellFormed(kept[k]) && HasText(kept[k]) && r.plans[k] == PlanOf(tubeTitle, clipsDir, kept[k])
    {
      assert emit(kept[k]) == Some(r.plans[k]);
    }
  }

  /** Segmentation of a document whose nodes are all well formed: no error, and
      one plan for each node with text, in document order, whatever its text
      sanitises to. */
  lemma {:induction false} SegmentWellFormed(rawTitle: string, resourcesDir: string, nodes: seq<Paragraph>)
    requires forall k :: 0 <= k < |nodes| ==> WellFormed(nodes[k])
    ensures var tubeTitle := NormalizeTitle(rawTitle);
      var r, kept := Segment(rawTitle, resourcesDir, nodes), Filter(nodes, HasText);
      && r.error == None
      && |r.plans| == |kept|
      && forall k :: 0 <= k < |kept| ==>
           WellFormed(kept[k]) && HasText(kept[k])
           && r.plans[k] == PlanOf(tubeTitle, ClipsDir(resourcesDir, tubeTitle), kept[k])
  {
    var tubeTitle := NormalizeTitle(rawTitle);
    RunLoopWellFormed(tubeTitle, ClipsDir(resourcesDir, tubeTitle), nodes, 0);
  }

  /** `body` fails exactly on the nodes that are not well formed, and with
      their `Fault`. */
  ghost predicate Checks(body: Iteration) {
    forall p, index :: (body(p, index).Success? <==> WellFormed(p))
                       && (body(p, index).Failure? ==> body(p, index).error == Fault(p, index))
  }

  /** What the loop body tells about any node: it fails exactly on the nodes
      that are not well formed, and then with the node's `Fault`. */
  lemma {:induction false} LoopBodyFails(tubeTitle: string, clipsDir: string, p: Paragraph, index: nat)
    ensures var r := LoopBody(tubeTitle, clipsDir)(p, index);
      && (r.Success? <==> WellFormed(p))
      && (r.Failure? ==> r.error == Fault(p, index))
  {
    assert LoopBody(tubeTitle, clipsDir)(p, index) == PlanParagraph(tubeTitle, clipsDir, p, index);
  }

  /** The loop body checks well-formedness, whatever the title and directory. */
  lemma {:induction false} LoopBodyChecks(tubeTitle: string, clipsDir: string)
    ensures Checks(LoopBody(tubeTitle, clipsDir))
  {
    forall p, index: nat
      ensures LoopBody(tubeTitle, clipsDir)(p, index).Success? <==> WellFormed(p)
      ensures LoopBody(tubeTitle, clipsDir)(p, index).Failure? ==>
                LoopBody(tubeTitle, clipsDir)(p, index).error == Fault(p, index)
    {
      LoopBodyFails(tubeTitle, clipsDir, p, index);
    }
  }

  /** The error a checking loop ends with is the `Fault` of its first node that
      is not well formed. */
  lemma {:induction false} RunLoopFirstFailure(body: Iteration, nodes: seq<Paragraph>, index: nat)
    requires Checks(body)
    ensures var r := RunLoop(body, nodes, index);
      && (r.error.None? <==> forall k :: 0 <= k < |nodes| ==> WellFormed(nodes[k]))
      && (r.error.Some? ==>
            && index <= r.error.value.index < index + |nodes|
            && !WellFormed(nodes[r.error.value.index - index])
            && r.error.value == Fault(nodes[r.error.value.index - index], r.error.value.index)
            && forall j :: 0 <= j < r.error.value.index - index ==> WellFormed(nodes[j]))
    decreases |nodes|
  {
    if nodes != [] {
      RunLoopFirstFailure(body, nodes[1..], index + 1);
      assert forall k :: 0 < k < |nodes| ==> nodes[k] == nodes[1..][k - 1];
      assert body(nodes[0], index).Success? <==> WellFormed(nodes[0]);
    }
  }

  /** `RunLoopFirstFailure` at the first node, stated of a given outcome `r` of
      the loop. Taking the outcome as a parameter keeps the concrete loop body
      out of the proof of `SegmentErrorIff`, which instantiates `r` with
      `Segment(…)`. */
  lemma {:induction false} LoopErrorIff(body: Iteration, nodes: seq<Paragraph>, r: Outcome)
    requires Checks(body) && r == RunLoop(body, nodes, 0)
    ensures r.error.None? <==> forall k :: 0 <= k < |nodes| ==> WellFormed(nodes[k])
    ensures r.error.Some? ==>
              && r.error.value.index < |nodes|
              && !WellFormed(nodes[r.error.value.index])
              && r.error.value == Fault(nodes[r.error.value.index], r.error.value.index)
              && forall j :: 0 <= j < r.error.value.index ==> WellFormed(nodes[j])
  {
    RunLoopFirstFailure(body, nodes, 0);
  }

  /** Segmentation ends with an error exactly when some node is not well formed
      (whether or not it has text), and the error is the `Fault` of the first
      such node. */
  lemma {:induction false} SegmentErrorIff(rawTitle: string, resourcesDir: string, nodes: seq<Paragraph>)
    ensures Segment(rawTitle, resourcesDir, nodes).error.None? <==> forall k :: 0 <= k < |nodes| ==> WellFormed(nodes[k])
    ensures var r := Segment(rawTitle, resourcesDir, nodes);
      r.error.Some? ==>
        && r.error.value.index < |nodes|
        && !WellFormed(nodes[r.error.value.index])
        && r.error.value == Fault(nodes[r.error.value.index], r.error.value.index)
        && forall j :: 0 <= j < r.error.value.index ==> WellFormed(nodes[j])
  {
    var tubeTitle := NormalizeTitle(rawTitle);
    LoopBodyChecks(tubeTitle, ClipsDir(resourcesDir, tubeTitle));
    LoopErrorIff(LoopBody(tubeTitle, ClipsDir(resourcesDir, tubeTitle)), nodes, Segment(rawTitle, resourcesDir, nodes));
  }

  /** A failing iteration ends the loop with its own error; the plans of the
      nodes before it stand, and no later node is looked at. */
  lemma {:induction false} RunLoopStopsAt(body: Iteration, nodes: seq<Paragraph>, index: nat, k: nat)
    requires k < |nodes|
    requires forall j :: 0 <= j < k ==> body(nodes[j], index + j).Success?
    requires body(nodes[k], index + k).Failure?
    ensures var r := RunLoop(body, nodes, index);
      && RunLoop(body, nodes[..k], index).error == None
      && r.plans == RunLoop(body, nodes[..k], index).plans
      && r.error == Some(body(nodes[k], index + k).error)
      && r == RunLoop(body, nodes[..k + 1], index)
  {
    var before, bad, rest := nodes[..k], [nodes[k]], nodes[k + 1..];
    RunLoopError(body, before, index);
    assert forall j :: 0 <= j < |before| ==> before[j] == nodes[j];
    assert nodes == before + (bad + rest);
    assert nodes[..k + 1] == before + bad;
    RunLoopAppend(body, before, bad + rest, index);
    RunLoopAppend(body, before, bad, index);
    assert (bad + rest)[0] == nodes[k];
  }

  /** `RunLoopStopsAt` for the first node that is not well formed, in a
      checking loop started at the first node. */
  lemma {:induction false} LoopStopsAtFirstFault(body: Iteration, nodes: seq<Paragraph>, k: nat)
    requires Checks(body)
    requires k < |nodes|
    requires forall j :: 0 <= j < k ==> WellFormed(nodes[j])
    requires !WellFormed(nodes[k])
    ensures var r := RunLoop(body, nodes, 0);
      && r == RunLoop(body, nodes[..k + 1], 0)
      && r == Outcome(RunLoop(body, nodes[..k], 0).plans, r.error)
      && r.error == Some(Fault(nodes[k], k))
  {
    assert forall j :: 0 <= j < k ==> body(nodes[j], 0 + j).Success?;
    assert body(nodes[k], 0 + k).Failure?;
    RunLoopStopsAt(body, nodes, 0, k);
  }

  /** The first node that is not well formed ends the segmentation with its
      `Fault`, whether or not it has text; the clips of the nodes before it
      stand, and no later node is looked at. */
  lemma {:induction false} SegmentStopsAtFirstFault(rawTitle: string, resourcesDir: string, nodes: seq<Paragraph>, k: nat)
    requires k < |nodes|
    requires forall j :: 0 <= j < k ==> WellFormed(nodes[j])
    requires !WellFormed(nodes[k])
    ensures var r := Segment(rawTitle, resourcesDir, nodes);
      && r == Segment(rawTitle, resourcesDir, nodes[..k + 1])
      && r == Outcome(Segment(rawTitle, resourcesDir, nodes[..k]).plans, r.error)
      && r.error == Some(Fault(nodes[k], k))
  {
    var tubeTitle := NormalizeTitle(rawTitle);
    LoopBodyChecks(tubeTitle, ClipsDir(resourcesDir, tubeTitle));
    LoopStopsAtFirstFault(LoopBody(tubeTitle, ClipsDir(resourcesDir, tubeTitle)), nodes, k);
  }

  /** Plans and the nodes they come from, index by index: two plans share a name
      exactly when their nodes carry the same (start, duration) token pair. */
  predicate NamesMatchTokens(plans: seq<ClipPlan>, kept: seq<Paragraph>) {
    && |plans| == |kept|
    && forall i, j :: 0 <= i < |kept| && 0 <= j < |kept| ==>
         (plans[i].name == plans[j].name <==> kept[i].t == kept[j].t && kept[i].d == kept[j].d)
  }

  /** Distinct plans of one document have distinct names exactly when their nodes
      carry distinct (start, duration) token pairs; equal pairs give one name,
      and the later clip overwrites the earlier. */
  lemma {:induction false} PlanNamesDistinct(rawTitle: string, resourcesDir: string, nodes: seq<Paragraph>)
    requires forall k :: 0 <= k < |nodes| ==> WellFormed(nodes[k])
    ensures NamesMatchTokens(Segment(rawTitle, resourcesDir, nodes).plans, Filter(nodes, HasText))
  {
    var tubeTitle := NormalizeTitle(rawTitle);
    SegmentWellFormed(rawTitle, resourcesDir, nodes);
    var r, kept := Segment(rawTitle, resourcesDir, nodes), Filter(nodes, HasText);
    forall i, j | 0 <= i < |kept| && 0 <= j < |kept|
      ensures r.plans[i].name == r.plans[j].name <==> kept[i].t == kept[j].t && kept[i].d == kept[j].d
    {
      var pi, pj := kept[i], kept[j];
      assert r.plans[i].name == ClipName(tubeTitle, pi.t.value, pi.d.value);
      assert r.plans[j].name == ClipName(tubeTitle, pj.t.value, pj.d.value);
      ClipNameInjective(tubeTitle, pi.t.value, pi.d.value, pj.t.value, pj.d.value);
    }
  }

  /** The same for a run that stops at its first malformed node `k`: the clips
      written before the error share a name exactly when their nodes carry
      the same `t` and `d` tokens. */
  lemma {:induction false} PlanNamesDistinctBeforeFault(
    rawTitle: string, resourcesDir: string, nodes: seq<Paragraph>, k: nat)
    requires k < |nodes|
    requires forall j :: 0 <= j < k ==> WellFormed(nodes[j])
    requires !WellFormed(nodes[k])
    ensures NamesMatchTokens(Segment(rawTitle, resourcesDir, nodes).plans, Filter(nodes[..k], HasText))
  {
    var prefix := nodes[..k];
    SegmentStopsAtFirstFault(rawTitle, resourcesDir, nodes, k);
    assert forall j :: 0 <= j < |prefix| ==> prefix[j] == nodes[j];
    PlanNamesDistinct(rawTitle, resourcesDir, prefix);
  }
}
