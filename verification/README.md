# ycsp caption segmentation, modelled in Dafny

`ycsp` downloads a YouTube video, fetches its English caption track, and cuts
the video into one clip per caption paragraph. Each clip gets a sanitised
caption text file beside it, so the pairs can serve as speech data. This
project models the deterministic core of that pipeline,
`__download_and_split_into_clips` and `__ffmpeg_extract_subclip` in
`ycsp/pipeline.py`. It covers five steps:

- the title normaliser;
- the clips directory;
- the loop over the caption body's `<p>` nodes, with its `KeyError` abort and
  its skip of text-less nodes;
- the caption sanitiser;
- the clip name and paths, and the ffmpeg command line for each clip.

The pipeline itself writes files and runs processes. The model turns that into
a pure function, `Segmentation.Segment`, which returns an `Outcome`. The
outcome holds the clip plans the loop attempts, in order, and the attribute
error that stopped the loop, if there was one.

Modules:

- `Wrappers`: `Option` and `Result`.
- `Seqs`: an order-preserving `Filter` and the subsequence relation.
- `Text`: the caption whitelist `[A-Za-z0-9가-힣 ]` and the title normaliser.
- `Tokens`: the `t`/`d` attribute tokens. These are millisecond counts written
  as decimal digit strings.
- `Paths`: POSIX `os.path.join`, the clip name `title-t-d` and how it reads
  back, and the clip's `.mp4` and `.txt` paths.
- `Extract`: the ffmpeg argument vector and a reader that recovers its
  varying parts.
- `Segmentation`: paragraphs, clip plans, errors, one loop iteration, the
  loop, and the properties of the whole run.

Times are natural numbers of milliseconds. The source's `"%0.2f"` rendering
of seconds appears as an uninterpreted parameter `fmt`.

Facts about the code that the model keeps:

- The title loses only U+0020 spaces (`str.replace(' ', '')`,
  ycsp/pipeline.py:88). Tabs, newlines and other whitespace stay.
- A paragraph's caption is its ElementTree `.text`: the character data before
  its first child element. Only a node whose `.text` is `None` is skipped
  (ycsp/pipeline.py:126-130). A node whose `.text` is the empty string is not
  skipped and gets a clip with an empty caption.
- The `t` and `d` lookups and their `float` parses (ycsp/pipeline.py:116-120)
  come before the text check. So a node without text but with a missing or
  malformed attribute still aborts the loop.
- Clips of earlier nodes stay written when the loop aborts.

## Model

| member | source | states |
|---|---|---|
| Text.Sanitize | ycsp/pipeline.py:133 | every character of the sanitised caption lies in `[A-Za-z0-9가-힣 ]`; an empty caption stays empty |
| Text.SanitizeContents | ycsp/pipeline.py:133 | the result is an in-order subsequence of the caption; it keeps every whitelisted character exactly as often as the caption has it (that it holds no other character is `Text.Sanitize`'s contract) |
| Text.SanitizeAppend | ycsp/pipeline.py:133 | deletion is per character: sanitising `a + b` gives sanitise(`a`) followed by sanitise(`b`) |
| Text.SanitizeFixpoint | ycsp/pipeline.py:133 | a caption is left unchanged if and only if all its characters are whitelisted |
| Text.SanitizeIdempotent | ycsp/pipeline.py:133 | sanitising twice is sanitising once |
| Text.SanitizeExample | ycsp/pipeline.py:133 | punctuation is deleted, not replaced; Hangul, ASCII letters and digits, and the space are kept ("한글, a1!" becomes "한글 a1") |
| Text.NormalizeTitle | ycsp/pipeline.py:88 | the normalised title contains no space; it is a subsequence of the raw title; it keeps every other character with its multiplicity |
| Text.NormalizeTitleKeepsOtherWhitespace | ycsp/pipeline.py:88 | only U+0020 is removed: a tab survives ("a b\tc" becomes "ab\tc") |
| Text.NormalizeTitleIdempotent | ycsp/pipeline.py:88 | normalising a normalised title changes nothing |
| Tokens.ParseMillis | ycsp/pipeline.py:119-120 | a time token is accepted if and only if it is a non-empty string of decimal digits |
| Tokens.ParseShow | ycsp/pipeline.py:119-120 | every millisecond count has a digit token that parses back to it |
| Tokens.LeadingZeroSameTime | ycsp/pipeline.py:119-120 | leading zeros do not change the parsed time, so distinct tokens can denote the same instant |
| Paths.Join | ycsp/pipeline.py:102 | `os.path.join` ends with its last part, and keeps the directory as a prefix unless that part is absolute |
| Paths.ClipsDir | ycsp/pipeline.py:102 | the clips directory of a video ends in `clips`; for a non-empty resources directory without a trailing `/` and a non-empty title that neither starts nor ends with `/`, it is `resources/title/clips` |
| Paths.ClipName | ycsp/pipeline.py:136 | a start token without a dash is read back, together with its duration token, from the clip name |
| Paths.SplitClipName | ycsp/pipeline.py:136 | when a clip name reads back as `(t, d)`, the name is `title-t-d` and `t` contains no dash |
| Paths.ClipNameInjective | ycsp/pipeline.py:136 | with digit tokens, two clip names of one title are equal if and only if their start and duration tokens are equal |
| Paths.ClipNameCollision | ycsp/pipeline.py:136 | without the digit restriction, different token pairs ("1-2","3") and ("1","2-3") give the same name |
| Paths.MediaPath | ycsp/pipeline.py:137 | the media path is the clips directory joined with the clip name, with `.mp4` appended |
| Paths.CaptionPath | ycsp/pipeline.py:138 | the caption path is the same joined path with `.txt` appended, so a clip's two files differ only in their extension |
| Paths.ClipPathLocation | ycsp/pipeline.py:102-138 | the clip's media path is `clipsDir/name.mp4`, except that a title starting with '/' makes `os.path.join` drop the directory |
| Extract.FfmpegArgv | ycsp/pipeline.py:157-161 | the ffmpeg command line has fifteen arguments, and reading it back recovers exactly the binary, the formatted start, the source file, the formatted length `end - start` and the target |
| Extract.ReadArgv | ycsp/pipeline.py:157-161 | a command line that is recognised has exactly the fixed shape: overwrite, seek, input, length, stream-copy flags, target |
| Segmentation.PlanOf | ycsp/pipeline.py:116-138 | a plan's start is the parsed `t`; its end is start plus the parsed `d`; its name reads back to the raw `(t, d)` tokens; its paths are the joined name plus `.mp4`/`.txt`; its caption is the node's text sanitised, so whitelisted |
| Segmentation.Fault | ycsp/pipeline.py:116-120 | the error of a malformed node carries the node's position and follows the order of the lookups and parses: a missing `t` is reported as `t`; otherwise a missing `d` as `d`; otherwise a malformed `t` token; otherwise the `d` token, which is then the one that is not a digit string |
| Segmentation.PlanParagraph | ycsp/pipeline.py:115-138 | one iteration succeeds if and only if both attributes are present and parse; on success it emits a plan exactly when the node has text, and that plan is `PlanOf` the node; a failure is the node's `Fault`, whose contract fixes the order: a missing `t` before a missing `d` before a malformed `t` before a malformed `d`, at the node's position |
| Segmentation.RunLoop | ycsp/pipeline.py:115-144 | the loop emits at most one plan per node |
| Segmentation.RunLoopAppend | ycsp/pipeline.py:115-144 | the loop is sequential: running it over `a + b` runs it over `a`, then, unless `a` ended in an error, over `b` |
| Segmentation.RunLoopError | ycsp/pipeline.py:115-144 | the loop ends without error if and only if every iteration succeeds |
| Segmentation.RunLoopNoFailure | ycsp/pipeline.py:115-144 | a loop whose iterations never fail emits, in order, exactly one plan per selected node |
| Segmentation.RunLoopFirstFailure | ycsp/pipeline.py:115-144 | when iterations fail exactly on nodes that are not well formed, with their `Fault`, the loop ends in an error if and only if some node is not well formed, and the error is the `Fault` of the first such node |
| Segmentation.RunLoopStopsAt | ycsp/pipeline.py:115-144 | a failing iteration ends the loop with that iteration's error, keeps the plans of the earlier nodes, and ignores every later node |
| Segmentation.LoopStopsAtFirstFault | ycsp/pipeline.py:115-144 | at its first malformed node, a loop started at the first node that fails exactly on malformed nodes ends with that node's `Fault`, keeps the plans of the prefix before it, and gives the same outcome as the prefix up to it |
| Segmentation.LoopBodyWellFormed | ycsp/pipeline.py:115-138 | a well-formed node yields its plan if it has text and is skipped otherwise |
| Segmentation.LoopBodyFails | ycsp/pipeline.py:115-138 | an iteration fails exactly on nodes that are not well formed, and then with the node's `Fault` |
| Segmentation.LoopBodyChecks | ycsp/pipeline.py:115-138 | the loop body of any title and directory fails exactly on malformed nodes, with their `Fault` |
| Segmentation.RunLoopWellFormed | ycsp/pipeline.py:115-144 | over well-formed nodes, the loop has no error and emits `PlanOf` each node with text, in document order |
| Segmentation.Segment | ycsp/pipeline.py:88-144 | segmentation emits at most one clip per paragraph node |
| Segmentation.SegmentWellFormed | ycsp/pipeline.py:115-144 | if every node is well formed: there is no error; there is one plan per node with text, in document order, each being `PlanOf` that node under the normalised title and the clips directory |
| Segmentation.SegmentErrorIff | ycsp/pipeline.py:115-120 | segmentation ends in an error if and only if some node lacks `t` or `d` or has a malformed token, with or without text; the error is the `Fault` of the first such node, and all nodes before it are well formed |
| Segmentation.SegmentStopsAtFirstFault | ycsp/pipeline.py:115-144 | at the first malformed node, segmentation stops with that node's `Fault`; the plans are those of the prefix before it; nodes after it do not matter |
| Segmentation.PlanNamesDistinct | ycsp/pipeline.py:136-138 | two plans of a run over well-formed nodes share a name, and so overwrite each other's files, if and only if their nodes carry the same `t` and `d` tokens |
| Segmentation.PlanNamesDistinctBeforeFault | ycsp/pipeline.py:115-138 | in a run that stops at its first malformed node, the plans written before the error, one per node with text before it, share a name if and only if their nodes carry the same `t` and `d` tokens |
| Segmentation.ExtractArgv | ycsp/pipeline.py:141-161 | the command line of a planned clip seeks to the plan's start, copies for its duration, reads the downloaded file and writes the plan's media path |

## Left out

- XML parsing of the caption document (`elemTree.fromstring`, `findall`): paragraphs arrive already parsed, as `Paragraph` values in document order.
- Child elements of a `<p>` node: only the node's `.text` is modelled, as in the source. Text inside child elements and after them (their `.tail`) is never read, so `<p t="0" d="5"><s>hi</s></p>` is skipped and `<p t="0" d="5">a<br/>b</p>` gets the caption `a`.
- Failures of the extraction and of the caption write: the model assumes that every ffmpeg run (`subprocess_call`, ycsp/pipeline.py:141 and 163) and every caption file write (ycsp/pipeline.py:143-144) succeeds. In the source, a failure of either raises and aborts the remaining nodes. `PlanError` holds only the attribute errors.
- The YouTube download (`pytube`, the network), the missing-caption `KeyError`, URL-file reading and command-line arguments: these are I/O outside the segmentation core.
- File-system effects: `mkdir` of the resources and clips directories, the `isdir` check, writing caption files, and running ffmpeg. The model returns the plans and command lines instead of carrying them out.
- `get_setting("FFMPEG_BINARY")` and logging: the binary is a parameter, and logging has no effect on the results.
- Tokens.ParseMillis: accepts only non-empty ASCII digit strings as time tokens. Python's `float` also takes a sign, a decimal point, an exponent, underscores between digits (`"1_000"`), surrounding whitespace, non-ASCII decimal digits (`"١٥٠٠"`, `"１５００"`), and `inf`, `infinity` and `nan` in any case. Here all of those count as `MalformedTime`, because caption documents carry integer millisecond attributes.
- Segmentation.PlanParagraph: inherits the time-token restriction of `Tokens.ParseMillis`.
- Extract.FfmpegArgv: seconds as floats, the `/ 1000.0` division, the float addition `start + duration`, and the `"%0.2f"` rendering are not modelled. Times stay exact milliseconds, and the formatting is the uninterpreted parameter `fmt`.
- The default target name of `__ffmpeg_extract_subclip` (ycsp/pipeline.py:153-155): the pipeline always passes a target, so that branch never runs.
- Paths.Join: models POSIX `posixpath.join` only. Windows `ntpath.join`, with backslashes and drive letters, is not modelled.
- Python strings may hold lone surrogates, but Dafny's `char` is a Unicode scalar value; such code points are not modelled.
- `setup.py` and packaging are not part of this model.
