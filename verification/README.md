# Blender render collector: expected files and the publish record

This project models the data logic of the AYON Blender render collector
`CollectBlenderRender` (`client/ayon_blender/plugins/publish/collect_render.py`).
It proves properties of the model in Dafny. Two pieces are modelled.

- **Expected-file expansion** (`generate_expected_files`). It takes a list of
  `(name, pattern)` render products, a frame range, a step and an image
  extension, and builds a map from each product name to its expected file
  paths. For each product:
  - the pattern is split into `dirname` and `basename`;
  - the code walks `range(start, end + 1, step)`;
  - each frame is written as `str(frame).rjust(4, "0")`;
  - every run of `#` in the basename is replaced by that frame string;
  - the directory and file name are rejoined, `.ext` is appended, and every
    backslash becomes `/`.

  The source creates the path list once, before the product loop. So every
  name maps to the same list, which holds the paths of all products one
  after another. The model keeps that behaviour. The `ExpectedFileMap`
  function states it directly. The `GenerateExpectedFiles` method follows
  the two loops of the source and is proved equal to it.
- **Record assembly** (`process`).
  - Missing render data is an error.
  - Otherwise the beauty and AOV products are expanded over the same range,
    step and extension.
  - The two maps are merged with Python's dict union, so the AOV side wins
    on a shared name.
  - The record's fixed and derived fields are filled in.

Modules:
- `PyStr`: `str(int)`, `str.rjust`, backslash replacement, and a decimal
  reader used to state what the digits mean.
- `HashRuns`: `re.sub("#+", rep, s)` and its companion `re.split("#+", s)`.
- `PosixPath`: `posixpath.dirname`, `basename` and `join`.
- `Seqs`: a list comprehension and list-of-lists concatenation.
- `ExpectedFiles`: the frame range, frame string, per-frame path, the
  shared-list map, and the loop-for-loop method.
- `CollectRender`: the typed job, the record, the merge and `process`.
- `Examples`: concrete instances of the above.

Path handling follows POSIX `os.path`. `/` is the only separator, and a
backslash is an ordinary character until the final replacement. Frames are
full integers, so `-5` becomes `"00-5"`. The scene's frame step, which the
source reads from Blender, is a parameter and must be at least 1.

## Model

| member | source | states |
|---|---|---|
| PyStr.RJust | client/ayon_blender/plugins/publish/collect_render.py:38 | `rjust` never shortens: the result is `width` long when the string is shorter, else the string's own length |
| PyStr.RJustPads | client/ayon_blender/plugins/publish/collect_render.py:38 | padding only goes in front: the original string ends the result and every earlier character is the fill character |
| PyStr.NatToStrParses | client/ayon_blender/plugins/publish/collect_render.py:38 | `str(n)` round-trips: reading its decimal digits back gives `n` |
| PyStr.NatToStrLength | client/ayon_blender/plugins/publish/collect_render.py:38 | `str(n)` has at most `k` digits exactly when `n < 10^k`, in both directions |
| PyStr.IntToStrDenotes | client/ayon_blender/plugins/publish/collect_render.py:38 | `str(i)` starts with `-` iff `i < 0`; a non-negative `i` gives `NatToStr(i)`, its canonical digits (no leading zero, reading back as `i`), a negative one gives `-` then the digits of `-i` |
| PyStr.IntToStr | client/ayon_blender/plugins/publish/collect_render.py:38 | `str(i)` is never empty; its sign and digits are stated by `PyStr.IntToStrDenotes` |
| PyStr.Slashify | client/ayon_blender/plugins/publish/collect_render.py:41 | `replace("\\", "/")` keeps the length; what each character becomes is stated by `PyStr.SlashifyChars` |
| PyStr.SlashifyChars | client/ayon_blender/plugins/publish/collect_render.py:41 | `replace("\\", "/")` turns each backslash into `/` and keeps every other character in place |
| PyStr.SlashifyFacts | client/ayon_blender/plugins/publish/collect_render.py:41 | no backslash survives; the replacement distributes over concatenation; a backslash-free string is unchanged |
| HashRuns.NextHash | client/ayon_blender/plugins/publish/collect_render.py:39 | a match of `#+` starts at the first `#` at or after the resume point, with no `#` skipped before it |
| HashRuns.RunEnd | client/ayon_blender/plugins/publish/collect_render.py:39 | the match is greedy: it covers only `#` and stops at a non-`#` or at the end |
| HashRuns.SplitFrom | client/ayon_blender/plugins/publish/collect_render.py:39 | `re.split("#+")` gives at least one piece; no piece holds `#`; the inner pieces are non-empty, so the runs between them are maximal |
| HashRuns.SplitRebuilds | client/ayon_blender/plugins/publish/collect_render.py:39 | weaving the split pieces back with `#` runs of the recorded lengths rebuilds the string exactly |
| HashRuns.SubstituteJoinsSplit | client/ayon_blender/plugins/publish/collect_render.py:39 | the substitution replaces every maximal run, not just the first: `re.sub("#+", rep, s) == rep.join(re.split("#+", s))` |
| HashRuns.SubstituteAvoids | client/ayon_blender/plugins/publish/collect_render.py:39 | a character absent from `rep` and from the text outside the runs is absent from the result; in particular no `#` remains |
| HashRuns.Substitute | client/ayon_blender/plugins/publish/collect_render.py:39 | a name without `#` comes back unchanged |
| PosixPath.RFind | client/ayon_blender/plugins/publish/collect_render.py:34-35 | the position found holds the character and no later position does; -1 when there is none |
| PosixPath.RStrip | client/ayon_blender/plugins/publish/collect_render.py:34 | the result is a prefix, everything removed is the stripped character, and the result does not end with it |
| PosixPath.Basename | client/ayon_blender/plugins/publish/collect_render.py:35 | `basename` is the longest `/`-free suffix of the path |
| PosixPath.Dirname | client/ayon_blender/plugins/publish/collect_render.py:34 | `dirname` is a prefix; it is empty iff the path has no `/`; if it ends in `/` it is all slashes (the root), and then it is kept whole up to the basename; otherwise only slashes lie between it and the basename |
| PosixPath.Join | client/ayon_blender/plugins/publish/collect_render.py:40 | `join` is at least as long as the name and at most as long as both parts plus one separator |
| PosixPath.JoinKeepsDirectory | client/ayon_blender/plugins/publish/collect_render.py:40 | joining a relative name keeps the directory in front and adds `/` only when the directory is non-empty and does not already end in one |
| PosixPath.SplitJoinRoundTrip | client/ayon_blender/plugins/publish/collect_render.py:34-35 | `join(dirname(p), basename(p)) == p` for a path with no doubled `/` |
| ExpectedFiles.Frames | client/ayon_blender/plugins/publish/collect_render.py:37 | `range(start, end + 1, step)` is empty exactly when `start > end`; otherwise it starts at `start` and its last frame is at most `end`, with one more step past `end` |
| ExpectedFiles.FramesClosedForm | client/ayon_blender/plugins/publish/collect_render.py:37 | `range(start, end + 1, step)` has `ceil((end - start + 1) / step)` frames (none, and no error, when `start > end`), and the k-th is `start + k * step` |
| ExpectedFiles.FrameAt | client/ayon_blender/plugins/publish/collect_render.py:37 | the k-th frame of the range, for one valid `k`, is `start + k * step` |
| ExpectedFiles.FramesMembership | client/ayon_blender/plugins/publish/collect_render.py:37 | a frame is visited iff it lies in `start..end` a whole number of steps after `start` |
| ExpectedFiles.FrameString | client/ayon_blender/plugins/publish/collect_render.py:38 | the frame string has `max(4, len(str(frame)))` characters |
| ExpectedFiles.FrameStringDenotes | client/ayon_blender/plugins/publish/collect_render.py:38 | a non-negative frame's string reads back as the frame; it is 4 characters below 10000 and never truncated above (10005 gives "10005") |
| ExpectedFiles.FrameStringAlphabet | client/ayon_blender/plugins/publish/collect_render.py:38 | a frame string holds only digits and `-`, so never `#`, `/` or a backslash |
| PyStr.IntToStrAlphabet | client/ayon_blender/plugins/publish/collect_render.py:38 | `str(i)` holds only digits and `-` |
| ExpectedFiles.ExpectedPath | client/ayon_blender/plugins/publish/collect_render.py:34-41 | one product's path for one frame is at least as long as the `.ext` it ends with; its shape is stated by `ExpectedFiles.ExpectedPathShape` |
| ExpectedFiles.ExpectedPathShape | client/ayon_blender/plugins/publish/collect_render.py:34-41 | each path has no backslash, starts with the pattern's directory (never substituted) with `\` turned into `/`, and ends with `.ext` with `\` turned into `/`; its file name is the basename's `#`-split pieces joined by the frame string |
| ExpectedFiles.JoinedPathShape | client/ayon_blender/plugins/publish/collect_render.py:40-41 | the joined, extended and slash-normalised path has no backslash, starts with the directory with `\` turned into `/`, and ends with `.ext` with `\` turned into `/` |
| ExpectedFiles.PlainFileName | client/ayon_blender/plugins/publish/collect_render.py:34-41 | a bare file name with no `/`, `#` or backslash gives `name.ext` for every frame |
| ExpectedFiles.NoPlaceholderRepeats | client/ayon_blender/plugins/publish/collect_render.py:39-41 | a basename without `#` gives the same path for every frame, so the list repeats that path once per frame |
| ExpectedFiles.ExpectedFileMap | client/ayon_blender/plugins/publish/collect_render.py:31-45 | the mapping's keys are exactly the product names, and every name is bound to the same list (the shared accumulator) |
| ExpectedFiles.AppendFrames | client/ayon_blender/plugins/publish/collect_render.py:37-41 | the frame loop appends one product's paths, one per frame in range order, to the shared list |
| ExpectedFiles.GenerateExpectedFiles | client/ayon_blender/plugins/publish/collect_render.py:22-45 | the two loops produce a map whose keys are the product names, each bound to the concatenation of all products' per-frame paths |
| ExpectedFiles.SharedPathsLength | client/ayon_blender/plugins/publish/collect_render.py:32-43 | the shared list holds #products × #frames paths |
| ExpectedFiles.SharedPathsAt | client/ayon_blender/plugins/publish/collect_render.py:32-43 | product `i`'s path for the k-th frame sits at index `i * #frames + k`: products in input order, frames ascending within each |
| ExpectedFiles.ExpectedFilesShape | client/ayon_blender/plugins/publish/collect_render.py:31-45 | the keys are exactly the product names (an empty product list gives an empty map), every key maps to the same list, and its length is #products × #frames |
| ExpectedFiles.ExpectedFilesAt | client/ayon_blender/plugins/publish/collect_render.py:31-45 | under any name, index `i * #frames + k` is product `i`'s path for frame `start + k * step` |
| CollectRender.Merge | client/ayon_blender/plugins/publish/collect_render.py:71 | dict union: the keys are the union, an AOV key keeps the AOV value, a beauty-only key keeps the beauty value; an empty side leaves the other side as it is |
| CollectRender.Assemble | client/ayon_blender/plugins/publish/collect_render.py:63-90 | the record holds one merged mapping whose names are those of both product lists; `multipartExr` iff exr and multilayer; review only when set true |
| CollectRender.Process | client/ayon_blender/plugins/publish/collect_render.py:53-90 | fails iff render data is missing or empty; otherwise gives the families, farm flag, fps, `multipartExr` iff exr and multilayer, review only when set true, step from the creator attributes defaulting to 1 (whatever the scene step), the three colorspace strings, the frame-range pair, and a one-element expected-files list |
| CollectRender.ProcessExpectedFiles | client/ayon_blender/plugins/publish/collect_render.py:63-80 | the merged map's keys are the beauty and AOV names; an AOV name maps to the AOV shared list and a beauty-only name to the beauty one; each list has one path per product of its side per frame |
| Examples.StepThree | client/ayon_blender/plugins/publish/collect_render.py:37 | frames 1..10 with step 3 are 1, 4, 7, 10 |
| Examples.Padding | client/ayon_blender/plugins/publish/collect_render.py:38 | frame 7 gives "0007", 10005 gives "10005", -5 gives "00-5" |
| Examples.EveryRun | client/ayon_blender/plugins/publish/collect_render.py:39 | in "a##b#c" both runs are replaced |
| Examples.DirnameStrips | client/ayon_blender/plugins/publish/collect_render.py:34 | `dirname("/a//b")` strips the trailing slashes to "/a" |
| Examples.DirnameKeepsRoot | client/ayon_blender/plugins/publish/collect_render.py:34 | `dirname("//b")` keeps the all-slash root "//" |
| Examples.JoinCases | client/ayon_blender/plugins/publish/collect_render.py:40 | `join` with an empty directory, one ending in `/`, and one without |
| Examples.BeautyPath | client/ayon_blender/plugins/publish/collect_render.py:34-41 | pattern "s/##" at frame 7 with extension "exr" gives "s/0007.exr" |
| Examples.ShotSplit | client/ayon_blender/plugins/publish/collect_render.py:34-35 | `shot_010/render_####` splits into `shot_010` and `render_####` |
| Examples.ShotSubstitute | client/ayon_blender/plugins/publish/collect_render.py:39 | any frame string fills the run at the end of `render_####` |
| Examples.FourDigits | client/ayon_blender/plugins/publish/collect_render.py:38 | a four-digit frame is written as its digits, unpadded |
| Examples.PlainJoin | client/ayon_blender/plugins/publish/collect_render.py:40-41 | a backslash-free name under a directory not ending in `/` gives `dir/name.ext` |
| Examples.ShotPath | client/ayon_blender/plugins/publish/collect_render.py:34-41 | the shot pattern at a four-digit frame gives `shot_010/render_<frame>.exr` |
| Examples.ShotExample | client/ayon_blender/plugins/publish/collect_render.py:22-45 | product `beauty` with pattern `shot_010/render_####` over frames 1001..1003 maps to the three paths `shot_010/render_1001.exr` .. `shot_010/render_1003.exr` in frame order |
| Examples.SharedList | client/ayon_blender/plugins/publish/collect_render.py:31-45 | two plain products over one frame: both names map to the list holding both products' paths |

## Left out

- The scene frame step is read from Blender (`bpy.context.scene.frame_step`).
  Here it is a parameter that must be at least 1, because `range` with step
  0 raises.
- The pyblish plumbing is left out: the plugin class attributes, the
  instance and context dictionaries, and the instance node lookup. A typed
  `Job` takes their place, and only the keys `process` writes are modelled.
- `colorspace.ARenderProduct` is a foreign class. It is kept as the pair of
  frame handles it is built from.
- `self.log.debug` is logging only.
- Windows `ntpath` splitting is not modelled; `os.path` is taken to be
  `posixpath`.
- `ext == "exr" and multilayer` can yield a non-bool value in Python. Here
  `multilayer` is a `bool`. Likewise `review` is an optional `bool`.
- The `assert` on render data is modelled as an unconditional failure. That
  it disappears under `python -O` is not modelled.
- Render data that is present but lacks `render_product` or
  `aov_file_product` makes the source fail with a `TypeError` when the
  product loop iterates over `None`. The typed `RenderData` always carries
  both lists.
- Render data without `image_format` is not representable: the source
  then formats the extension as `None`, emitting paths that end in
  `.None`, and `multipartExr` is false. The typed `RenderData` always
  carries an extension string.
- `int(frame_start)` and `int(frame_end)` would truncate float handles. The
  handles are integers in the typed job.
- `fps` is passed through as a `real`, with no floating-point behaviour.
- Python dicts keep insertion order; Dafny maps are unordered. Only keys and
  values are modelled.
- The frame string is inserted into `re.sub` literally. A replacement
  holding regex-template escapes cannot occur, because it holds only digits
  and `-`.
