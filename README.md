# JPEG batch resizer — a Dafny model

This project models the decision logic of `resize.py`, a command-line tool
that resizes every JPEG in a folder with a pool of worker processes. The
pixel work, the file system and the process pool are not modelled; what is
modelled is everything the script decides for itself:

- **Option checks** (`main`): an ordered chain of early returns over
  `--percent`, `--width`, `--height`, `--exact` and `--aspect`, where the first
  failing check picks the error message (`Validation.Validate`).
- **Mode dispatch** (`resize_image`): percent, exact, width only, height only,
  fit within bounds, then the default exact resize, first match wins, with
  Python truthiness (`None` and `0` are alike) and `int()` truncation
  (`Resize.Branch`, `Resize.PlanFor`, `Resize.ResizeImage`).
- **Mode banner** (`main`): the mode printed before the run, which tests the
  aspect flag before the single-side cases (`Validation.Banner`).
- **File selection** (`get_image_files`): a loop that keeps the listed names
  whose `pathlib` suffix is exactly `.jpg`, `.jpeg`, `.JPG` or `.JPEG`
  (`ImageFiles.GetImageFiles`, specified by `ImageFiles.ImageNames`).
- **Task list and run** (`main`): one task per kept file, in order, and
  `pool.map(resize_image, tasks)` as an order-preserving map (`Batch.Run`).

Files, one module each:

- `pyruntime.dfy` (`PyRuntime`): `Option`, truthiness, `int()` on a float,
  `os.path.join`, `os.path.basename`, `str.rfind` and `PurePath.suffix`,
  with products and quotients written as recursions (`Times`, `IntTimes`,
  `Quot`) that lemmas tie to `*` and `/`.
- `imagefiles.dfy` (`ImageFiles`): `get_image_files`.
- `resize.dfy` (`Resize`): `resize_image`, with the image library as a
  `Codec` record of functions (open, resample, thumbnail, save), each of
  which may fail; a failure becomes a `Failed` outcome, as the script's
  `try`/`except` does.
- `validation.dfy` (`Validation`): the checks, their messages and the banner.
- `batch.dfy` (`Batch`): the task list and the flow of `main`.

Inputs that the script gets from the operating system are parameters:
whether the input folder exists, the directory listing, and the `Codec`.

`get_image_files` is documented as collecting "all JPG/JPEG files"; the
extension set it tests holds exactly four spellings (`.jpg`, `.jpeg`, `.JPG`,
`.JPEG`), so `photo.Jpg` is skipped (`ImageFiles.OtherSuffixExamples`).

## Model

| member | source | states |
|---|---|---|
| `PyRuntime.Trunc` | resize.py:56-57 | `int()` of a float rounds toward zero: the result is within one below a non-negative value and within one above a negative one |
| `PyRuntime.RFind` | resize.py:101 | the index of the last occurrence of the character, or -1 when there is none: that position holds it and no later one does |
| `PyRuntime.Join` | resize.py:227-228 | an absolute file name replaces the folder; otherwise the result is the folder, a '/' exactly when the folder is non-empty and does not already end in one, then the file name |
| `PyRuntime.Basename` | resize.py:89 | the basename is the whole tail of the path after its last '/': it contains no '/' and is either the whole path or preceded by a '/' |
| `PyRuntime.Suffix` | resize.py:101 | a non-empty suffix starts with the last '.', has no other '.', is at least two characters long, ends the name and leaves a non-empty stem |
| `PyRuntime.BasenameOfJoin` | resize.py:89 | the basename of `join(folder, name)` is `name` for any plain file name, so each status line names its file |
| `PyRuntime.TruncDivIsTrunc` | resize.py:67-68 | the integer quotient rounded toward zero equals `int()` of the exact real quotient, for either sign of the dividend |
| `ImageFiles.ImageNames` | resize.py:97-104 | the kept names are exactly the listed names that are image names, and there are no more of them than listed names |
| `ImageFiles.SuffixFromLastDot` | resize.py:101 | when the last '.' of a name is neither its first nor its last character, the suffix is everything from that dot on |
| `ImageFiles.GetImageFiles` | resize.py:95-104 | the loop returns exactly the filter `ImageNames` of the listing |
| `ImageFiles.IsImageNameIff` | resize.py:97-101 | a name is kept exactly when it is a non-empty stem followed by one of the four extensions |
| `ImageFiles.FilterMembers` | resize.py:100-102 | a name is in the result exactly when it is listed and is accepted |
| `ImageFiles.FilterAppend` | resize.py:100-102 | filtering commutes with concatenation, so the result keeps listing order |
| `ImageFiles.FilterSingleton` | resize.py:101-102 | a single listed name is kept exactly when it is accepted |
| `ImageFiles.FilterLength` | resize.py:98-104 | the result is never longer than the listing |
| `ImageFiles.KeptExamples` | resize.py:97-101 | each of `a.jpg`, `b.jpg`, `b.JPEG` and `x.tar.jpeg` is kept |
| `ImageFiles.OtherSuffixExamples` | resize.py:97-101 | each of `c.Jpg`, `d.png` and `notes.txt` is skipped: their suffix is not one of the four spellings |
| `ImageFiles.NoSuffixExamples` | resize.py:101 | `.jpg` and `e.jpg.` have no suffix and are skipped |
| `Resize.BranchConditions` | resize.py:55-85 | the percent branch is taken exactly when the percentage is truthy, otherwise exact exactly when the flag is set; width only and height only need exactly that side truthy; fit needs the aspect flag, and default needs neither flag |
| `Resize.PlanFor` | resize.py:54-85 | a resize is planned in the mode of the branch taken and never in fit mode; a thumbnail only in the fit branch |
| `Resize.Execute` | resize.py:58-92 | after a resize plan the file is reported resized exactly when the resize and the save both succeed, and after a fit plan exactly when the thumbnail succeeds and its size is saved; each failure label names the call that failed (`ResampleFailed` a failed resize, `ThumbnailFailed` a failed thumbnail, `SaveFailed` a failed save after a successful resize or thumbnail); a success records the original size, the mode and the size it reports |
| `Resize.ResizeImage` | resize.py:34-92 | every outcome carries the file's basename; an unreadable file fails with `CannotOpen`; an opened file whose branch raises fails with that branch's error, and otherwise is reported resized exactly when the library's resize (or thumbnail) and save succeed; a success records the opened size, the branch taken and the final size, which is the planned resize's target or, in fit mode, the size the thumbnail leaves within the requested bounds |
| `Resize.OutcomeDependsOnOwnFile` | resize.py:34-92 | two libraries that answer alike the calls this task makes (opening its input, the one resize or thumbnail its plan asks for, saving to its output path) give the task the same outcome, whatever they do for other sizes, targets or paths |
| `Resize.ScaledDown` | resize.py:56-57 | `int(side * p / 100)` lies between 0 and the side for a percentage in (0, 100] |
| `Resize.PercentTakesPrecedence` | resize.py:55-58 | a positive percentage wins over every other option and gives `(floor(W*p/100), floor(H*p/100))` |
| `Resize.PercentAtMostHundredShrinks` | resize.py:55-57 | a percentage up to 100 never grows a side and never makes one negative |
| `Resize.ExactTarget` | resize.py:61-62 | with `--exact` the target is the requested pair verbatim, whatever the original size |
| `Resize.DefaultTarget` | resize.py:84-85 | with both sides and no flag the target is the requested pair verbatim |
| `Resize.WidthOnlyTarget` | resize.py:65-69 | width only keeps the width and sets height = width*H div W, within one pixel of the original aspect ratio |
| `Resize.HeightOnlyTarget` | resize.py:71-75 | height only keeps the height and sets width = height*W div H, within one pixel of the original aspect ratio |
| `Resize.AspectSideIsFloatFormula` | resize.py:67-68 | the computed side equals `int(side * (num / den))` with the ratio taken as an exact quotient |
| `Resize.FitReportsThumbnail` | resize.py:78-81 | in fit mode the reported size is the one the thumbnail leaves |
| `Validation.Validate` | resize.py:158-189 | the verdict is the first check, in `main`'s order, that fires; acceptance means none fires |
| `Validation.MissingFolderNamed` | resize.py:159-161 | the missing-folder error line quotes the input folder as given |
| `Validation.AcceptedConfiguration` | resize.py:163-189 | accepted exactly when the folder exists, some sizing is given, every given number is positive, not both flags, and a flag comes with both sides |
| `Validation.Banner` | resize.py:203-217 | percent is announced exactly when the percentage is truthy, otherwise exact exactly when the flag is set, and fit exactly when neither percent nor exact applies and the aspect flag is set; the single-side modes need the aspect flag off |
| `Validation.BannerMatchesBranch` | resize.py:204-218 | for every accepted configuration the announced mode is the branch `resize_image` takes |
| `Validation.BannerDiffersWhenUnchecked` | resize.py:209-213 | without the checks the two orders differ (width only with `--aspect`), and the checks reject that case |
| `Validation.AcceptedBranchesHaveSides` | resize.py:178-189 | after the checks, the exact, fit and default branches get both sides, positive; the single-side branches get their side, positive |
| `Validation.AcceptedTaskFailsOnlyInLibrary` | resize.py:46-92 | after the checks a task never fails on a missing side, divides by zero only for an empty image, and reports the announced mode |
| `Batch.BuildTasks` | resize.py:225-236 | one task per file, the i-th reading `join(input, files[i])` and writing `join(output, files[i])` |
| `Batch.MapResize` | resize.py:239-240 | one result per task, the i-th being `resize_image` of the i-th task |
| `Batch.Run` | resize.py:158-240 | a rejected configuration reports its error and its `Error: ...` line and nothing else; no kept files reports that; otherwise the banner's mode and `resize_image` mapped over the tasks |
| `Batch.TasksNameTheirFiles` | resize.py:225-236 | each task reads `join(input, name)` and writes `join(output, name)`, so both paths have the file as basename, and it carries the run's options unchanged |
| `Batch.OutputsDistinct` | resize.py:228 | distinct file names give distinct output paths, so no two workers write the same file |
| `Batch.OutcomesFollowListing` | resize.py:239-245 | one outcome per kept file, in listing order, each under that file's name |
| `Batch.FailureIsolation` | resize.py:239-240 | a file's outcome depends only on the library's answers to that file's own calls, so another file failing in open, resize, thumbnail or save does not change it |
| `Batch.AcceptedRunMatchesBanner` | resize.py:204-240 | in an accepted run every resized file used the announced mode and none failed on a missing side |
| `Batch.KeepFirstAndLast` | resize.py:100-102 | of three listed names with only the middle one refused, the first and last are kept, in order |
| `Batch.TwoOfThree` | resize.py:225-236 | such a listing gives exactly two tasks, for the first and last names, in order |
| `Batch.KeptAroundOther` | resize.py:97-104 | of two image names around one that is not, the listing keeps the two image names, in order |
| `Batch.TasksOfTwo` | resize.py:225-236 | two files give exactly their two tasks, in file order |
| `Batch.ResultsOfTwo` | resize.py:239-240 | the pool's results for two files are those files' outcomes, in order |
| `Batch.OutcomesOfTwo` | resize.py:225-240 | when the listing keeps exactly two files, the run's outcomes are theirs, in listing order |
| `Batch.WidthFourHundred` | resize.py:65-69 | a width-400 task on a healthy file reports its name and width*H div W |
| `Batch.WidthPair` | resize.py:65-69 | at width 400, an 800x600 photo comes out 400x300 and a 1000x500 photo 400x200 |
| `Batch.WidthScenario` | resize.py:195-240 | 800x600 and 1000x500 photos with a non-JPEG between them, at width 400, give 400x300 and 400x200 in order |

## Left out

- Decoding, RGB conversion, LANCZOS resampling and JPEG encoding at quality 95 belong to the image library; each is a `Codec` field whose only modelled effect is success or failure.
- The size `img.thumbnail` leaves is the library's; it is an uninterpreted `Codec` field, so the fit-within-bounds guarantees (never larger than the bounds, aspect ratio kept) are not stated.
- A resize to a zero or negative size is whatever the library's `resample` field says; the model does not decide that it fails.
- The process pool, `cpu_count` and the `--workers` option are concurrency; `pool.map` is modelled as an order-preserving map.
- Argument parsing, `os.path.exists`, `os.makedirs`, `os.listdir` and all printing are I/O; existence and the listing are parameters, and the report carries the values that would be printed. A listing error (an input path that is a file) is not modelled.
- The text of the status lines and of the caught exceptions (`str(e)`) is not modelled; `Outcome` carries the name, sizes, mode and failure kind.
- Floating point: percent is an exact `real` and the aspect ratios are exact quotients, so results that IEEE-754 rounding puts one below an integer boundary are not reproduced; a NaN or infinite `--percent` (NaN passes the `<= 0` check, and `int()` of either raises) is not modelled.
- `PyRuntime.Suffix` follows the `rfind` rule of `pathlib` up to Python 3.12; later versions treat some names with leading dots (such as `..jpg`) differently.
- `PyRuntime.Join` and `PyRuntime.Basename` follow POSIX paths only.
- `Batch.WidthScenario` keeps the file names abstract (any two image names and one non-image name) rather than the literal `a.jpg`, `b.jpg`.
- `Resize.Execute`: PIL decodes pixel data lazily, so in the program a file whose header reads but whose body is corrupt fails inside `img.resize` or `img.thumbnail`; the model counts every decode failure as an `open` failure (`CannotOpen`), and `resample` and `thumbnail` see only the sizes, so two files with the same size and target both succeed or both fail there. The user sees the same `Error with <name>` line either way; only the failure kind differs.
- `Validation.ErrorDetail`: no lemma restates the six fixed error texts; they are the function's definition, and only the missing-folder line's quoting of the folder is proved (`Validation.MissingFolderNamed`).
