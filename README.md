# instantiate, modelled in Dafny

`instantiate` creates a new project directory from a template directory. It
checks that the template exists and, when numbering is requested, infers
the next project number from the working directory's numbered
subdirectories (`02-homework`, `03-homework`, …). It then copies the
template to `<number>-<name>` (or `<name>`) and renders every file of the
copy in place. Rendering is a breadth-first walk that skips every entry
whose base name matches one of the `no_replace` glob patterns. A skipped
directory is never entered.

The model has five modules:

- `Results` (`results.dfy`): `Option` and `Result`.
- `Numbering` (`numbering.dfy`): `_starts_with_k_digits` and `infer_next_project_number`.
  - The working directory is a sequence of `DirEntry(name, isDir)`.
  - Digits are ASCII `'0'..'9'`.
  - `format(n, "0k")` is zero padding to at least `k` characters.
  - `k = 0` makes `int('')` raise as soon as any directory exists. The model returns `Failure(EmptyPrefix(..))` for this case instead of excluding it.
- `Glob` (`glob.dfy`):
  - A `fnmatch` matcher for literals, `?` and `*`.
  - `_should_be_skipped` as the closure `replace` builds over `no_replace`.
- `Walk` (`walk.dfy`): `replace`.
  - The directory is a tree of `File`, `Dir` and `Special` entries. `Special` is neither a regular file nor a directory (a socket, a FIFO, a dangling link): the walk passes over it, and `copytree` cannot copy it.
  - The render callback is a parameter `render(path, variables)` that answers `false` when rendering raises.
  - `VisitChildren` is the `for` loop over one directory.
  - `Replace` is the `while` loop over the work queue, with its invariants.
  - The loop is specified by `Targets`: the files whose path, from the root down, has no skipped component.
- `Project` (`project.dfy`): `make_project`.
  - The order of its checks, the destination name, and the variable map.
  - How numbering interacts with the directory each run creates.

Points where the code's behaviour is easy to misread:

- The caller's context is nested under the key `"context"` (instantiate.py:171-174). It is not merged flatly with `"project"`. So no context can shadow the project record (`ContextCannotShadowProject`).
- An existing destination is reported by `shutil.copytree` raising `FileExistsError`. There is no dedicated check, so the model reports it as soon as any entry of the working directory has the destination's name, file or directory. It also reports it when the name is `""`, `.` or `..`: pathlib then makes the destination the working directory itself or its parent, which already exist.
- After a render failure the copied destination stays in place (instantiate.py:168-175). Only the command-line wrapper cleans up, and that is outside the model.
- A template holding a socket, a FIFO or a dangling link cannot be copied. `copytree` copies everything else, then raises `shutil.Error`, so the destination exists but nothing is rendered (`CopyFailed`).

## Model

| member | source | states |
|---|---|---|
| Numbering.IsDigit | instantiate.py:21 | `str.isdigit` on ASCII: no contract of its own; `DigitChar` is proved to map each value `0..9` to a character of this class that `DigitValue` reads back |
| Numbering.StartsWithKDigits | instantiate.py:17-21 | true iff `s` has at least `k` characters and each of the first `k` is a digit; false whenever `len(s) < k`, vacuously true for `k = 0` |
| Numbering.ParseInt | instantiate.py:49 | `int` on a digit string fails exactly on the empty string; otherwise its value is below 10^len |
| Numbering.Format | instantiate.py:56 | `format(n, "0k")` is all digits, `max(k, digits of n)` long, and reads back as `n` |
| Numbering.Qualifies | instantiate.py:47-48 | a directory whose name starts with `k` digits: no contract of its own; `PrefixNumbers` and `FilesIgnored` state what the filter lets through |
| Numbering.PrefixValue | instantiate.py:49 | `int(d.name[:k])` for a qualifying directory, used to state the numbering lemmas: a value below 10^k |
| Numbering.Directories | instantiate.py:47 | the `is_dir()` filter, used to state `FilesIgnored`: an entry is kept iff it is in the listing and is a directory |
| Numbering.PrefixNumbers | instantiate.py:47-49 | fails iff `k = 0` and some directory exists; otherwise a value is in the list iff it is the `k`-digit prefix of some qualifying directory |
| Numbering.SeqMax | instantiate.py:54 | `max(numbers)` on a non-empty list: a member of the list that no member exceeds |
| Numbering.NextNumber | instantiate.py:51-54 | greater than every number; `1` for none, otherwise one more than a member of the list, i.e. max + 1 |
| Numbering.InferNextProjectNumber | instantiate.py:24-56 | `None` when `k` is `None`; on success with a width, an all-digit string at least `k` long |
| Numbering.DisabledIgnoresListing | instantiate.py:43-44 | with `k = None` the result is `None` for any two listings: the directory is not consulted |
| Numbering.ZeroWidthFails | instantiate.py:49 | with `k = 0` the inference fails iff the listing holds a directory |
| Numbering.FilesIgnored | instantiate.py:47-48 | the result on a listing equals the result on its directories alone: files never matter |
| Numbering.NextIsMaxPlusOne | instantiate.py:49-54 | for `k >= 1` it succeeds; the number exceeds every qualifying prefix, equals some qualifying prefix + 1 when any qualifies, and is `0…01` (width `k`) when none does |
| Numbering.NextAtMostPow10 | instantiate.py:49-54 | the next number never exceeds 10^k |
| Numbering.Width | instantiate.py:56 | the string is at least `k` wide, and wider only when the number is 10^k, then exactly `k + 1` |
| Numbering.FirstNumberExample | test/test_instantiate.py:62-67 | an empty directory gives `"001"` for `k = 3`, and so does one holding only a file and an unnumbered directory |
| Glob.Match | instantiate.py:92 | `fnmatch.fnmatch` for literals, `?` and `*`: no contract of its own; its meaning is stated by `LiteralMatchesItself`, `QuestionMatchesOne`, `StarMatchesAll` and `StarSuffix` |
| Glob.LiteralMatchesItself | instantiate.py:92 | a pattern without wildcards matches exactly the name it spells |
| Glob.QuestionMatchesOne | instantiate.py:92 | `?` followed by a literal matches exactly the names one character longer that end in that literal |
| Glob.StarMatchesAll | instantiate.py:92 | `*` matches every name |
| Glob.StarSuffix | instantiate.py:92 | `*` + literal suffix matches exactly the names ending with that suffix |
| Glob.ShouldBeSkipped | instantiate.py:91-92 | skipped iff the base name matches at least one pattern |
| Glob.NothingSkippedWithoutPatterns | instantiate.py:88-92 | with `no_replace` absent or empty nothing is skipped |
| Glob.PdfExample | instantiate.py:91-92 | under `*.pdf`, `a.pdf` is skipped and `c.tex` is not |
| Walk.FilesBelow | instantiate.py:100-106 | every file path below a directory extends its path by the name of one of its children |
| Walk.UncopyableBelow | instantiate.py:168 | every entry `copytree` fails on lies below the copied directory, under the name of one of its children |
| Walk.UncopyableAreNotFiles | instantiate.py:168 | with distinct sibling names, none of the entries `copytree` fails on is a regular file of the template |
| Walk.TargetsAreUnskippedFiles | instantiate.py:100-106 | a file is rendered iff it is a file of the tree and no component of its path (file or ancestor directory) is skipped |
| Walk.NothingSkippedRendersEverything | instantiate.py:88-106 | when nothing is skipped every file of the tree is rendered |
| Walk.TargetsOnce | instantiate.py:94-106 | in a tree whose siblings have distinct names, each file is a target at most once |
| Walk.ScanCovers | instantiate.py:100-106 | one pass over a directory renders its unskipped files and queues its unskipped subdirectories, which together cover all its targets; the queued subtrees are smaller than the directory |
| Walk.ScanPrefix | instantiate.py:100-104 | a pass over the first children renders a prefix of what the full pass renders |
| Walk.ScanPrefixBounded | instantiate.py:100-104 | what a pass renders before stopping early is made of targets |
| Walk.VisitChildren | instantiate.py:100-106 | the `for` loop: without failure it renders exactly the unskipped files in order and queues exactly the unskipped directories, all calls succeeding; on failure it stopped at the first failing call, a prefix of the full pass |
| Walk.RoundCovers | instantiate.py:97-106 | one round of the `while` loop keeps rendered + pending = all targets, and strictly shrinks the queue (termination) |
| Walk.FailedRoundBounded | instantiate.py:104 | a round that raised rendered only targets, the failing file included |
| Walk.FailedRound | instantiate.py:104 | after a raising round, the last call made is the failing one and all earlier calls succeeded |
| Walk.EveryTargetSucceeded | instantiate.py:97-106 | once the queue is empty every target was rendered successfully |
| Walk.Replace | instantiate.py:71-106 | renders exactly the multiset of targets when no render raises; otherwise stops at the first raising call, having rendered only targets; it fails iff some target fails to render; no file is rendered twice when sibling names are distinct |
| Project.DestinationName | instantiate.py:162-166 | the bare name when unnumbered; otherwise the number, a `-`, then the name |
| Project.ProjectRecord | instantiate.py:173 | exactly the keys `number` and `name`; `number` is `None` when unnumbered |
| Project.ProjectVariables | instantiate.py:171-174 | exactly the keys `context` and `project`; context defaults to an empty dict |
| Project.ContextCannotShadowProject | instantiate.py:171-174 | the project record and the key set do not depend on the context |
| Project.UnnumberedProject | instantiate.py:160-166 | without numbering the number is `None`, the destination is the bare name, and templates see `project.number` as `None` |
| Project.DestinationQualifies | instantiate.py:164 | a numbered destination starts with its number, so a later run with at most as many digits counts it |
| Project.PrefixNumbersGrow | instantiate.py:47-49 | adding a qualifying directory adds exactly its prefix to the numbers read |
| Project.NextAfterAdding | instantiate.py:49-54 | after adding a qualifying directory, the next number is the larger of the old next number and its prefix + 1 |
| Project.NumberingAdvances | instantiate.py:160-164 | after creating a project numbered with `k` digits, the next run infers that number + 1 |
| Project.NumberingStallsAfterOverflow | instantiate.py:160-164 | once the number has grown to 10^k (`k + 1` digits), the next run infers the same number again |
| Project.FirstProjectExample | test/test_instantiate.py:62-67 | in an empty directory, `foo` with three digits goes to `001-foo` |
| Project.NameTaken | instantiate.py:166-168 | `cwd / name` already exists, so `copytree` raises `FileExistsError`: no contract of its own; see `SelfOrParentCollides` |
| Project.SelfOrParentCollides | instantiate.py:162-168 | an unnumbered name `""`, `.` or `..` makes `cwd / name` the directory itself or its parent, so it always collides; a numbered destination collides only with an entry of the same name |
| Project.CopyAndRender | instantiate.py:168-175 | `copytree` then `replace`: if any entry is a socket, FIFO or dangling link the copy fails listing exactly those entries and nothing is rendered; otherwise the copy is rendered as `Replace` states (every target, or up to the first raising one, never one twice under distinct names) |
| Project.MakeProject | instantiate.py:109-175 | template check first, then numbering, then the existence of the destination; these failures create and render nothing; otherwise the destination is created, and copied and rendered as `CopyAndRender` states, with the project's variables |

## Left out

- The command-line wrapper `cli`: argument parsing, YAML loading, `os.chdir`, printing, and removal of the destination after a failure. That removal targets `cwd/project_name`, not a numbered destination.
- The `render` function and Jinja2: reading and writing files, and template contents. The model keeps only whether a call raises, as the `render` parameter.
- `shutil.copytree`: a template without sockets, FIFOs or dangling links is copied exactly. Otherwise the copy fails with `CopyFailed`, listing those entries as a multiset; the order of `shutil.Error`'s list and the contents of the partial copy are not modelled. Permissions and timestamps are not modelled.
- `Glob.Match`: bracket classes (`[...]`) are not modelled: `[` and `]` match themselves, and a `?` or `*` between them remains a wildcard, where `fnmatch` would read it as a class member. `os.path.normcase` is not applied, so matching is case-sensitive as on POSIX.
- `Numbering.IsDigit`: Python's `str.isdigit` also accepts non-ASCII digits, which `int` may then reject. The model accepts only ASCII digits.
- `Numbering.InferNextProjectNumber`: a negative width is not modelled (the width is a `nat`).
- `Numbering.InferNextProjectNumber`: the default width `k=2` is not modelled; the width is always passed, as `make_project` always passes `numbering`.
- `Walk.Replace`: `iterdir` order is taken as the order of the children in the tree; Python leaves it unspecified. The order-free statements are the multiset ones.
- `Walk.Replace`: symbolic links are not distinguished. An entry is a file, a directory, or neither.
- `Walk.Replace`: the tree is fixed during the walk, even though rendering writes the files it reads.
- `Project.MakeProject`: `template_dir` existing as a regular file rather than a directory is not modelled.
- `Project.MakeProject`: a project name containing path separators, which would create or address a nested path, is not modelled. The names `""`, `.` and `..` are modelled as colliding with the working directory or its parent.
- `setup.py` is packaging metadata and is not part of this model.
