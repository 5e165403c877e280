# DevAutomator core, modelled in Dafny

DevAutomator is a `click` command-line tool for developers. Most of it is plumbing: it prompts, echoes, runs processes and writes files. Inside `devautomator/__init__.py` a few decision rules can be lifted out as pure functions. This project models those rules and proves what they do.

- **TestMetrics**: the test-count scraper of `get_test_metrics`. It reads the captured output of `pytest --collect-only` and returns an integer or "Unknown". `ParseCollected` is the functional form. `CountCollected` is the nested loop with `break` and `continue`, proved equal to it.
- **GitMetrics**: the change count and the absent-repository case of `get_git_metrics`.
- **DocStatus**: the three-way documentation status of `get_doc_status`.
- **Cleanup**: `cleanup_project` as a top-down walk of an immutable `Tree`. Cache directories are removed whole and never entered. Compiled files are removed. The function returns the tree afterwards and the two reports.
- **MkDoc**: the `mkdoc` report builder over the steps of a walk from ".".
  - `MkDocAsWritten` follows the code.
  - `MkDoc` is the corrected command (see Findings). It skips hidden directories below ".", and it leaves hidden subdirectories and files out of every section.
- **Templates**: the `tf` and `scaffold` generators as an `Effect`. An effect lists the directories ensured, the files written (each from a named `Template`) and the processes run. The effect is applied to an abstract file system map.
- **Text** and **Files**: shared helpers.
  - Text gives the meaning of the Python string operations the code uses: `strip`, `split`, `split(sep)`, `splitlines`, `join`, `int`, `sorted`.
  - Files gives POSIX `os.path.join`, writes, effects and the file system.

Processes are outside the model. Their captured standard output is an input string (`get_test_metrics`, `get_git_metrics`), or they are recorded as a `Command` in an effect (`tf`). The existence checks of `get_doc_status` and `get_git_metrics` are given as a predicate or a boolean.

## Model

| member | source | states |
|---|---|---|
| TestMetrics.ScanTokens | devautomator/__init__.py:37-44 | The scan of one line's tokens has no value exactly when no position from `i` on is the exact token `collected` followed by a token that parses as an integer. Otherwise it yields the value at the first such position: `break` stops at a match, `continue` passes a non-integer successor, and a trailing `collected` has no successor. |
| TestMetrics.LineValueSpec | devautomator/__init__.py:36-44 | The substring pre-filter `"collected" in line` never hides a match. A line contributes a value exactly when it has a matching token, and that value is the one at its first matching token. |
| TestMetrics.ScanLinesNone | devautomator/__init__.py:35-45 | With no matching line, the outer loop leaves `collected` as it was. Starting from None, the result is None exactly when no line matches. |
| TestMetrics.ScanLinesSome | devautomator/__init__.py:35-42 | Once a value is held, the loop never goes back to "no value". |
| TestMetrics.ScanLinesLast | devautomator/__init__.py:35-42 | Last line wins: the outer loop never breaks, so the result is the value of the first match in the last matching line. |
| TestMetrics.ParseCollected | devautomator/__init__.py:33-45 | The result of `get_test_metrics` is "Unknown" exactly when no line of the stripped output has `collected` followed by an integer token. Otherwise it is the value of the first such token in the last such line. |
| TestMetrics.CountCollected | devautomator/__init__.py:33-45 | The outer loop over the lines, with the substring filter, computes the same result as the functional scraper on every output. |
| TestMetrics.FirstCollected | devautomator/__init__.py:37-44 | The token loop, with its `break` and `continue`, returns the value of the first `collected` followed by an integer token, or nothing when there is none. |
| TestMetrics.RenderScan | devautomator/__init__.py:33-37 | On output made of non-empty lines of whitespace-free tokens, `strip`, `splitlines` and `split` recover exactly those tokens. The scraper's result is then that of the scan over the token rows. |
| TestMetrics.RenderRowsFacts | devautomator/__init__.py:33-37 | Each rendered line is its tokens joined by spaces. It is non-empty, has no whitespace at either end and holds no line break. |
| TestMetrics.ScanRowsLines | devautomator/__init__.py:35-44 | Scanning the rendered lines is the same as scanning the token rows directly. |
| TestMetrics.PytestSummary | devautomator/__init__.py:35-45 | On pytest's usual two-line output ("collected N items" and a summary line where `collected` is followed by `in`), the result is N. |
| TestMetrics.LastLineWins | devautomator/__init__.py:35-42 | If two lines both match, the second line's value is reported. |
| TestMetrics.SkipsNonInteger | devautomator/__init__.py:38-44 | In the tokens `collected x collected a collected b`, the non-integer `x` is passed over and `a` is the line's value. |
| TestMetrics.FirstTokenWins | devautomator/__init__.py:38-44 | Within one line, a `collected` followed by a non-integer is skipped, and the first integer match wins over a later one. |
| TestMetrics.NearMissesAreUnknown | devautomator/__init__.py:36-45 | `collected:`, `uncollected` and a trailing `collected` pass the substring test but never match, so the result is "Unknown". |
| GitMetrics.ChangeCount | devautomator/__init__.py:58-60 | The change count is 0 exactly when the porcelain output is whitespace only. Otherwise it is the number of '\n' left after stripping, plus one. |
| GitMetrics.GetGitMetrics | devautomator/__init__.py:51-61 | Without `.git` both values are absent and no query runs. With it, the branch query runs and then the status query. The branch is the stripped output. The count is the line count of the stripped status output, which is 0 exactly for whitespace-only output. |
| GitMetrics.CountsStatusLines | devautomator/__init__.py:58-60 | Porcelain output of n entry lines, each ending in '\n', counts n changes. An entry may begin with a space, as ` M path` does; it only has to hold something other than whitespace. |
| DocStatus.GetDocStatus | devautomator/__init__.py:65-75 | The status is "set up" exactly when `docs` and `docs/conf.py` both exist. It is "conf.py is missing" exactly when only `docs` exists, and "not set up" exactly when `docs` does not exist. |
| DocStatus.MessagesDistinct | devautomator/__init__.py:70-75 | The three statuses print three different strings. |
| DocStatus.ConfConsultedOnlyWithDocs | devautomator/__init__.py:67-75 | `conf.py` is consulted only when `docs` exists. Two file systems that agree on `docs`, and on `docs/conf.py` when `docs` exists, get the same status. |
| Cleanup.CleanupProject | devautomator/__init__.py:77-106 | The root keeps its name and kind and is never removed. Afterwards the tree lists exactly the entries the walk reaches and keeps, in their order. Each report lists, each once, the path of every entry the walk reaches and removes as that kind. A file at the top is left alone. |
| Cleanup.ListingPrune | devautomator/__init__.py:86-94 | The tree after the walk lists exactly the surviving entries of the original. An entry survives when it is not itself targeted and has no cache directory above it. |
| Cleanup.RemovedSpec | devautomator/__init__.py:86-106 | The report built during the walk is a permutation of the `root/name` paths of the targeted entries that have no cache directory above them. Entries inside a removed directory are not reported. |
| Cleanup.SubtreeSpec | devautomator/__init__.py:86-94 | The part of the report that comes from inside one child directory is the set of reachable targeted entries inside it. There is none inside a removed cache directory. |
| Cleanup.PathsOfUnder | devautomator/__init__.py:86-100 | The reported path of an entry inside directory `n` is built by joining from `os.path.join(root, n)`. |
| Cleanup.FilterUnderHits | devautomator/__init__.py:88-94 | Nothing below a cache directory is reached. Below any other directory, the reached targets are that directory's own. |
| Cleanup.PruneIsClean | devautomator/__init__.py:86-105 | After the walk, no cache directory and no compiled file is left anywhere in the tree. |
| Cleanup.CleanIsFixed | devautomator/__init__.py:86-106 | On a tree with nothing to remove, the walk changes nothing and reports nothing. |
| Cleanup.CleanupIdempotent | devautomator/__init__.py:77-106 | Running cleanup again on its own result returns the same tree and two empty lists. |
| Cleanup.NothingLeft | devautomator/__init__.py:86-105 | Every entry left below the root is neither a cache directory nor a compiled file. |
| MkDoc.DirNames | devautomator/__init__.py:521 | The `dirs` of a walk step are exactly the names of the directory's subdirectories. |
| MkDoc.FileNames | devautomator/__init__.py:521 | The `files` of a walk step are exactly the names of the directory's files. |
| MkDoc.RootString | devautomator/__init__.py:521-525 | A walk root is "." or "./" followed by its names joined with '/'. So `os.path.relpath(root, ".")` is "." or those names, and a root never ends in '/'. |
| MkDoc.RootParts | devautomator/__init__.py:523 | Splitting a walk root on '/' gives "." followed by the names on its path. |
| MkDoc.SkippedAsWrittenAlways | devautomator/__init__.py:523-524 | As written, every step of a walk from "." is skipped, because its first part "." starts with '.'. |
| MkDoc.KeptAsWrittenWalk | devautomator/__init__.py:521-524 | As written, no step the walk yields is kept. |
| MkDoc.MkDocAsWritten | devautomator/__init__.py:519-536 | As written, the command writes README_generated.md holding only the four header lines joined by '\n'. |
| MkDoc.SkippedIff | devautomator/__init__.py:523 | As corrected, a step is skipped exactly when some name on its path is hidden. |
| MkDoc.KeptWalk | devautomator/__init__.py:521-524 | As corrected, the kept steps are exactly those of a walk that never enters a hidden directory, in walk order. There are none when the starting path is hidden. |
| MkDoc.SectionContents | devautomator/__init__.py:525-533 | A section opens with "### " and the relative path. It then lists every subdirectory and then every file, each as often as listed and in sorted order, and ends with an empty line. |
| MkDoc.MkDoc | devautomator/__init__.py:519-536 | As corrected, the command writes README_generated.md holding the header followed by the section of every directory with no hidden name on its path, in walk order, joined by '\n'. Each section lists only the directory's non-hidden subdirectories and files. |
| MkDoc.Shown | devautomator/__init__.py:522 | The names kept for a section are exactly the non-hidden ones, each as often as the directory lists it. |
| MkDoc.ReportHidesNothing | devautomator/__init__.py:521-533 | No line of the corrected report names a hidden entry: no heading has a hidden part in its relative path, and no `- **Directory:** ` or `- File: ` line names a hidden subdirectory or file. |
| MkDoc.RelParts | devautomator/__init__.py:525-526 | Splitting a heading's relative path on '/' gives "." for the starting directory and otherwise the names on its path. |
| MkDoc.HiddenEntriesLeftOut | devautomator/__init__.py:519-536 | For a project holding `.git/HEAD`, `.gitignore` and `main.py`, the corrected report has one section, "### .", which lists `main.py` alone. |
| MkDoc.SingleFileProject | devautomator/__init__.py:519-536 | For a project holding only `main.py`, the command as written writes the header alone. The corrected one adds the section "### ." listing the file, so the two differ. |
| Templates.Tf | devautomator/__init__.py:157-202 | `tf` writes `main.tf`, `variables.tf`, `outputs.tf` and `locals.tf` in the project directory, in that order and each once. It ensures the project directory and then runs `terraform init` inside it. |
| Templates.TfEffect | devautomator/__init__.py:157-201 | On any file system, after `tf` the four Terraform files hold their templates and every other file is unchanged. The only directories added are the project directory and its parents. |
| Templates.TfDirs | devautomator/__init__.py:157-158 | The directories after `tf` are those before, plus the project directory and every leading part of its name that ends before a '/'. |
| Templates.Scaffold | devautomator/__init__.py:304-508 | Every answer to the prompts leads to exactly one branch. No branch runs a process, and each ensures the project directory first. |
| Templates.ScaffoldLayout | devautomator/__init__.py:308-507 | `scaffold` writes exactly the layout of its answer, in order, under the project directory, and no path twice. |
| Templates.CliLayout | devautomator/__init__.py:308-346 | The `cli` branch writes `main.py`, `tests/test_main.py`, `README.md`, `requirements.txt` and `setup.py` under the project directory, and nothing else. |
| Templates.ReactLayout | devautomator/__init__.py:354-393 | The React branch writes `public/index.html`, `src/index.js` and `package.json`. |
| Templates.AngularLayout | devautomator/__init__.py:394-418 | The Angular branch writes `src/app.component.ts` and `package.json`. |
| Templates.BackendLayout | devautomator/__init__.py:419-500 | Each backend branch writes its framework's files directly in the project directory. |
| Templates.LayoutDistinct | devautomator/__init__.py:308-507 | No branch writes the same relative path twice. |
| Templates.ScaffoldDirs | devautomator/__init__.py:304-395 | `scaffold` ensures the project directory, then the subdirectories of its answer: `tests` for `cli`, `public` and `src` for React, `src` for Angular, none otherwise. |
| Templates.ScaffoldEffect | devautomator/__init__.py:304-507 | On any file system, after `scaffold` every file of the layout holds its template and every other file is unchanged. The directories added are exactly the ensured directories and their parents. |
| Templates.CliGreets | devautomator/__init__.py:308-317 | The generated `main.py` echoes the greeting "Hello from your CLI tool!". |
| Templates.CliTestLooksForGreeting | devautomator/__init__.py:318-328 | The generated test asserts that the same greeting is in what `main` printed. |
| Templates.ReadmeNames | devautomator/__init__.py:330-331 | A generated README holds the project name, as its title. |
| Templates.PackageJsonNames | devautomator/__init__.py:379-383 | A generated `package.json` (React here, Angular and Express alike) holds the project name, as the package name. |
| Templates.SetupNames | devautomator/__init__.py:334-338 | The generated `setup.py` holds the project name, as the package name. |
| Templates.SetupEntryPoint | devautomator/__init__.py:334-346 | The generated `setup.py` declares the console script `<name>=main:main`. |
| Templates.ReadmeOnly | devautomator/__init__.py:493-500 | The `spring` and `tote` branches write `README.md` and nothing else. |
| Files.MakedirsSpec | devautomator/__init__.py:9-10 | `os.makedirs(d)` leaves `d` existing together with every parent of `d`, and nothing else. |
| Files.MakedirsNested | devautomator/__init__.py:9-10 | `os.makedirs("infra/prod")` leaves exactly `infra` and `infra/prod` existing. |
| Files.EnsuredSpec | devautomator/__init__.py:7-13 | After a list of `ensure_directory` calls, a directory exists by their doing exactly when it is one of the names or a parent of one. |
| Files.ApplySpec | devautomator/__init__.py:7-13 | After a handler's effect, the ensured directories and their parents exist whether or not they existed before, and no other directory is added. Each written file holds what was written, and every other file is unchanged. |
| Files.ApplyWritten | devautomator/__init__.py:7-13 | Applying an effect whose paths are distinct adds exactly its files, its directories and their parents. Each written file holds what was written, every other file is as before, and no other file or directory appears. |
| Files.ApplyWritesSpec | devautomator/__init__.py:310-333 | Writes to distinct paths leave each written path holding its content and every other file as it was. |
| Files.JoinJoin | devautomator/__init__.py:320-321 | Joining a name and then a file name onto a directory is the directory prefix followed by the two names separated by '/'. |
| Text.Strip | devautomator/__init__.py:33 | `strip()` leaves a slice of the input with only whitespace outside it. The slice neither starts nor ends with whitespace, and it is empty exactly when the input is all whitespace. |
| Text.StripPadded | devautomator/__init__.py:56-59 | `strip()` removes trailing whitespace, such as the final '\n' of a process's output, and nothing else from a string with non-space ends. |
| Text.Words | devautomator/__init__.py:37 | `split()` returns non-empty tokens without whitespace. Which tokens, and in what order, is stated by Text.WordsSpec. |
| Text.WordsSpec | devautomator/__init__.py:37 | `split()` returns the tokens `ws` exactly when the line is `ws` laid out between whitespace gaps. The gaps before the first and after the last token may be empty; those between two tokens may not. |
| Text.WordsOfSpread | devautomator/__init__.py:37 | Tokens laid out between whitespace gaps, with any runs of spaces, tabs or other blanks, come back from `split()` in order. |
| Text.SpreadOfWords | devautomator/__init__.py:37 | Every line is the tokens `split()` returns, laid out between whitespace gaps. |
| Text.WordsOfJoin | devautomator/__init__.py:37 | `split()` undoes `" ".join()` on non-empty tokens without whitespace. |
| Text.WordsOccur | devautomator/__init__.py:36-37 | Every token `split()` returns occurs in its line, so the substring filter keeps every line with a `collected` token. |
| Text.Lines | devautomator/__init__.py:35 | `splitlines()` returns lines without '\n'. |
| Text.LinesCount | devautomator/__init__.py:59-60 | The number of lines is the number of '\n', plus one for an unterminated last line. |
| Text.LinesOfJoin | devautomator/__init__.py:35 | `splitlines()` undoes `"\n".join()` when no line holds '\n' and the last line is not empty. |
| Text.ParseInt | devautomator/__init__.py:41-44 | `int()` succeeds exactly on ASCII digits with an optional sign, of any length. Otherwise the ValueError path is taken. |
| Text.ParseShowInt | devautomator/__init__.py:41 | `int(str(n)) == n` for every integer. |
| Text.SplitOn | devautomator/__init__.py:523 | `split(sep)` never returns an empty list, and no part holds the separator. |
| Text.JoinSplitOn | devautomator/__init__.py:523 | Joining the parts of `split(sep)` with the separator gives the string back. |
| Text.Sort | devautomator/__init__.py:528-532 | `sorted()` returns a permutation of its input in lexicographic order. |
| Text.SortedUnique | devautomator/__init__.py:528-532 | Two sorted arrangements of the same strings are equal, so the order of a section's lines is fixed by its names alone. |
| Text.SortUnique | devautomator/__init__.py:528-532 | Any sorted permutation of a list is `sorted()` of that list. |

## Left out

- `run_command`, and every process the handlers start (terraform, pytest, pip, git, venv), are not modelled. A captured standard output is an input string. `tf`'s `terraform init` is only recorded as a `Command`.
- The exception fallbacks of `get_test_metrics` and `get_git_metrics` are not modelled. They depend on the process failing to start.
- The per-entry removal errors of `cleanup_project` are not modelled: every removal is assumed to succeed. The error echo lines go with them.
- click prompts, echo output and help text are not modelled, nor the case-insensitive choice handling. The answers are the `ProjectKind` enumeration.
- The `cleanup` command's printing of the two reports is not modelled, nor the `dashboard` command's printing. The command bodies are I/O around modelled functions.
- The `docker`, `env`, `test`, `doc`, `dep` and `helpinfo` commands are not modelled. They are plumbing outside the modelled core.
- Text.ParseInt: Python's `int()` also accepts underscores, non-ASCII digits and surrounding whitespace. The model accepts an optional sign and ASCII digits only, because the tokens it is applied to carry no whitespace.
- Text.ParseInt: the integer string conversion length limit is not modelled. On CPython 3.9.14+, 3.10.7+ and 3.11+, `int()` raises ValueError on more than 4300 decimal digits (`sys.int_info.default_max_str_digits`). `get_test_metrics` would then skip that token, where the model reads its value.
- Text.ParseShowInt: the same limit is not modelled. On those versions `str(n)` already raises ValueError for an integer of more than 4300 digits.
- Text.Strip: non-ASCII whitespace is not modelled. Whitespace is the ASCII subset of `str.isspace()`.
- Text.Lines: `splitlines()` also breaks at '\r', '\v', '\f' and the other Unicode line boundaries. The model breaks at '\n' only.
- Cleanup.CleanupProject: the model walks an immutable tree, with children in the order the tree lists them. Symbolic links are not modelled. The order in which the two reports list paths is stated only up to permutation.
- MkDoc.MkDoc: walk steps and `os.path.relpath` are modelled for directory names that are non-empty, hold no '/' and are not ".". Outside those names only the output file name is stated.
- MkDoc.MkDocAsWritten: the header-only content is stated for the same valid names. For other names only the output file name is stated.
- `ensure_directory` is modelled only by its effect: the directory and its parents exist afterwards. The failure of `os.makedirs` on an empty name is not modelled. Neither is the case of a name that already exists as a file, which the source leaves alone.
- Paths are plain strings and are not normalised: `a/`, `a//b` and `./a` are not identified with `a`, `a/b` and `a`. A parent is every leading part of a name that ends just before a '/'.
- Templates.Scaffold: an effect lists its directories before its writes. The `cli` branch creates `tests` after writing `main.py`, which makes no difference to the final file system.
- Templates.Render gives every template's exact text and is documentation only: no lemma unfolds it, because its literal texts alone cost most of the verifier's resource limit. The name and greeting interpolations are proved about the builders it calls (`Readme`, `PackageJson`, `SetupText`, `CliMainText`, `CliTestText`).
- Templates.Layout: the generic README names the project type as the prompt returns it. click returns the canonical choice, so the text reads "generic".
- Several branches write the same relative path, for example `README.md`, `requirements.txt` and `package.json`. Each run takes exactly one branch, so no path is written twice within a run. The model states distinctness per branch, not across branches.

## Findings

| source | as written | input that shows it | evidently intended | confidence | as-written member | corrected member |
|---|---|---|---|---|---|---|
| devautomator/__init__.py:521-524 | The hidden-directory test splits each walk root on `os.sep` and skips the root if any part starts with '.'. Every root of `os.walk(".")` starts with the part ".", so every directory is skipped and README_generated.md holds only the header. | A project holding only `main.py`: the output is the header alone, with no `### .` section. | Skip a directory only when a name below the starting "." is hidden. Document every other directory in walk order, with its sorted subdirectories and files, and list no hidden subdirectory or file (such as `.git` or `.gitignore`) in any section. | not executed | MkDoc.MkDocAsWritten | MkDoc.MkDoc |
