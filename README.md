# zoomaker, modelled in Dafny

zoomaker installs the resources a `zoo.yaml` manifest lists into directories. There are three kinds of resource:

- Hugging Face hub files;
- git repositories;
- plain HTTP downloads.

This project models the core of `Zoomaker` and proves properties of that model:

- the fail-fast manifest check `_check_yaml`;
- the name helpers: `_slugify`, `_get_repo_name`, the Hugging Face `src` split and the `Content-Disposition` file name;
- the way `_download_file` classifies a response;
- the resource loop of `install`.

The modules follow the program:

| module | file | models |
|---|---|---|
| `Manifest` | `manifest.dfy` | the parsed document and `_check_yaml` |
| `Text` | `text.dfy` | `split`, `join`, `basename` and `replace` |
| `Paths` | `paths.dfy` | POSIX `os.path.join`, `normpath` and `abspath` |
| `Slug` | `slug.dfy` | `_slugify` |
| `Naming` | `naming.dfy` | the hub split and `_get_repo_name` |
| `Http` | `http.dfy` | request headers and response checks of `_download_file` |
| `Orchestrator` | `orchestrator.dfy` | one iteration of the resource loop, as pure functions |
| `Install` | `install.dfy` | the whole loop: order, counter, stop and summary |
| `Zoo` | `zoo.dfy` | the `Zoomaker` class |

The outside world is a `World` value of total functions, fixed for the whole run:

- the reply to each GET;
- whether each `hf_hub_download` succeeds;
- whether each git operation succeeds;
- whether a file can be opened. A path that ends in `/` never opens, as `open(path, 'wb')` refuses it.

The filesystem is a set of normalised paths plus the subset that are directories. The log is a sequence of `Event`s, one for each call made and each message that matters. `Zoomaker` is a class:

- its fields `paths`, `dirs` and `events` are updated in place;
- the resource loop of `install` is two nested `while` loops with invariants;
- the counter is incremented before it is used;
- a failed download makes the method return early.

Each method is proved to leave exactly the state that the corresponding `Orchestrator` or `Install` function describes. The properties are proved about those functions.

## Where the model follows the code rather than the prose description

- `_slugify` strips `-` and `_` only at the two ends. Underscores inside the name stay, because `\w` keeps them.
- `_get_repo_name` removes every `.git` in the basename, not only the suffix, because `replace` replaces all occurrences. `RepoNameSpec` states both the general case and the common one.
- For an existing repository with a revision, the calls are fetch, then checkout, with no submodule update. Every other case ends with a submodule update (`GitPlanTable`).
- The Hugging Face branch skips only when `rename_to` is given and its target exists. The plain destination is never looked at (`HubSkipRule`).
- The revision warning of the download branch comes only after a download that was not skipped and succeeded (`DownloadRevisionWarning`).
- `raise_for_status` fails only for status 400 to 599 (`RaisesForStatus`), not for every status outside 2xx.
- An `int()` of a malformed `content-length` raises inside the `try`, so it makes the download fail (`BadLength`).
- The saved path is `os.path.join(install_to, name)`, with `name` taken from the reply. An absolute name therefore replaces `install_to` (`FetchFileServerPath`), and a name containing `..` leaves it after normalisation.

## Model

| member | source | states |
|---|---|---|
| Manifest.CheckManifest | zoomaker.py:34-38 | a missing `name` is reported first; otherwise a missing `resources` |
| Manifest.CheckResourceFirstRule | zoomaker.py:41-51 | a resource passes iff it has all four attributes and a known type; the reported attribute is the first one missing in the order name, src, type, install_to; an unknown type is reported only when all four are present |
| Manifest.CheckResourcesAppend | zoomaker.py:40-51 | checking two lists one after the other is checking their concatenation |
| Manifest.CheckGroupsFlatten | zoomaker.py:39-40 | checking group by group is checking all resources in installation order |
| Manifest.CheckResourcesAll | zoomaker.py:40-51 | a list passes iff every resource in it passes |
| Manifest.CheckManifestAccepts | zoomaker.py:34-51 | `_check_yaml` accepts exactly the well-formed manifests; an empty `resources` mapping is accepted |
| Manifest.CheckResourcesFirstFailure | zoomaker.py:39-51 | the error is `e` iff some resource fails with `e` and every resource before it passes |
| Manifest.CheckManifestFirstFailure | zoomaker.py:34-51 | fail-fast over all groups: the first failing resource in installation order decides the error |
| Zoo.Zoomaker.Open | zoomaker.py:28-32 | construction succeeds iff the check accepts, and otherwise fails with the check's error; a new object holds the document, the filesystem and an empty log |
| Zoo.Zoomaker.constructor | zoomaker.py:28-32 | the object holds the checked document and the given filesystem, with an empty log |
| Text.Split | zoomaker.py:76-77 | `split` never returns an empty list, and no piece contains the separator |
| Text.JoinSplit | zoomaker.py:76-77 | joining the pieces of a split gives the string back |
| Text.SplitJoin | zoomaker.py:76-77 | splitting a join of separator-free pieces gives the pieces back |
| Text.JoinAppend | zoomaker.py:76-77 | joining two non-empty lists puts a single separator between their joins |
| Text.BasenameSpec | zoomaker.py:64 | the basename has no `/`, ends the path, and is either the whole path or preceded by `/` |
| Text.BasenameUnique | zoomaker.py:64 | those three facts determine the basename |
| Text.RemoveAll | zoomaker.py:170 | `replace(pat, "")` never lengthens a string and adds no character |
| Text.RemoveAllAbsent | zoomaker.py:170 | with no occurrence of the pattern, `replace` changes nothing |
| Text.RemoveAllGitSuffix | zoomaker.py:170 | a trailing `.git` is removed and does not change what is removed before it |
| Paths.JoinSpec | zoomaker.py:79 | `os.path.join`: an absolute second part replaces the first; otherwise the result starts with the first part and ends with the second, with exactly one `/` between them when needed |
| Paths.NormComponents | zoomaker.py:69 | the kept components are never empty or `.`, and never `..` under the root, and there are no more of them than went in |
| Paths.Normpath | zoomaker.py:69 | `normpath` never returns an empty string and keeps an absolute path absolute |
| Paths.NormpathIdempotent | zoomaker.py:69 | `normpath` of an absolute path is its own normal form |
| Paths.NormpathOfParts | zoomaker.py:69 | a root followed by plain components joined by `/` is already normal |
| Paths.Abspath | zoomaker.py:69 | `abspath` returns an absolute path |
| Slug.AsciiOnlySpec | zoomaker.py:264 | only ASCII characters are left, and an ASCII string is left alone |
| Slug.KeepWordSpaceDashSpec | zoomaker.py:265 | only word characters, whitespace and `-` of the input are kept, and a string of only those is left alone |
| Slug.DropRunSpec | zoomaker.py:266 | exactly the leading run of `-` and whitespace is removed |
| Slug.CollapseShape | zoomaker.py:266 | after collapsing, every character is `-` or a non-separator of the input, and no `--` remains |
| Slug.CollapseIdentity | zoomaker.py:266 | a string with no whitespace and no `--` is left alone by the collapse |
| Slug.StripLeadingSpec | zoomaker.py:266 | `strip('-_')` on the left leaves a suffix that starts with neither `-` nor `_` |
| Slug.StripTrailingSpec | zoomaker.py:266 | `strip('-_')` on the right leaves a prefix that ends with neither `-` nor `_` |
| Slug.StripShape | zoomaker.py:266 | stripping a string of slug characters without `--` leaves a slug |
| Slug.SlugifyShape | zoomaker.py:260-266 | for every input, the result is a slug: lower-case ASCII letters, digits, `_` and `-`, no `--`, no `-` or `_` at either end |
| Slug.SlugifyFixesSlugs | zoomaker.py:260-266 | a slug is its own slug |
| Slug.SlugifyIdempotent | zoomaker.py:260-266 | slugifying twice is slugifying once, so the second `_slugify` of the download name changes nothing; the empty string maps to itself |
| Slug.SlugifyWord | zoomaker.py:260-266 | a lower-case word is its own slug |
| Slug.SlugifyKeepsAlnums | zoomaker.py:264-266 | the slug keeps every letter and digit of the lower-cased ASCII input, in order, and adds none |
| Slug.AlnumsKeep | zoomaker.py:265 | removing characters other than word characters, whitespace and `-` keeps every letter and digit |
| Slug.AlnumsCollapse | zoomaker.py:266 | collapsing separator runs keeps every letter and digit |
| Slug.AlnumsStripLeading | zoomaker.py:266 | the left strip keeps every letter and digit |
| Slug.AlnumsStripTrailing | zoomaker.py:266 | the right strip keeps every letter and digit |
| Naming.HubSplitSegments | zoomaker.py:76-78 | with three or more segments, id + `/` + file path rejoins `src`, the id is the first two segments, the path is the rest and the file name is the last segment; with fewer segments the id is all of `src` and the path and name are empty |
| Naming.RepoNameSpec | zoomaker.py:168-172 | the repo name has no `/`; without a `.git` ending it is the basename; with one, it is the basename minus that suffix with every other `.git` removed, which is just the basename minus the suffix when no other `.git` occurs |
| Http.FirstMatchFromSpec | zoomaker.py:216 | the leftmost match of `filename=(.+)` is found, and none is reported only when there is none |
| Http.LineRunSpec | zoomaker.py:216 | the greedy `.+` takes the longest prefix without a newline |
| Http.StripLeadingQuotesSpec | zoomaker.py:216 | exactly the leading run of `"` is removed |
| Http.StripTrailingQuotesSpec | zoomaker.py:216 | exactly the trailing run of `"` is removed |
| Http.StripQuotesShape | zoomaker.py:216 | `strip('"')` keeps a line a line and leaves no quote at either end |
| Http.DispositionFilenameSpec | zoomaker.py:213-216 | a file name is found iff `filename=` followed by a non-newline occurs; it is then the rest of the line after the leftmost occurrence, with the quotes at both ends removed |
| Http.ClassifySpec | zoomaker.py:204-225 | the checks go in source order and the first failure decides: error status, then HTML page, then a disposition without `filename=`, then a `content-length` that `int` rejects; a response that passes all four is accepted; an accepted name comes from a non-empty `Content-Disposition`, and otherwise it is the slug of `name` |
| Zoo.Zoomaker.ResponseFilename | zoomaker.py:204-225 | the imperative checks give a name iff `Classify` accepts the response, and then the same name |
| Orchestrator.CreateFilePlacement | zoomaker.py:226 | after `open(path, 'wb')` the file exists, and no other path changes |
| Orchestrator.MovePlacement | zoomaker.py:174-180 | after `_rename_file` the file is at the destination and no longer at the source unless they are the same; no other path changes |
| Orchestrator.ExistsNormpath | zoomaker.py:139 | `os.path.exists` of an absolute path and of its `normpath` agree |
| Orchestrator.FetchFile | zoomaker.py:196-203 | `_download_file` makes exactly one GET, to `src`, with the headers built from the resource's `api_key`; it logs no resource start, no summary and no warning |
| Orchestrator.FetchFileRejects | zoomaker.py:203-225 | a failed request, an error status, an HTML page, a disposition without `filename=` or a `content-length` that is not an integer gives `None` and writes nothing |
| Orchestrator.FetchFileOutcome | zoomaker.py:203-248 | on success the only new file is the one at `os.path.join(install_to, name)` for the classified name; a broken stream leaves that partial file; every other failure changes nothing |
| Orchestrator.FetchFileServerPath | zoomaker.py:213-226 | a reply whose `Content-Disposition` names the absolute path `/x` is saved at `/x`, whatever `install_to` is |
| Orchestrator.HubStepAt | zoomaker.py:86-96 | the Hugging Face branch never stops the loop without raising, and logs no resource start and no summary |
| Orchestrator.HubStep | zoomaker.py:75-96 | the Hugging Face branch never stops the loop without raising, and logs no resource start and no summary |
| Orchestrator.HubSkipRule | zoomaker.py:80-88 | the branch skips (no hub call) iff `rename_to` is given and its target exists; a skip changes nothing |
| Orchestrator.HubPlacement | zoomaker.py:89-96 | a fetched file ends up at the `rename_to` target or at `install_to/<file name>`, and no longer where the hub wrote it unless that is the same place; nothing else changes; a failed hub call raises and changes nothing |
| Orchestrator.GitPlan | zoomaker.py:104-130 | the first call is a fetch when the repository exists and a clone when it is missing; no later call is a clone, and all of them act on the repository path |
| Orchestrator.GitPlanTable | zoomaker.py:104-130 | clone iff missing; fetch iff present; checkout iff a revision is given; pull iff none is; submodule update, as the last call, unless an existing repository is checked out at a revision |
| Orchestrator.RunGit | zoomaker.py:104-130 | the git calls are logged in plan order, and there are never more of them than planned |
| Orchestrator.RunGitRunning | zoomaker.py:104-130 | the git calls end normally iff every planned call succeeds, and then all of them were made |
| Orchestrator.RunGitRaised | zoomaker.py:104-130 | a raised run stops at the first call that fails |
| Orchestrator.RunGitWithoutClone | zoomaker.py:106-115 | calls other than a clone leave the filesystem alone |
| Orchestrator.GitStep | zoomaker.py:99-130 | the git branch never stops the loop without raising, and logs no resource start and no summary |
| Orchestrator.GitStepOutcome | zoomaker.py:100-130 | a missing repository is created only by a clone that succeeds; the branch ends normally iff every planned call succeeds |
| Orchestrator.GitStepEvents | zoomaker.py:100-130 | the `rename_to` warning comes first when there is one, then the planned calls in order up to the first that fails |
| Orchestrator.GitEventsPrefix | zoomaker.py:101-130 | the warning, then a prefix of the plan's calls |
| Orchestrator.GitStepCalls | zoomaker.py:104-130 | all planned calls are made when the branch ends normally; when it raises, the last call made is the first that failed |
| Orchestrator.GitIgnoresRename | zoomaker.py:101-102 | `rename_to` on a git resource only adds the warning: same filesystem, same calls, same outcome |
| Orchestrator.DownloadStep | zoomaker.py:133-153 | the download branch never raises out of `install`, given that `_rename_file` cannot fail |
| Orchestrator.DownloadStepCases | zoomaker.py:137-153 | the branch goes one of three ways: skip; failed download, with the failure message and a stop; or a saved file, then the rename and the warning |
| Orchestrator.DownloadSkipRule | zoomaker.py:137-140 | the branch sends no request iff the slugged file name or the `rename_to` target exists; a skip changes nothing |
| Orchestrator.FetchFileSaves | zoomaker.py:193-230 | a reply that passes the checks, with a full body and a file that can be opened at `os.path.join(install_to, filename)`, is saved there |
| Orchestrator.DownloadRequests | zoomaker.py:141-142 | a download that is not skipped starts with its GET, with the request headers for the resource's `api_key` |
| Orchestrator.DownloadHaltRule | zoomaker.py:142-151 | the loop stops on a download iff it was not skipped and `_download_file` failed; the failure message comes last; the filesystem is unchanged unless a partial file was left |
| Orchestrator.DownloadRevisionWarning | zoomaker.py:152-153 | the revision warning is logged iff a revision is given and the download ran and succeeded |
| Orchestrator.AfterSave | zoomaker.py:146-153 | what follows a saved download logs the warning iff a revision is given, and no resource start or summary |
| Orchestrator.AfterSavePlacement | zoomaker.py:146-148 | the file ends up at the `rename_to` target, or stays at the saved path; nothing else changes |
| Orchestrator.DownloadRenamePlacement | zoomaker.py:142-148 | after a successful download the file is at the `rename_to` target, or at the saved path; nothing else changes |
| Orchestrator.DownloadRerunSkips | zoomaker.py:134-148 | a completed download is skipped by the next run, provided it was renamed or the response named no file |
| Orchestrator.RerunRefetches | zoomaker.py:137-222 | without `rename_to`, a download saved under a name other than the slug of the URL's basename is not found by the next run's skip test, so it is fetched again |
| Orchestrator.RerunRefetchesWitness | zoomaker.py:134-222 | a concrete run meets those premises: `/z` empty, `src` ending in `model`, a reply naming `model.bin`; the file is saved as `/z/model.bin` and the next run's skip test does not find it |
| Orchestrator.DownloadStepIntended | zoomaker.py:133-153 | the corrected download branch, like the one as written, never raises |
| Orchestrator.IntendedRerunSkips | zoomaker.py:134-148 | with the saved file moved to the path the skip test looks at, whatever the reply, a completed download is found by the next run, which then only logs the skip |
| Orchestrator.IntendedKeepsRename | zoomaker.py:143-148 | with a `rename_to` the corrected branch is the branch as written |
| Orchestrator.MoveAfterSave | zoomaker.py:146-153 | the move and then the warning, which is logged iff a revision is given |
| Orchestrator.DownloadStepQuiet | zoomaker.py:133-153 | the download branch logs no resource start and no summary |
| Orchestrator.Resolve | zoomaker.py:63-69 | `install_to` is resolved to an absolute path |
| Orchestrator.ResourceStep | zoomaker.py:62-153 | one iteration first logs the resource with its number, name and resolved `install_to`; only a download can stop the loop without raising; nothing after the first event starts a resource or is the summary |
| Install.InstallStep | zoomaker.py:62-153 | the loop body meets the contract `GoodStep` on every well-formed resource |
| Install.InstallStepRuns | zoomaker.py:62-153 | the loop body of `install` is an instance of the generic loop |
| Install.RunAllSame | zoomaker.py:59-62 | loop bodies that agree on well-formed resources give the same run |
| Install.InstallRunWith | zoomaker.py:53-155 | `install` can be computed with any body that behaves like its loop body |
| Install.AdvanceRunning | zoomaker.py:70-72 | while the loop goes on, the next resource is run under the next number |
| Install.AdvanceSpec | zoomaker.py:62-153 | one resource raises the counter by one and appends its own start event and then quiet events; a stopped loop takes no further step |
| Install.RunAllSnoc | zoomaker.py:59-62 | running one more resource is one more step |
| Install.FlattenPrefix | zoomaker.py:59-62 | the resources of the first groups begin the list of all resources |
| Install.FlattenSnoc | zoomaker.py:59-62 | one more group appends its resources |
| Install.RunPrefix | zoomaker.py:59-62 | the resources run before entry `j` of group `k` are a prefix of all resources |
| Install.GroupNext | zoomaker.py:62-72 | within a group, one more resource is one more step of the run so far |
| Install.GroupStopped | zoomaker.py:149-151 | a loop that stops inside a group does not touch the rest of that group |
| Install.FinishStopped | zoomaker.py:149-151 | a loop that stops inside group `k` is the whole run: later resources are not touched and no summary follows |
| Install.Count | zoomaker.py:70-71 | `Count(lo, hi)` is `lo`, ..., `hi - 1` |
| Install.ProgressEvents | zoomaker.py:70-71 | appending a resource's events keeps the earlier log and extends the numbering by one |
| Install.ProgressStep | zoomaker.py:70-71 | one more resource keeps the invariant of the counter and the numbered log |
| Install.RunAllProgress | zoomaker.py:58-71 | the counter counts the resources reached; each was logged once, in order, with its number; no summary yet |
| Install.RunAllStops | zoomaker.py:149-151 | a stopped loop stopped at the resource the counter names, after running every resource before it |
| Install.StoppedKind | zoomaker.py:149-151 | only a download stops the loop without raising |
| Install.RunAllAfterStop | zoomaker.py:149-151 | once the loop stopped, the remaining resources are not touched |
| Install.SummaryQuiet | zoomaker.py:155 | the summary line is not a resource start |
| Install.FinishNumbering | zoomaker.py:58-71 | resources are numbered 1, 2, ... in the order reached, with no gaps, and never beyond the number of resources |
| Install.FinishSummary | zoomaker.py:149-155 | the summary with the count is logged iff every resource was processed, and then the count is the number of resources; a stopped run logs no summary; a run that stopped without raising stopped on a download |
| Install.InstallRunNumbering | zoomaker.py:53-71 | the numbering of `install()` on a checked manifest |
| Install.InstallRunSummary | zoomaker.py:53-155 | the summary of `install()` on a checked manifest |
| Zoo.Zoomaker.MakeDirs | zoomaker.py:72 | `os.makedirs` records the directory |
| Zoo.Zoomaker.CreateFile | zoomaker.py:226 | `open(path, 'wb')` creates the file |
| Zoo.Zoomaker.RenameFile | zoomaker.py:174-180 | `_rename_file` moves the file and logs the move |
| Zoo.Zoomaker.DownloadFile | zoomaker.py:193-248 | the method returns the saved path exactly when `FetchFile` succeeds, and leaves the filesystem and log that `FetchFile` describes |
| Zoo.Zoomaker.InstallHub | zoomaker.py:75-96 | the Hugging Face branch leaves the state that `HubStep` describes |
| Zoo.Zoomaker.GitCall | zoomaker.py:105-128 | one git call: it is logged, and a clone that succeeds creates the repository directory |
| Zoo.Zoomaker.UpdateRepo | zoomaker.py:104-115 | the calls on an existing repository leave the state that `RunGit` on its plan describes |
| Zoo.Zoomaker.CloneRepo | zoomaker.py:117-130 | the calls for a missing repository leave the state that `RunGit` on its plan describes |
| Zoo.Zoomaker.InstallGit | zoomaker.py:99-130 | the git branch leaves the state that `GitStep` describes |
| Zoo.Zoomaker.SaveDownloaded | zoomaker.py:143-153 | the rename and then the warning, as `AfterSave` describes |
| Zoo.Zoomaker.InstallDownload | zoomaker.py:133-153 | the download branch leaves the state that `DownloadStep` describes |
| Zoo.Zoomaker.InstallResource | zoomaker.py:62-153 | the body of the loop leaves the state that `ResourceStep` describes |
| Zoo.Zoomaker.InstallNext | zoomaker.py:62-72 | the body of the loop advances the run so far by one resource |
| Zoo.Zoomaker.InstallGroup | zoomaker.py:62-151 | the inner loop over one group leaves the state of the run over all resources so far, and stops at the first failure |
| Zoo.Zoomaker.InstallAll | zoomaker.py:58-155 | the two loops leave the state that `Finish` over all resources describes |
| Zoo.Zoomaker.Install | zoomaker.py:53-155 | `install()` leaves the state that `InstallRun` describes, so the numbering and summary lemmas above hold of it |
| Zoo.RunGitFirst | zoomaker.py:104-130 | proof helper for `UpdateRepo` and `CloneRepo`: a plan whose first call fails raises after that one call |
| Zoo.RunGitTwo | zoomaker.py:104-130 | proof helper for `UpdateRepo` and `CloneRepo`: the outcome when the second call fails, and when a two-call plan succeeds |
| Zoo.RunGitThree | zoomaker.py:117-130 | proof helper for `UpdateRepo` and `CloneRepo`: the outcome of a three-call plan whose first two calls succeed |

## Left out

- YAML loading (`yaml.safe_load`) is not modelled: the parsed document is given. Manifest values are strings only. A YAML `null`, a number, a nested value, or a top level that is not a mapping is not modelled.
- `_slugify` drops every non-ASCII character. NFKD decomposition is not modelled, so an accented letter is dropped instead of becoming its base letter. The `allow_unicode=True` path is not modelled, because `install` never uses it.
- `Paths.Normpath` works on text only. It does not resolve symlinks, and `os.makedirs` records only the target directory, not its parents.
- `Orchestrator.DownloadStep`: `_rename_file` (zoomaker.py:147) runs outside any `try` and can raise, for example when the target's directory is missing, the target is a directory, or the move crosses devices. Moves cannot fail in the model, so the branch never raises.
- `Orchestrator.Exists`: a path is looked up by its `normpath`, so a trailing `/` is dropped. `os.path.exists("x/")` is false when `x` is a regular file, but the model finds it. Only the skip tests see this, through a `rename_to` or a URL basename that ends in `/`. Opening such a path does fail in the model (`FetchFile`).
- `Orchestrator.ExistsNormpath` and `Paths.NormpathIdempotent` are stated for absolute paths only; every path the loop looks up is under the absolute `install_to`.
- `Zoo.Zoomaker.MakeDirs` and `Zoo.Zoomaker.RenameFile` cannot fail. OS errors from `makedirs` and `rename` are not modelled.
- `_rename_file`: the Windows branch is not modelled. It removes the destination first, which the POSIX `rename` modelled here does in one step.
- The streaming loop of `_download_file` and its `tqdm` progress bar are not modelled. The body either completes or breaks after the file was opened (`Body`).
- `_get_file_size` and the size messages are not modelled, because they only format a number for the log.
- Logging: only the messages that matter are events. These are the resource start, the skip, the calls to the hub, git and HTTP, the moves, the `rename_to` and revision warnings, the download-failed message and the summary. The banner lines, the group headers and the informational lines are not.
- `Content-Type` and `Content-Disposition` lookups are case-insensitive in `requests`. The model keys the headers by the lower-cased name.
- `World` is fixed for the whole run. The outside world is not modelled as changing between calls, and a hub call is not modelled as depending on the files present.
- `run`, `main` and argument parsing are not modelled; they are outside the installer core.
- `hf_hub_download` is modelled by the path it writes to (`install_to/<repo_filepath>`). Its cache and its other outputs are not.

## Findings

| source | as written | input that shows it | evidently intended | confidence | as-written member | corrected member |
|---|---|---|---|---|---|---|
| zoomaker.py:137-140, 216-222 | the skip test of a download looks for `install_to/<slug of the URL basename>` and for the `rename_to` target, but without `rename_to` the file is saved under the name from `Content-Disposition` | a download resource without `rename_to`, with `src` ending in `/resolve/main/model`, whose reply carries `Content-Disposition: filename=model.bin`: the file is saved as `install_to/model.bin`, the next run looks for `install_to/model` and downloads it again | running `install` again skips resources already present | not executed; high | Orchestrator.RerunRefetches | Orchestrator.IntendedRerunSkips |

`Orchestrator.RerunRefetches` shows the failure in general, and `Orchestrator.RerunRefetchesWitness` proves it on the input of the table. The corrected branch is `Orchestrator.DownloadStepIntended`. Without `rename_to` it moves the saved file to `install_to/<slug of the URL basename>`, the path the skip test looks at. `Orchestrator.IntendedRerunSkips` proves the intended property for it whatever the reply. `Orchestrator.IntendedKeepsRename` shows that it differs from the code only when there is no `rename_to`. For the code as written, `Orchestrator.DownloadRerunSkips` proves the property in the two cases where the skip test does look at the saved file: a `rename_to` is given, or the reply has no `Content-Disposition`. `install` itself is modelled with the code's own branch, `Orchestrator.DownloadStep`, so the lemmas about the whole run describe the program as written.
