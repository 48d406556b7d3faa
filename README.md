# svn_helper, modelled in Dafny

`svn_helper` is a small command-line tool that keeps a Subversion working copy in line with a
configuration file. `svn_helper co` checks the working copy out, or, when the directory already
exists and is a working copy, switches it to `SVN_URL` and updates it to `SVN_REV`.
`svn_helper clean` lists the untracked entries (`?` in `svn status --no-ignore`) and the modified
ones (`M`), asks whether to go on, deletes the untracked ones, reverts the modified ones, and then
runs `co` on the same path. The configuration comes from `KEY=VALUE` rows of a config file and the
`--path` option (`compose_cfg`).

The model follows the structure of `helper.py`:

- `Text`: the Python 2 string operations the helper relies on (`rstrip`, `split(sep)[-1]`, `lower`,
  `startswith`). The lines of `svn status` come from sh as `unicode`, so `rstrip` removes every
  character `unicode.isspace` accepts. The answers come from `raw_input` as byte strings, so `lower`
  changes only the ASCII capitals.
- `Effects`: what the helper does to the outside world. Every svn command, `rmtree`, `unlink`,
  `chdir` and question is an `Op` and is logged. The exceptions it can raise are an `Error`.
  `World` is an oracle that answers the questions the helper asks the system without changing it:
  whether a path exists (`os.path.exists`, not logged), how each svn command exits, what
  `svn status` prints, and which errno each filesystem call fails with. The state the helper
  changes lives in a `Process` class: its working directory (which `os.getcwd` reads, without a
  logged step), the unread lines of standard input, and the log of every step issued.
- `ConfigFile`: `compose_cfg`, applied to the rows after the csv reader has split them. A
  `method` follows the source loop. It is proved equal to the function `Compose`, which fails
  exactly as `Load` (reading the rows) does. The lemmas about the file's rows are stated over
  `Load`.
- `Status`: `_collect_derty`, as a loop over the status lines, proved equal to `Picked`.
- `VcsWrapper`: `act`, `checkout`, `_get_vcs_info`, `_rm` and `clean`.
  - The parts without state are functions that return the steps they issue and how they end (a
    `Trace`).
  - `clean` runs as methods on a `Process`. Each method is proved to issue exactly the steps of
    its own function: `AskForConsent` those of `Confirm`, `RemoveEntries` of `RemoveAll`,
    `RevertEntries` of `RevertAll`, `TidyUp` of `Tidy`, `Conclude` of `Decide`,
    `CleanInWorkingCopy` of `CleanWithin`, and `Clean` those of `CleanTrace`.
  - The `with preserve_cwd()` block is a method call, followed by the restoring `chdir` on every
    way out of the block.

`clean` keeps one quirk of the source. When an answer is neither `y` nor `n`, the loop reads
another line at line 201. That line is never looked at, because the next pass asks again at
line 191. `Confirm` models this exactly, and `DiscardedAnswersIgnored` and
`YesAfterInvalidAnswerIsLost` state what it implies. The loop's test for an empty listing is made
once before the loop instead of on every pass. The lists never change inside the loop, so this
changes nothing.

## Model

| member | source | states |
|---|---|---|
| Text.RStrip | helper.py:146 | the result is a prefix of the line that does not end in whitespace, and only whitespace was cut off |
| Text.LastField | helper.py:146 | the result is a suffix holding no separator, and it is preceded by a separator unless it is the whole string |
| Text.Lower | helper.py:195-198 | `lower` keeps the length, turns each ASCII capital into its small letter, and changes nothing else |
| Text.LastFieldUnique | helper.py:146 | only one string has that property, so it fully determines `split(sep)[-1]` |
| Effects.ParseArgvInverts | helper.py:119 | the arguments given to svn can be read back into the command, including the `-r<rev>` of `up` |
| Effects.ArgvInjective | helper.py:84-87 | distinct commands reach svn as distinct argument lists |
| Effects.Process.Chdir | helper.py:170 | one `chdir` is logged; the directory changes exactly when the call succeeds, otherwise OSError with its errno and the directory is unchanged |
| Effects.Process.Restore | helper.py:43-49 | the directory saved on entry is current again, and the `chdir` back is logged |
| Effects.Process.Ask | helper.py:178-186 | one question is logged; the next line of input is returned and consumed, or None (EOFError) when input is exhausted |
| ConfigFile.CfgPath | helper.py:223 | the `--cfg` option wins when it is non-empty, otherwise `./helper.cfg` is used |
| ConfigFile.Require | helper.py:84-87 | a missing key raises KeyError; the lookup succeeds exactly when the key holds a string |
| ConfigFile.Load | helper.py:227-232 | every value read from the file is a string (only PATH can later become None) |
| ConfigFile.LoadFailurePersists | helper.py:230-231 | once a row has raised, the rows after it make no difference |
| ConfigFile.LoadFailure | helper.py:228-231 | reading raises exactly when some non-comment row does not have two fields, and then it names the first such row |
| ConfigFile.LoadKeys | helper.py:228-232 | the keys are exactly the first fields of the rows with two fields that are not comments |
| ConfigFile.LoadLastWins | helper.py:232 | a key holds the value of the last row that sets it |
| ConfigFile.ResolvePath | helper.py:234 | PATH is the non-empty `--path`, else the non-empty PATH of the file, else None |
| ConfigFile.Compose | helper.py:222-236 | compose_cfg fails exactly when reading fails, and with the same error (the first malformed row); PATH is always present and resolved; every other key is as read |
| ConfigFile.ComposeCfg | helper.py:222-236 | the loop with `continue` and `raise` returns what `Compose` specifies |
| Status.EntryName | helper.py:146 | the name is the last space-separated field of the line without its trailing whitespace |
| Status.CollectDirty | helper.py:144-154 | the two lists are the names of the `?` lines and of the `M` lines, in listing order |
| Status.PickedAppend | helper.py:148-152 | classifying a listing in two parts and joining the results gives the same lists |
| Status.PickedMembers | helper.py:148-152 | a name is listed exactly when some line starting with the code reports it |
| Status.ClassifyExample | helper.py:148-152 | with an untracked, a modified and an added entry, only the first two are picked, each in its own list |
| VcsWrapper.Dispatch | helper.py:53-56 | only `co` and `clean` have a handler; `co` runs checkout and `clean` runs clean |
| VcsWrapper.DstPath | helper.py:73 | a missing PATH raises KeyError; a non-empty PATH is used as given; otherwise the path is the last `/`-segment of SVN_URL, or the lookup of SVN_URL fails |
| VcsWrapper.PathOptionWins | helper.py:73 | with a non-empty `--path`, act works on that path whatever the file says |
| VcsWrapper.UrlNamesWorkingCopy | helper.py:73 | with no `--path` and no non-empty PATH in the file, the working copy is named after the last segment of SVN_URL |
| VcsWrapper.Run | helper.py:119 | one svn command is issued; it succeeds exactly when it exits 0, and otherwise raises ErrorReturnCode_N carrying that command and its exit status N |
| VcsWrapper.GetVcsInfo | helper.py:101-106 | one `svn info`; exit 0 means a working copy, exit 1 means not one, and any other exit status propagates |
| VcsWrapper.Checkout | helper.py:78-87 | only svn commands are run. A missing path: SVN_URL, then SVN_REV are looked up, and a failing lookup issues nothing; otherwise exactly one `co` runs, and checkout ends as it does. An existing path is probed with `info` first: exit 1 changes nothing, other failures propagate. After a successful `info`: the SVN_URL lookup, then `switch`, then the SVN_REV lookup, then `up`, each stopping checkout when it fails, and `up`'s exit status decides the outcome |
| VcsWrapper.Rm | helper.py:157-164 | rmtree is tried first; unlink follows exactly when rmtree fails with errno 20; success exactly when one of them succeeds; otherwise rmtree's OSError propagates when its errno is not 20, and unlink's when rmtree's is 20 |
| VcsWrapper.EachFailurePersists | helper.py:203-204 | an exception in the list comprehension stops it: the names after the failing one are never reached |
| VcsWrapper.RemoveAllCovers | helper.py:203 | the removals get through exactly when `_rm` gets through for every name; only the listed entries are touched, and when nothing raises, rmtree was tried on every one of them |
| VcsWrapper.RevertAllExact | helper.py:204 | the reverts get through exactly when every `svn revert` exits 0; only listed entries are reverted, and when nothing raises, each one was reverted once, in order |
| VcsWrapper.TidyCovers | helper.py:203-204 | after a yes, only the listed entries are touched; when it gets through, every removal comes before every revert |
| VcsWrapper.IsYes | helper.py:198 | the answer goes on exactly when it is `y` or `Y` |
| VcsWrapper.IsNo | helper.py:195 | the answer stops clean exactly when it is `n` or `N` |
| VcsWrapper.Confirm | helper.py:189-201 | the deciding answer is read on an odd-numbered question; running out of input ends in EOFError after one question more than there were lines |
| VcsWrapper.AnswersBeforeInvalid | helper.py:189-201 | every answer the loop looked at before the deciding one was neither yes nor no |
| VcsWrapper.DiscardedAnswersIgnored | helper.py:199-201 | the line read after an invalid answer never affects the decision or the number of questions |
| VcsWrapper.YesAfterInvalidAnswerIsLost | helper.py:189-201 | `maybe`, `y`, `n` declines after three questions: the `y` is discarded |
| VcsWrapper.AskForConsent | helper.py:189-201 | the `while True` loop returns the decision `Confirm` specifies, consumes exactly the lines it read, and logs one question per read |
| VcsWrapper.RemoveEntries | helper.py:203 | the removal loop issues exactly the steps of `RemoveAll` and ends as it does |
| VcsWrapper.RevertEntries | helper.py:204 | the revert loop issues exactly the steps of `RevertAll` and ends as it does |
| VcsWrapper.TidyUp | helper.py:203-204 | removals then reverts, with no revert after a failed removal |
| VcsWrapper.Conclude | helper.py:189-204 | with nothing listed, nothing is asked; otherwise the user is asked, and only a yes leads to the removals and reverts |
| VcsWrapper.CleanInWorkingCopy | helper.py:169-204 | the block under preserve_cwd issues exactly the steps of `CleanWithin` and consumes the input it reads; it leaves the process in the working copy when the `chdir` succeeded, and where it was otherwise |
| VcsWrapper.CleanTrace | helper.py:167-206 | clean always starts with the `chdir` into the working copy, and the step right after the block under preserve_cwd is the `chdir` back to the starting directory; it can succeed only when that `chdir` and `svn status` succeeded |
| VcsWrapper.Clean | helper.py:167-206 | the working directory after clean is the one before it, however the block ended; the steps are those of `CleanTrace` |
| VcsWrapper.NothingToCleanAsksNothing | helper.py:189-194 | with nothing untracked or modified, clean asks nothing, reads no input, changes nothing and does not run checkout |
| VcsWrapper.QuietUnlessAccepted | helper.py:189-204 | without a yes (nothing to clean, a no, end of input, or an earlier failure) nothing that changes the working copy is issued |
| VcsWrapper.MutationsFollowYes | helper.py:189-205 | any step that changes the working copy comes after every question, and the last answer read was `y` or `Y` |
| VcsWrapper.AcceptedCleanOrder | helper.py:198-205 | after a yes: list, ask, remove every untracked entry, revert every modified one in order, return to the starting directory, then checkout; clean succeeds exactly when checkout does |
| VcsWrapper.Act | helper.py:59-75 | an unknown action raises before anything is issued; a failing path lookup issues nothing; `co` and `clean` issue exactly their handler's steps and leave the working directory as it was |

## Left out

- Printed messages are left out: the working-copy path, the warnings, the listing shown with the question, and "Working copy cleared". A question is logged as one `Prompt` step without its text.
- The svn library is not modelled. The oracle reports svn's exit status and the lines `svn status` prints; the text of every other svn command (such as `svn info`) is dropped because the helper never uses it.
- The config file is not opened or read: `compose_cfg` starts from rows the csv reader has already split, and an IOError from `open` is not modelled.
- Command-line parsing (docopt), `main`, `--version` and the process exit status are not modelled.
- The oracle is fixed for the whole run, so its answers do not depend on earlier steps (for example, whether the path exists when clean runs checkout).
- The `chdir` back in `preserve_cwd` is assumed to succeed.
- Exceptions other than a non-zero svn exit status, an errno from a filesystem call, EOFError, KeyError and the two ValueErrors are not modelled (for example, svn missing from the system).
- VcsWrapper.Checkout: a None under `SVN_URL` or `SVN_REV` is modelled as an error (`NoneValue`). The source would pass the text `None` to svn. This cannot happen for a configuration built by `compose_cfg`, which stores None only under PATH.
- VcsWrapper.DstPath: with no usable PATH and a None under `SVN_URL`, the source raises AttributeError (`None.split`); the model raises `NoneValue`. This cannot happen for a configuration built by `compose_cfg` either.
- Status.EntryName: whitespace is the set `unicode.isspace` accepts in Python 2.7 (Unicode 5.2). How sh decodes the bytes svn prints, and a line it cannot decode, are not modelled.
