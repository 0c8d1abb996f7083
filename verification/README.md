# recent-branches, modelled in Dafny

`recent-branches` is a terminal tool that lists the git branches a user
worked on most recently and switches to the one picked. This project models
its core:

- **The recency resolver** (`git.go`, `GetRecentBranches` and its helpers).
  Checkout records of the reflog give each branch the last time it was
  checked out, and the current branch is forced to "now". Local branches,
  and optionally the remote's, are listed with `for-each-ref`. They are
  filtered by commit author against a merge base, stamped with their
  last-used time, sorted most recent first and cut to the requested count.
- **The working-tree queries** (`git.go`). These are the dirty check, the
  porcelain status with per-file line counts from `diff --numstat`, and the
  per-file diff.
- **The write operations** (`git.go`): commit everything, stash, and check
  out a listed branch. A remote branch without a local copy is created
  tracking `origin/<name>`.
- **The commit dialog** (`modal.go`). It opens when the user picks a branch
  while the tree is dirty. It covers focus cycling, the file list with
  expandable entries, and the subject and description fields. Its choices
  are commit, stash and cancel.
- **The main screen's part in switching** (`main.go`):
  - the `-author` flag;
  - the guard in front of a switch;
  - carrying out the dialog's choice;
  - the debug log panel.

## Modules

| file | module | what it holds |
|---|---|---|
| results.dfy | `Results` | `Option`, `Result` |
| text.dfy | `Text` | the string functions of Go's `strings` package that the core uses: `TrimSpace` over Unicode white space, `Split`, `SplitN`, `Fields`, prefixes and suffixes, `Join` |
| vcs.dfy | `Vcs` | the git commands as a `Command` datatype with their argument vectors; `Runner`, which answers a command with its standard output and success; `Effect`, which pairs an outcome with the commands issued |
| branches.dfy | `Branches` | `Branch`, stamping, the recency sort, and `Rank` |
| resolver.dfy | `Resolver` | reflog parsing, branch listing, merge base, author filter, `GetRecentBranches` |
| worktree.dfy | `WorkTree` | dirty check, porcelain status, numstat parsing, `parseInt`, file diff |
| actions.dfy | `Actions` | commit, stash, switch |
| modal.dfy | `CommitDialog` | the commit dialog |
| logview.dfy | `LogView` | the debug log panel |
| app.dfy | `App` | the author flag, the switch guard, the dialog's choice carried out, status-line notices |

The running process is not modelled. Every git invocation is a `Command`,
and a `Runner` (a pure function from `Command` to `RunResult(stdout, ok)`)
stands for one snapshot of the repository. Write operations return the
commands they ran, in order. That makes properties such as "nothing is
committed when staging fails" and "cancel runs nothing" statable. The clock
and the two date parsers are parameters (`Resolver.Env`). `Env` carries two
clock readings: `now` stamps the current branch (git.go:92), and `listedAt`
stands in for every reading taken for a branch date that does not parse
(git.go:206).

### Behaviour of the code that the model keeps

These are modelled as the code behaves. A lemma shows each one.

- **A source branch named `to`.** A reflog checkout is read as the text after
  the first `" to "` (up to a second one), so a checkout *from* a branch called `to` is read as
  a checkout of `to <target>` (`Resolver.ReflogSourceNamedTo`).
- **The first status line loses its leading blank.** `git status
  --porcelain` output is trimmed as a whole before it is split into lines.
  A first record whose index column is blank (`" M path"`) therefore loses
  that blank, and the file is listed as changed in the index and unchanged
  in the work tree. Only the two status columns shift; the path is read
  intact (`WorkTree.FirstRecordShifted`).
- **Space and enter never reach the text fields.** The dialog binds both
  keys to the file-expansion toggle ahead of the text widgets, so these
  keys never edit the subject or the description, whichever part of the
  dialog has the focus (`CommitDialog.TextFieldsGetNoBlank`).
- **`NewCommitModal` focuses the subject widget although the focus index is
  the file list.** `Show` blurs it before the dialog is seen
  (`CommitDialog.NewDialog`).
- **`all` only switches the filter off when it comes first.** The author
  filter is off exactly when the first listed author is `all`, so
  `-author all,bob` lists every branch (`App.FlagSelection`).
- **The dialog keeps the listed name.** When a remote branch is picked from
  a dirty tree, the dialog is opened with the listed name `x (remote)`. The
  stash message then names `x (remote)`; the checkout still strips the
  marker (`App.AskThenStash`).

### Choices the code makes

- **Branches with no commit of their own pass the author filter.** When the
  log of a branch since its merge base is empty, the branch is kept
  (git.go:547-551), as it is when that log cannot be read (git.go:541-545).
- **Remote branches are not de-duplicated.** Remote branches are appended to
  the local ones as they are (git.go:104-107), so a branch that exists both
  locally and on `origin` is listed twice.
- **The sort is not stable.** The code uses `sort.Slice` (git.go:154-157),
  which is not stable. `Branches.SortByRecency` promises only a permutation
  with non-increasing last-used times, not the order of ties.

## Model

| member | source | states |
|---|---|---|
| Results.Present | git.go:185-223 | the values kept are exactly those of the records that were read, with none invented and none lost |
| Results.PresentAppend | git.go:185-223 | the values kept keep their order: those of a first run of records come before those of a second |
| Text.TrimSpace | git.go:178 | neither end of the result is white space; the result is empty exactly when the input is all white space; an input with no white space at either end is returned unchanged; the result is a slice of the input with only white space before and after it |
| Text.TrimLeftSpace | git.go:178 | the result is a suffix of the input; what was dropped is all white space; the result does not start with white space |
| Text.TrimRightSpace | git.go:178 | the result is a prefix of the input; what was dropped is all white space; the result does not end with white space |
| Text.IndexOf | git.go:72-73 | the result is the first position where the pattern occurs, or none when it occurs nowhere |
| Text.SplitN | git.go:190 | 1 to n pieces; joined with the separator they give the input back; no piece but the last contains the separator |
| Text.Split | main.go:159 | the pieces joined with the separator give the input back, and no piece contains the separator |
| Text.SplitJoin | main.go:159 | splitting pieces joined with a one-character separator that none of them contains gives the same pieces back |
| Text.Lines | git.go:271 | the lines joined with newlines give back the trimmed output, and no line holds a newline |
| Text.FieldsJoin | git.go:364 | words joined by white space are split back into the same words |
| Vcs.ThenAssociative | git.go:424-446 | chaining steps that each run only after the previous one succeeded gives the same effect however the steps are grouped |
| Vcs.NothingIsUnit | git.go:424-446 | a step that runs nothing adds nothing before or after another step |
| Branches.Stamp | git.go:136-152 | every branch is kept at its position and gets its checkout-history time, or its commit date when the history has none |
| Branches.SortByRecency | git.go:154-157 | the result is a permutation of the input and its last-used times do not increase |
| Branches.Take | git.go:159-162 | the first `count` branches, or all of them when there are fewer |
| Branches.Rank | git.go:136-162 | `min(count, n)` branches, sorted most recent first, each a stamped candidate; none when the count is 0 |
| Branches.RankIsTopK | git.go:136-162 | every stamped branch left out was used no later than every branch kept |
| Branches.RankedFromCandidates | git.go:136-152 | every ranked branch is one of the candidates carrying its stamped time |
| Branches.CurrentRanksFirst | git.go:89-93 | when only the current branch's time reaches now, the ranking starts with it |
| Resolver.ReflogCheckout | git.go:56-86 | a record without three `\|`-separated parts, without " to " in its subject, or with an unparsable time is skipped; a record that is read has the checkout marker and a parsed time |
| Resolver.ReflogCheckoutRoundTrip | git.go:56-86 | the reflog record of a checkout between space-free branch names, with a parsable time, is read back as its target at its time, unless the source is called "to" |
| Resolver.ReflogSourceNamedTo | git.go:72-73 | a checkout from a branch named "to" is read as a checkout of "to <target>" |
| Resolver.ReflogRecords | git.go:53-56 | one record per line, each read independently |
| Resolver.LatestTimes | git.go:81-84 | the keys are exactly the checkout targets, and each value is the latest time recorded for its key |
| Resolver.RecencyTimes | git.go:52-93 | the current branch, when known, is last used now; every other entry is the reflog's |
| Resolver.RefBranch | git.go:185-222 | a line is skipped exactly when it is empty, has fewer than three fields or a blank name; a read record has the trimmed name, with `origin/x` shown as `x (remote)`, the parsed date or else the listing-time clock reading, the trimmed subject as title, and no checkout time |
| Resolver.ListedMarker | git.go:185-222 | for a ref name without blanks, a listed branch carries the ` (remote)` marker exactly when it is a remote branch |
| Resolver.RefRecordRoundTrip | git.go:185-222 | a for-each-ref record is read back as its branch: trimmed title, the parsed date (the listing-time clock reading if it does not parse), no checkout time, and `origin/x` read as remote and shown as `x (remote)` |
| Resolver.RefBranches | git.go:185-223 | every branch listed comes from one of the lines, and every line that reads as a branch is listed |
| Resolver.RefBranchesInOrder | git.go:185-223 | the branches come in the order of their lines: two runs of lines list the first run's branches first, and one line lists its branch or nothing |
| Resolver.GetBranchInfo | git.go:167-226 | an error exactly when the listing command fails; otherwise the branches of the lines of the trimmed output, so blank output lists nothing |
| Resolver.MergeBaseFrom | git.go:596-606 | the trimmed answer of the first base branch that answers; none exactly when no base answers |
| Resolver.MergeBaseShift | git.go:596-606 | skipping a base that does not answer moves the first answering base by one |
| Resolver.FindMergeBase | git.go:594-614 | main, master, develop, dev are tried in order; failing all four, the root commit; failing that, nothing |
| Resolver.BranchHasAuthorCommits | git.go:506-592 | main and master always pass, and so does a branch with no merge base, an unreadable log or no own commits; a branch fails exactly when every own commit was read and none matches an author |
| Resolver.MoreAuthorsKeepMore | git.go:558-588 | adding author names can only let more branches through |
| Resolver.KeepIf | git.go:110-134 | a branch is kept exactly when it is a candidate that passes |
| Resolver.KeepIfAppend | git.go:110-134 | filtering keeps the enumeration order: local survivors come before remote ones |
| Resolver.FilterByAuthors | git.go:110-134 | with no authors or a first author "all", every branch is kept; otherwise exactly the branches that pass the author check |
| Resolver.CurrentUser | git.go:492-504 | the trimmed user.email, else the trimmed user.name, and an error exactly when neither is configured |
| Resolver.GetRecentBranches | git.go:30-165 | the error cases in the source's order (not a repository, no identity for "mine", no reflog, no local listing); otherwise at most `count` branches, most recent first |
| Resolver.RecentIsRanking | git.go:95-165 | a successful listing is the ranking of the branches that survive the filter by the last-used table |
| Resolver.CurrentBranchFirst | git.go:89-93 | when every other time is before now, the current branch is listed first, last used now |
| WorkTree.IsDirty | git.go:237-250 | dirty exactly when either quiet diff (index or work tree) exits unsuccessfully |
| WorkTree.ParseInt | git.go:389-398 | the decimal value of a string of digits, and -1 for anything else |
| WorkTree.Decimal | git.go:389-398 | the numeral of n is all digits and is parsed back as n |
| WorkTree.LineCounts | git.go:360-383 | a line with fewer than three fields counts nothing; a binary file's line (a `-` count) counts nothing; otherwise each column is counted on its own: its decimal value when it is a numeral, nothing when it is not |
| WorkTree.BlankNumstat | git.go:355-386 | blank numstat output counts nothing |
| WorkTree.NumstatRoundTrip | git.go:355-386 | numstat output for files with space-free paths is read as the sum of the text files' counts, with binary files counting nothing |
| WorkTree.FileCountsRoundTrip | git.go:317-386 | for every combination of status columns, a file is counted as what its staged numstat records describe when the index column shows a change, plus what its unstaged records describe when the work-tree column does; nothing for an untracked or unmodified file |
| WorkTree.OverallStatus | git.go:286-298 | the first of A, D, R, C, U that either column shows, and 'M' exactly when neither shows one |
| WorkTree.StatusEntry | git.go:273-310 | lines shorter than three characters are skipped; otherwise the two columns, the trimmed path and their status |
| WorkTree.EntriesOfLongLines | git.go:273-311 | when no line is skipped, each line gives the entry at its own position |
| WorkTree.GetGitStatus | git.go:263-314 | an error exactly when the status command fails; otherwise the entries of the trimmed output's lines |
| WorkTree.StatusRoundTrip | git.go:263-314 | porcelain output whose first index column is not blank lists every record, in order, with its columns, path, status and counts |
| WorkTree.FirstRecordShifted | git.go:271-284 | a first record `" M path"` is listed with the work-tree letter in the index column |
| WorkTree.FileDiff | git.go:401-422 | a headed staged block and a headed unstaged block, each only when non-empty, the staged block directly followed by the unstaged one when both are there, and the fixed notice exactly when both are empty |
| WorkTree.FileDiffIsBlocks | git.go:401-422 | the diff view equals a separate block-list description: one titled block per non-empty diff, staged first, printed in order, or the notice when there is none |
| Actions.CommitMessage | git.go:431-437 | the message starts with the subject, and it is the subject alone exactly when the description is blank |
| Actions.MessageRoundTrip | git.go:431-437 | a one-line subject and its description are read back from the message; a blank description comes back as nothing |
| Actions.CommitChanges | git.go:424-446 | staging runs first; no commit runs when staging fails; done exactly when both staging and committing succeed |
| Actions.StashLabelRoundTrip | git.go:448-450 | the stash message names its branch and is read back as it |
| Actions.StashChanges | git.go:448-458 | one stash push labelled with the target branch; done exactly when it succeeds |
| Actions.SwitchToBranch | git.go:460-490 | the last command is a checkout of the name without its remote marker, and the outcome is that checkout's; a remote name first runs the local-branch existence check; a tracking branch is created from `origin/<name>` exactly for a remote name with no local copy; a failed creation reports the creation error and a failed checkout the checkout error |
| Actions.SwitchChecksOutKey | git.go:460-490 | a listed branch is checked out under its lookup key |
| Actions.RemoteWithLocalCopy | git.go:460-490 | picking the remote entry of a branch that exists locally checks out the local one, after the existence check |
| CommitDialog.NewDialog | modal.go:135-155 | hidden, no choice, focus on the file list, with the subject widget focused out of step with the focus index |
| CommitDialog.Show | modal.go:157-177 | shown for the target with empty texts, focus on the file list, both widgets blurred, nothing expanded, the first file selected, and the status files (none when the status fails) |
| CommitDialog.Hide | modal.go:179-184 | hidden, choice cleared, both widgets blurred, everything else kept |
| CommitDialog.UpdateFieldFocus | modal.go:292-304 | the widget focus agrees with the focus index and nothing else changes |
| CommitDialog.NextField | modal.go:278-281 | the next position in tab order, wrapping after the last |
| CommitDialog.PrevField | modal.go:283-290 | the previous position in tab order, wrapping before the first |
| CommitDialog.Toggle | modal.go:255-260 | with the file list focused, only the selected file's expansion flips; otherwise nothing changes |
| CommitDialog.Up | modal.go:233-242 | on the file list only the selection moves, up one unless at the first file; from the description the focus moves to the subject with the selection kept; on the subject nothing changes; the dialog stays valid |
| CommitDialog.Down | modal.go:244-253 | on the file list only the selection moves, down one unless at the last file; from the subject the focus moves to the description with the selection kept; on the description nothing changes; the dialog stays valid |
| CommitDialog.Type | modal.go:262-271 | only the focused text field changes; the file list takes no text |
| CommitDialog.Update | modal.go:202-276 | a hidden dialog ignores keys; esc and ctrl+t latch cancel and stash; a commit is latched only with a non-blank subject; only the three choice keys change the choice; the dialog stays valid |
| CommitDialog.TabBackAndForth | modal.go:278-290 | tab then shift+tab, and the reverse, leave the dialog as it was |
| CommitDialog.TabCycle | modal.go:278-281 | three tabs visit every position and return to the start |
| CommitDialog.CommitNeedsSubject | modal.go:217-221 | ctrl+s latches commit exactly when the subject is not blank, and otherwise changes nothing |
| CommitDialog.ToggleTwice | modal.go:255-260 | flipping the selected file twice restores every file's expansion |
| CommitDialog.TextFieldsGetNoBlank | modal.go:255-260 | space and enter never change the subject or the description |
| CommitDialog.DownUp | modal.go:233-248 | down then up returns to the same file when there is a next one |
| CommitDialog.Keys | modal.go:202-276 | after any sequence of keys the focus, the selection and the widget focus stay consistent |
| LogView.NewViewer | main.go:41-50 | empty, following the newest entry, not focused, valid |
| LogView.AddEntry | main.go:227-251 | the entries are the newest 50 of the old ones plus the new one; when scrolled back, the offset moves up one with a dropped entry and stays otherwise; the panel stays valid |
| LogView.AddAll | main.go:227-251 | adding entries one by one keeps the newest 50 of all of them, in order |
| LogView.NewestShown | main.go:244-250 | while following, a new entry is the last line shown |
| LogView.Clear | main.go:253-257 | empty, following again, valid |
| LogView.ScrollUp | main.go:260-265 | one entry up and stop following, unless already at the top |
| LogView.ScrollDown | main.go:267-276 | one entry down unless at the bottom; following resumes exactly on reaching the bottom |
| LogView.UpDown | main.go:260-276 | scrolling up and then down returns to the same offset |
| LogView.ToggleFocus | main.go:278-280 | only the focus flag flips |
| LogView.Window | main.go:292-303 | in a valid panel, the window starts at the offset and shows up to 8 entries; while following it ends at the newest entry |
| LogView.ViewLines | main.go:282-338 | nothing for an empty log, otherwise exactly 8 lines: the window's entries in order, then blank lines |
| LogView.FollowingShowsNewest | main.go:289-334 | while following, the panel shows the newest 8 entries, oldest first, then blank lines |
| App.ParseAuthorFlag | main.go:149-167 | no flag or "mine" gives [mine]; "all" gives [all]; otherwise one name per comma-separated piece, each that piece with its surrounding white space trimmed |
| App.AuthorListRoundTrip | main.go:157-162 | names without commas or border spaces, joined with commas, are read back as the same names |
| App.FlagSelection | main.go:149-167 | the author filter is off exactly when the first name is "all"; the user's identity is looked up exactly when there is no flag or the first name is "mine" |
| App.CheckGuard | main.go:393-428 | refuses when the current branch cannot be read or is the chosen one without its remote marker; asks first exactly when the tree is dirty; otherwise switches |
| App.GuardedSwitch | main.go:393-440 | a switch the guard allows starts from a clean tree and checks out a branch other than the current one |
| App.NoticeText | main.go:467-521 | a text exactly when there is something to report; it starts with "Error: " exactly for a switch from the list that did not happen |
| App.SelectBranch | main.go:563-590 | enter with the cursor past the list does nothing; otherwise the branch under the cursor is chosen, and the list reloads exactly after a switch |
| App.Choose | main.go:563-590 | the dialog opens exactly when the guard asks first; the repository is touched only when the guard allows the switch; the list reloads exactly after a done switch |
| App.SaveThenSwitch | main.go:462-517 | the switch runs only after a done commit or stash, and the notice tells which step failed |
| App.ModalStep | main.go:446-530 | the dialog takes the key; once it holds a choice, the dialog is hidden and cleared; cancel runs nothing and says so; commit and stash save and then switch, with the notice for each outcome; the list reloads only after a full success |
| App.HandleKey | main.go:446-590 | a shown dialog takes every key; otherwise enter selects the branch under the cursor and no other key acts here |
| App.SwitchOnlyAfterSave | main.go:462-517 | from the dialog, no branch is checked out unless the commit or the stash was done first |
| App.CancelRunsNothing | main.go:519-525 | escape runs no command, closes the dialog and reports the cancellation |
| App.OnlyChoicesAct | main.go:450-453 | while the dialog is shown, a key other than the three choices runs nothing and leaves it open |
| App.CommitChoice | main.go:462-489 | ctrl+s with a subject commits first and switches only after a done commit; a failed switch after it is reported as such; the list reloads exactly when both worked |
| App.FailedCommitStays | main.go:462-469 | a failed commit runs no checkout and reports the failure |
| App.StashChoice | main.go:491-517 | ctrl+t stashes under the dialog's branch and switches only after a done stash |
| App.AskThenStash | main.go:423-427 | a remote branch picked from a dirty tree is stashed and switched to under its listed name, remote marker included |

## Left out

- **Rendering.** Rendering of the list and the dialog (`View` in `main.go`
  and `modal.go`, `table.go`, lipgloss styles) is left out. Only the log
  panel's choice of visible entries is modelled.
- **Time.** Time parsing and formatting (`parseGitDate`, `parseTimestamp`,
  the `15:04:05` stamps) are left out. The parsers are opaque parameters of
  `Resolver.Env`, and times are integers.
- **Clock readings for unparsable dates.** The code reads the clock at
  git.go:206 once for every listed line whose date does not parse, in both
  listings (git.go:96 and git.go:106). Each reading is later than the one
  before. The model uses the single reading `Env.listedAt` for all of them.
  Two such branches with no checkout record therefore tie in the model,
  while the code places the one listed later first.
- **Order of the clock readings.** `Env.now` and `Env.listedAt` are
  independent parameters. The model does not require `listedAt` to be at or
  after `now`, so no property depends on that order.
- **Process execution.** A `Runner` answers each command. The errors'
  texts from `exec` are the `describe` and `lookup` parameters of
  `App.NoticeText`.
- **Text widgets.** The bubbles text widgets' editing, the subject's
  72-character limit, cursor movement and widths are left out. How a widget
  changes its text on a key is the `Editor` parameter of
  `CommitDialog.Update`.
- **The other main-screen keys.** Quit, refresh, the log keys and table
  navigation are left out, as are `main`'s other flags and program setup.
  `App.HandleKey` covers the dialog and enter only.
- **Debug logging.** Debug and status logging calls (`logInfo` and the
  like) are not modelled as events of the log panel. The panel itself is
  modelled.
- **Reloading.** Reloading the list after a switch is reported as a flag
  (`Step.reload`), not recomputed, because a `Runner` is one snapshot of
  the repository.
- **Repository check.** The repository check is the single `rev-parse
  --git-dir` command, modelled by its success.
- **Read-only queries.** The commands the switch guard and the resolver
  run (current branch, quiet diffs, listings) are not part of an `Effect`.
  Only write operations list their commands.
- **Bytes versus code points.** Strings are sequences of code points.
  `line[0]`, `line[1]` and `line[2:]` in `GetGitStatus` index bytes; they
  agree with the model whenever the two status columns are ASCII, as git
  prints them.
- WorkTree.ParseInt: does not model 64-bit overflow for numerals longer
  than 18 digits, which git's line counts do not reach.
- Text.Lower: lowercases ASCII letters only, while Go's `strings.ToLower`
  folds every Unicode letter.
- Branches.SortByRecency: promises only a permutation with non-increasing
  times, because `sort.Slice` fixes no order among equal times.
- Resolver.CurrentBranchFirst: asks that every other time be strictly before now. A branch whose time equals now ties with the current branch, and `sort.Slice` fixes no order between them.
- WorkTree.StatusEntries: its own contract states only the length bound
  and the first entry. The position-by-position statement is in
  `WorkTree.EntriesOfLongLines`.
- **Negative counts.** A negative `-n` count is not modelled (the count is
  a `nat`). In Go, `branches[:count]` panics for it.
