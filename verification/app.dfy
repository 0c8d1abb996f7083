/**
 * The main screen's part in switching branches (main.go:149-167, 393-590):
 * reading the author flag, the guard in front of a switch, and what the
 * screen does with the choice made in the commit dialog. A step reports the
 * dialog afterwards, the status line message, the repository commands it ran
 * and whether the branch list is loaded again.
 */
module App {
  import opened Results
  import opened Text
  import opened Vcs
  import opened Branches
  import opened Resolver
  import opened WorkTree
  import opened Actions
  import opened CommitDialog

  // ---------------------------------------------------------- author flag

  const Mine: string := "mine"
  const Everyone: string := "all"
  const AuthorSeparator: string := ","

  /**
   * The `-author` flag (main.go:149-167): none or "mine" means the user's
   * own branches, "all" means every branch, anything else is a comma
   * separated list of names, each taken without surrounding white space.
   */
  function ParseAuthorFlag(flag: string): (r: seq<string>)
    ensures |r| >= 1
    ensures flag == "" || flag == Mine ==> r == [Mine]
    ensures flag == Everyone ==> r == [Everyone]
    ensures flag !in {"", Mine, Everyone} ==> |r| == |Split(flag, AuthorSeparator)|
    ensures flag !in {"", Mine, Everyone} ==>
      forall i :: 0 <= i < |r| ==> r[i] == TrimSpace(Split(flag, AuthorSeparator)[i])
    ensures forall i :: 0 <= i < |r| ==> IsName(r[i])
  {
    KeywordsAreNames();
    if flag == "" || flag == Mine then [Mine]
    else if flag == Everyone then [Everyone]
    else TrimAll(Split(flag, AuthorSeparator))
  }

  /** A single author name: no comma, and no white space at either end. */
  predicate IsName(a: string) {
    !Contains(a, AuthorSeparator) && (a == [] || (!IsSpace(a[0]) && !IsSpace(a[|a| - 1])))
  }

  lemma KeywordsAreNames()
    ensures IsName(Mine) && IsName(Everyone)
  {
    MineIsName();
    EveryoneIsName();
  }

  lemma MineIsName()
    ensures IsName(Mine)
  {
    AbsentChar(Mine, ',');
    assert Mine[0] == 'm' && Mine[3] == 'e';
  }

  lemma EveryoneIsName()
    ensures IsName(Everyone)
  {
    AbsentChar(Everyone, ',');
    assert Everyone[0] == 'a' && Everyone[2] == 'l';
  }

  /** Each piece without its surrounding white space. */
  function TrimAll(parts: seq<string>): (r: seq<string>)
    requires forall i :: 0 <= i < |parts| ==> !Contains(parts[i], AuthorSeparator)
    ensures |r| == |parts|
    ensures forall i :: 0 <= i < |r| ==> r[i] == TrimSpace(parts[i])
    ensures forall i :: 0 <= i < |r| ==> IsName(r[i])
    ensures forall i :: 0 <= i < |r| && IsName(parts[i]) ==> r[i] == parts[i]
  {
    var r := seq(|parts|, i requires 0 <= i < |parts| => TrimSpace(parts[i]));
    assert forall i :: 0 <= i < |r| ==> IsName(r[i]) by {
      forall i | 0 <= i < |r| ensures IsName(r[i]) {
        TrimmedIsName(parts[i]);
      }
    }
    r
  }

  /** A piece without a comma, trimmed, is a name. */
  lemma TrimmedIsName(s: string)
    requires !Contains(s, AuthorSeparator)
    ensures IsName(TrimSpace(s))
  {
    TrimKeepsOut(s, AuthorSeparator);
  }

  /** Trimming cannot bring in a string that was not there. */
  lemma TrimKeepsOut(s: string, sub: string)
    requires !Contains(s, sub)
    ensures !Contains(TrimSpace(s), sub)
  {
    var t := TrimLeftSpace(s);
    assert SliceAt(t, s, |s| - |t|);
    NotInSlice(s, t, sub, |s| - |t|);
    var r := TrimRightSpace(t);
    assert SliceAt(r, t, 0);
    NotInSlice(t, r, sub, 0);
  }

  /** What occurs nowhere in `s` occurs nowhere in a slice of it. */
  lemma NotInSlice(s: string, t: string, sub: string, k: int)
    requires forall j :: !OccursAt(s, sub, j)
    requires SliceAt(t, s, k)
    ensures forall j :: !OccursAt(t, sub, j)
  {
    assert forall i :: 0 <= i < |t| ==> t[i] == s[k..k + |t|][i];
    forall j | 0 <= j && j + |sub| <= |t| ensures !OccursAt(t, sub, j) {
      var inT, inS := t[j..j + |sub|], s[k + j..k + j + |sub|];
      assert forall m :: 0 <= m < |sub| ==> inT[m] == inS[m];
      assert inT == inS;
      assert !OccursAt(s, sub, k + j);
    }
  }

  /**
   * A list of names without commas or surrounding white space, written with
   * commas between them, is read back as the same names (unless it reads as
   * one of the two keywords or as no flag at all).
   */
  lemma AuthorListRoundTrip(names: seq<string>)
    requires |names| >= 1
    requires forall i :: 0 <= i < |names| ==> IsName(names[i])
    requires Join(names, AuthorSeparator) !in {"", Mine, Everyone}
    ensures ParseAuthorFlag(Join(names, AuthorSeparator)) == names
  {
    SplitJoin(names, AuthorSeparator);
  }

  /**
   * How the flag sets up the branch filter of the listing: the filter is off
   * exactly when the first listed name is "all" (so "all,bob" lists every
   * branch), and the user's own identity is asked for exactly when there is
   * no flag or the first listed name is "mine".
   */
  lemma FlagSelection(flag: string)
    ensures var authors := ParseAuthorFlag(flag);
      var first := TrimSpace(Split(flag, AuthorSeparator)[0]);
      && (FilterActive(authors) <==> first != Everyone)
      && (WantsMine(authors) <==> flag == "" || first == Mine)
  {
    if flag in {"", Mine, Everyone} {
      KeywordFirst(flag);
    } else {
      assert ParseAuthorFlag(flag)[0] == TrimSpace(Split(flag, AuthorSeparator)[0]);
    }
  }

  /** Each keyword (and no flag) is a single piece that reads as itself. */
  lemma KeywordFirst(flag: string)
    requires flag in {"", Mine, Everyone}
    ensures TrimSpace(Split(flag, AuthorSeparator)[0]) == flag
  {
    KeywordsAreNames();
    SplitAbsent(flag, ',');
  }

  // --------------------------------------------------------------- guard

  /** What `switchToBranch` decides before it changes anything (main.go:393-440). */
  datatype Guard =
    | LookupFailed
    | AlreadyOn(current: string)
    | AskFirst
    | Switch(effect: Effect)

  /**
   * switchToBranch (main.go:393-440): refuses when the current branch cannot
   * be read or when the chosen branch, without its remote marker, is the
   * current one; asks first (by opening the dialog) when there are
   * uncommitted changes; switches otherwise.
   */
  function CheckGuard(run: Runner, name: string): (r: Guard)
    ensures r.LookupFailed? <==> !run(CurrentBranch).ok
    ensures r.AlreadyOn? <==> run(CurrentBranch).ok && TrimSuffix(name, RemoteSuffix) == TrimSpace(run(CurrentBranch).stdout)
    ensures r.AlreadyOn? ==> r.current == TrimSpace(run(CurrentBranch).stdout)
    ensures r.AskFirst? <==> run(CurrentBranch).ok && TrimSuffix(name, RemoteSuffix) != TrimSpace(run(CurrentBranch).stdout) && IsDirty(run)
    ensures r.Switch? ==> r.effect == SwitchToBranch(run, name)
  {
    var current := run(CurrentBranch);
    if !current.ok then LookupFailed
    else if TrimSuffix(name, RemoteSuffix) == TrimSpace(current.stdout) then AlreadyOn(TrimSpace(current.stdout))
    else if IsDirty(run) then AskFirst
    else Switch(SwitchToBranch(run, name))
  }

  /** A switch the guard lets through checks out another branch than the current one, from a clean tree. */
  lemma GuardedSwitch(run: Runner, name: string)
    requires CheckGuard(run, name).Switch?
    ensures !IsDirty(run)
    ensures var issued := CheckGuard(run, name).effect.issued;
      && CheckedOut(issued[|issued| - 1]).Some?
      && CheckedOut(issued[|issued| - 1]).value != TrimSpace(run(CurrentBranch).stdout)
  {
  }

  // ------------------------------------------------------------- notices

  /** What is being saved before a switch the dialog allowed. */
  datatype Saving = Committing | Stashing

  /** The status line after a step; `Quiet` leaves it as it was. */
  datatype Notice =
    | Quiet
    | LookupError
    | AlreadyOnBranch(branch: string)
    | SwitchError(error: GitError)
    | SwitchedTo(name: string)
    | SaveFailed(how: Saving, error: GitError)
    | SwitchAfterSaveFailed(how: Saving, error: GitError)
    | SavedAndSwitched(how: Saving, target: string)
    | Cancelled

  const ErrorPrefix: string := "Error: "

  /**
   * The message text (main.go:471-524, 567-574). `describe` gives the text
   * of an operation's error and `lookup` that of the failed current branch
   * lookup. The texts that start with "Error: " are exactly those of a switch
   * from the branch list that did not happen.
   */
  function NoticeText(n: Notice, describe: GitError -> string, lookup: string): (r: Option<string>)
    ensures r.None? <==> n.Quiet?
    ensures r.Some? ==> (HasPrefix(r.value, ErrorPrefix) <==> n.LookupError? || n.AlreadyOnBranch? || n.SwitchError?)
  {
    match n
    case Quiet => None
    case LookupError => Some(Error("failed to get current branch: " + lookup))
    case AlreadyOnBranch(b) => Some(Error("already on branch '" + b + "'"))
    case SwitchError(e) => Some(Error(describe(e)))
    case SwitchedTo(name) => Some(Other("Switched to branch: ", name))
    case SaveFailed(how, e) => Some(SavingText(n, describe))
    case SwitchAfterSaveFailed(how, e) => Some(SavingText(n, describe))
    case SavedAndSwitched(how, target) => Some(SavingText(n, describe))
    case Cancelled => Some(Other("Branch switch cancelled", ""))
  }

  /** The texts after the dialog's commit or stash (main.go:471-516). */
  function SavingText(n: Notice, describe: GitError -> string): (r: string)
    requires n.SaveFailed? || n.SwitchAfterSaveFailed? || n.SavedAndSwitched?
    ensures !HasPrefix(r, ErrorPrefix)
  {
    var committing := n.how.Committing?;
    match n
    case SaveFailed(_, e) =>
      Other(if committing then "Commit failed: " else "Stash failed: ", describe(e))
    case SwitchAfterSaveFailed(_, e) =>
      Other(if committing then "Commit succeeded but branch switch failed: "
            else "Stash succeeded but branch switch failed: ", describe(e))
    case SavedAndSwitched(_, target) =>
      Other(if committing then "Committed changes and switched to: "
            else "Stashed changes and switched to: ", target)
  }

  /** An error's text behind the error marker. */
  function Error(rest: string): (r: string)
    ensures HasPrefix(r, ErrorPrefix)
  {
    assert (ErrorPrefix + rest)[..|ErrorPrefix|] == ErrorPrefix;
    ErrorPrefix + rest
  }

  /** A fixed phrase other than an error's, followed by `rest`. */
  function Other(phrase: string, rest: string): (r: string)
    requires |phrase| > 0 && phrase[0] != 'E'
    ensures !HasPrefix(r, ErrorPrefix)
  {
    assert (phrase + rest)[0] == phrase[0];
    phrase + rest
  }

  // ---------------------------------------------------------------- steps

  /** One event of the main screen, as far as switching is concerned. */
  datatype Step = Step(dialog: Dialog, notice: Notice, effect: Effect, reload: bool)

  /** The branch list is loaded again after exactly these notices. */
  predicate Switched(n: Notice) {
    n.SwitchedTo? || n.SavedAndSwitched?
  }

  /**
   * Enter on the branch list (main.go:563-590): the branch under the cursor
   * goes through the guard. A refused switch or a failed checkout is
   * reported as an error; uncommitted changes open the dialog for the branch
   * as it is listed, remote marker included, and nothing else happens; a
   * done switch is reported and the list loaded again.
   */
  function SelectBranch(d: Dialog, branches: seq<Branch>, cursor: nat, run: Runner): (r: Step)
    requires !d.visible
    ensures cursor >= |branches| ==> r == Step(d, Quiet, Nothing, false)
    ensures cursor < |branches| ==> r == Choose(d, branches[cursor].name, run)
    ensures r.reload <==> Switched(r.notice)
  {
    if cursor >= |branches| then Step(d, Quiet, Nothing, false)
    else Choose(d, branches[cursor].name, run)
  }

  /**
   * Enter on the branch `name`: the dialog opens exactly when the guard
   * asks first, the repository is touched only when the guard lets the
   * switch through, and the list is loaded again only after a done switch.
   */
  function Choose(d: Dialog, name: string, run: Runner): (r: Step)
    ensures r.dialog == if CheckGuard(run, name).AskFirst? then Show(d, name, run) else d
    ensures r.effect == if CheckGuard(run, name).Switch? then CheckGuard(run, name).effect else Nothing
    ensures r.reload <==> Switched(r.notice)
    ensures r.reload <==> CheckGuard(run, name).Switch? && r.effect.outcome.Done?
    ensures r.notice == Quiet <==> CheckGuard(run, name).AskFirst?
  {
    Decide(d, Show(d, name, run), name, CheckGuard(run, name))
  }

  /** The step for a decided guard, with `shown` the dialog to show when asking first. */
  function Decide(d: Dialog, shown: Dialog, name: string, guard: Guard): (r: Step)
    ensures r.dialog == if guard.AskFirst? then shown else d
    ensures r.effect == if guard.Switch? then guard.effect else Nothing
    ensures r.reload <==> Switched(r.notice)
    ensures r.reload <==> guard.Switch? && r.effect.outcome.Done?
    ensures r.notice == Quiet <==> guard.AskFirst?
  {
    match guard
      case LookupFailed => Step(d, LookupError, Nothing, false)
      case AlreadyOn(current) => Step(d, AlreadyOnBranch(current), Nothing, false)
      case AskFirst => Step(shown, Quiet, Nothing, false)
      case Switch(e) =>
        if e.outcome.Done? then Step(d, SwitchedTo(name), e, true)
        else Step(d, SwitchError(e.outcome.error), e, false)
  }

  /** Saves the work as the dialog chose, then switches only if the save was done. */
  function SaveThenSwitch(how: Saving, u: Dialog, run: Runner): (r: (Notice, Effect))
    ensures var save := if how.Committing? then CommitChanges(run, u.subject, u.description)
      else StashChanges(run, u.target);
      && r.1 == Then(save, SwitchToBranch(run, u.target))
      && (save.outcome.Failed? ==> r.0 == SaveFailed(how, save.outcome.error))
      && (save.outcome.Done? && r.1.outcome.Failed? ==> r.0 == SwitchAfterSaveFailed(how, r.1.outcome.error))
      && (r.1.outcome.Done? ==> r.0 == SavedAndSwitched(how, u.target))
  {
    var save := if how.Committing? then CommitChanges(run, u.subject, u.description) else StashChanges(run, u.target);
    var all := Then(save, SwitchToBranch(run, u.target));
    if save.outcome.Failed? then (SaveFailed(how, save.outcome.error), all)
    else if all.outcome.Failed? then (SwitchAfterSaveFailed(how, all.outcome.error), all)
    else (SavedAndSwitched(how, u.target), all)
  }

  /**
   * A key while the dialog is shown (main.go:446-530): the dialog takes the
   * key; once it holds a choice, the choice is carried out and the dialog
   * hidden. Commit and stash save the work and switch to the dialog's branch
   * only if that worked, loading the list again after a full success; cancel
   * runs nothing.
   */
  function ModalStep(d: Dialog, key: string, edit: Editor, run: Runner): (r: Step)
    requires Valid(d) && d.visible
    ensures Valid(r.dialog) && r.dialog.action == NoAction
    ensures var u := Update(d, key, edit);
      && (u.action == NoAction ==> r == Step(u, Quiet, Nothing, false))
      && (u.action != NoAction ==> r.dialog == Hide(u) && r.notice != Quiet)
      && (u.action == CancelAction ==> r.effect == Nothing && r.notice == Cancelled)
      && (u.action == CommitAction ==> (r.notice, r.effect) == SaveThenSwitch(Committing, u, run))
      && (u.action == StashAction ==> (r.notice, r.effect) == SaveThenSwitch(Stashing, u, run))
    ensures r.reload <==> Switched(r.notice)
    ensures r.reload ==> r.effect.outcome.Done?
  {
    CarryOut(Update(d, key, edit), run)
  }

  /** Carries out the choice the dialog `u` holds, if any. */
  function CarryOut(u: Dialog, run: Runner): (r: Step)
    requires Valid(u)
    ensures u.action != NoAction ==> Valid(r.dialog) && r.dialog.action == NoAction
    ensures u.action == NoAction ==> r == Step(u, Quiet, Nothing, false)
    ensures u.action != NoAction ==> r.dialog == Hide(u) && r.notice != Quiet
    ensures u.action == CancelAction ==> r.effect == Nothing && r.notice == Cancelled
    ensures u.action == CommitAction ==> (r.notice, r.effect) == SaveThenSwitch(Committing, u, run)
    ensures u.action == StashAction ==> (r.notice, r.effect) == SaveThenSwitch(Stashing, u, run)
    ensures r.reload <==> Switched(r.notice)
    ensures r.reload ==> r.effect.outcome.Done?
  {
    match u.action
    case NoAction => Step(u, Quiet, Nothing, false)
    case CancelAction => Step(Hide(u), Cancelled, Nothing, false)
    case CommitAction =>
      var (notice, effect) := SaveThenSwitch(Committing, u, run);
      Step(Hide(u), notice, effect, notice.SavedAndSwitched?)
    case StashAction =>
      var (notice, effect) := SaveThenSwitch(Stashing, u, run);
      Step(Hide(u), notice, effect, notice.SavedAndSwitched?)
  }

  /**
   * A key on the main screen: the dialog, when shown, takes every key
   * (main.go:450); otherwise enter selects the branch under the cursor. The
   * screen's other keys are not part of this model.
   */
  function HandleKey(d: Dialog, key: string, branches: seq<Branch>, cursor: nat, edit: Editor, run: Runner): (r: Step)
    requires Valid(d) && d.action == NoAction
    ensures Valid(r.dialog) && r.dialog.action == NoAction
    ensures r.reload <==> Switched(r.notice)
    ensures !d.visible && key != KeyEnter ==> r == Step(d, Quiet, Nothing, false)
    ensures d.visible ==> r == ModalStep(d, key, edit, run)
    ensures !d.visible && key == KeyEnter ==> r == SelectBranch(d, branches, cursor, run)
  {
    if d.visible then ModalStep(d, key, edit, run)
    else if key == KeyEnter then SelectBranch(d, branches, cursor, run)
    else Step(d, Quiet, Nothing, false)
  }

  // --------------------------------------------------------------- lemmas

  /** Whatever the dialog's choice, no branch is checked out unless the work was saved first. */
  lemma SwitchOnlyAfterSave(d: Dialog, key: string, edit: Editor, run: Runner, i: nat)
    requires Valid(d) && d.visible
    requires var r := ModalStep(d, key, edit, run); i < |r.effect.issued| && CheckedOut(r.effect.issued[i]).Some?
    ensures var u := Update(d, key, edit);
      || (u.action == CommitAction && CommitChanges(run, u.subject, u.description).outcome.Done?)
      || (u.action == StashAction && StashChanges(run, u.target).outcome.Done?)
  {
  }

  /** Escape in the dialog runs nothing, closes it and says so. */
  lemma CancelRunsNothing(d: Dialog, edit: Editor, run: Runner)
    requires Valid(d) && d.visible
    ensures var r := ModalStep(d, KeyCancel, edit, run);
      && r.effect.issued == [] && r.notice == Cancelled && !r.dialog.visible && !r.reload
  {
  }

  /**
   * While the dialog is shown, a key other than the three choices runs
   * nothing and leaves it open; in particular enter toggles a file instead
   * of selecting a branch.
   */
  lemma OnlyChoicesAct(d: Dialog, key: string, edit: Editor, run: Runner)
    requires Valid(d) && d.visible && d.action == NoAction
    requires key !in {KeyCancel, KeyCommit, KeyStash}
    ensures var r := ModalStep(d, key, edit, run);
      && r.effect == Nothing && r.dialog.visible && r.notice == Quiet && !r.reload
  {
  }

  /** A failed commit runs no checkout and is reported as such. */
  lemma FailedCommitStays(d: Dialog, edit: Editor, run: Runner)
    requires Valid(d) && d.visible && !AllSpace(d.subject)
    requires CommitChanges(run, d.subject, d.description).outcome.Failed?
    ensures var r := ModalStep(d, KeyCommit, edit, run);
      && r.notice == SaveFailed(Committing, CommitChanges(run, d.subject, d.description).outcome.error)
      && r.effect == CommitChanges(run, d.subject, d.description)
      && !r.reload && !r.dialog.visible
  {
  }

  /**
   * Ctrl+s in the shown dialog with a subject that is not blank: the commit
   * comes first, the switch to the dialog's branch follows only a done
   * commit, a failed switch after it is reported as such, and the list is
   * loaded again only if both worked.
   */
  lemma CommitChoice(e: Dialog, edit: Editor, run: Runner)
    requires Valid(e) && e.visible && !AllSpace(e.subject)
    ensures var r := ModalStep(e, KeyCommit, edit, run);
      var commit := CommitChanges(run, e.subject, e.description);
      && r.effect == Then(commit, SwitchToBranch(run, e.target))
      && (commit.outcome.Done? && SwitchToBranch(run, e.target).outcome.Failed? ==>
            r.notice == SwitchAfterSaveFailed(Committing, SwitchToBranch(run, e.target).outcome.error))
      && (r.reload <==> commit.outcome.Done? && SwitchToBranch(run, e.target).outcome.Done?)
      && (r.reload ==> r.notice == SavedAndSwitched(Committing, e.target))
      && !r.dialog.visible
  {
  }

  /**
   * Ctrl+t in the shown dialog: the stash is labelled with the dialog's
   * branch, the switch to that branch follows only a done stash, and the
   * list is loaded again only if both worked.
   */
  lemma StashChoice(e: Dialog, edit: Editor, run: Runner)
    requires Valid(e) && e.visible
    ensures var r := ModalStep(e, KeyStash, edit, run);
      && r.effect == Then(StashChanges(run, e.target), SwitchToBranch(run, e.target))
      && (r.reload <==> run(StashPush(StashLabel(e.target))).ok && SwitchToBranch(run, e.target).outcome.Done?)
      && !r.dialog.visible
  {
  }

  /**
   * Choosing a branch with uncommitted changes and then stashing: the dialog
   * is opened for the branch as listed (a remote one with its marker), so the
   * stash is labelled with that name and the switch goes to it.
   */
  lemma AskThenStash(d: Dialog, branches: seq<Branch>, cursor: nat, edit: Editor, run: Runner)
    requires Valid(d) && !d.visible
    requires cursor < |branches| && CheckGuard(run, branches[cursor].name).AskFirst?
    ensures var asked := SelectBranch(d, branches, cursor, run);
      && asked.dialog == Show(d, branches[cursor].name, run)
      && asked.effect == Nothing
      && ModalStep(asked.dialog, KeyStash, edit, run).effect
         == Then(StashChanges(run, branches[cursor].name), SwitchToBranch(run, branches[cursor].name))
  {
    var shown := Show(d, branches[cursor].name, run);
    StashChoice(shown, edit, run);
  }
}
