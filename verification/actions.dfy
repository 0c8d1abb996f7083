/**
 * The operations that change the repository (git.go:424-490): committing
 * everything, stashing it, and checking a listed branch out. Each reports
 * the commands it ran; a command that is not reached is not run.
 */
module Actions {
  import opened Results
  import opened Text
  import opened Vcs
  import opened Branches

  // -------------------------------------------------------------- commit

  /**
   * The commit message (git.go:431-437): the subject, followed by a blank
   * line and the description when the description is not blank.
   */
  function CommitMessage(subject: string, description: string): (m: string)
    ensures HasPrefix(m, subject)
    ensures AllSpace(description) <==> m == subject
  {
    if !AllSpace(description) then subject + "\n\n" + description else subject
  }

  const Paragraph: string := "\n\n"

  /** Reads a message back as its first line and the body after the first blank line. */
  function ReadMessage(m: string): (r: (string, string))
    ensures IndexOf(m, Paragraph).None? ==> r == (m, "")
    ensures IndexOf(m, Paragraph).Some? ==> r.0 + Paragraph + r.1 == m
  {
    match IndexOf(m, Paragraph)
    case None => (m, "")
    case Some(i) =>
      CutAt(m, Paragraph, i);
      (m[..i], m[i + 2..])
  }

  /**
   * A one-line subject and its description are read back from the message:
   * a blank description comes back as nothing.
   */
  lemma MessageRoundTrip(subject: string, description: string)
    requires '\n' !in subject
    ensures ReadMessage(CommitMessage(subject, description)) == (subject, if AllSpace(description) then "" else description)
  {
    var m := CommitMessage(subject, description);
    if AllSpace(description) {
      forall j | 0 <= j ensures !OccursAt(m, Paragraph, j) {
        if 0 <= j < |m| {
          assert m[j] != '\n';
        }
      }
    } else {
      assert OccursAt(m, Paragraph, |subject|) by {
        assert m[|subject|..|subject| + 2] == Paragraph;
      }
      forall j | 0 <= j < |subject| ensures !OccursAt(m, Paragraph, j) {
        assert m[j] == subject[j];
      }
      assert IndexOf(m, Paragraph) == Some(|subject|);
      assert m[..|subject|] == subject;
      assert m[|subject| + 2..] == description;
    }
  }

  /**
   * CommitChanges (git.go:424-446): stage everything, then commit with the
   * message. When staging fails nothing is committed.
   */
  function CommitChanges(run: Runner, subject: string, description: string): (r: Effect)
    ensures |r.issued| >= 1 && r.issued[0] == AddAll
    ensures r.outcome == Failed(StageFailed) <==> !run(AddAll).ok
    ensures !run(AddAll).ok ==> r.issued == [AddAll]
    ensures run(AddAll).ok ==> r.issued == [AddAll, Commit(CommitMessage(subject, description))]
    ensures r.outcome.Done? <==> run(AddAll).ok && run(Commit(CommitMessage(subject, description))).ok
    ensures r.outcome.Failed? ==> r.outcome.error in {StageFailed, CommitFailed}
  {
    var stage := Effect(if run(AddAll).ok then Done else Failed(StageFailed), [AddAll]);
    var commit := Commit(CommitMessage(subject, description));
    Then(stage, Effect(if run(commit).ok then Done else Failed(CommitFailed), [commit]))
  }

  // --------------------------------------------------------------- stash

  const StashPrefix: string := "WIP: changes before switching to "

  /** The stash message naming the branch about to be checked out (git.go:450). */
  function StashLabel(branch: string): (m: string)
    ensures HasPrefix(m, StashPrefix)
  {
    TrimPrefixPrepended(StashPrefix, branch);
    StashPrefix + branch
  }

  /** The branch a stash message names, if it is one of ours. */
  function StashTarget(message: string): (r: Option<string>)
    ensures r.Some? <==> HasPrefix(message, StashPrefix)
    ensures r.Some? ==> StashLabel(r.value) == message
  {
    if HasPrefix(message, StashPrefix) then Some(TrimPrefix(message, StashPrefix)) else None
  }

  /** The stash message names the branch: it is read back, so different branches get different messages. */
  lemma StashLabelRoundTrip(branch: string)
    ensures StashTarget(StashLabel(branch)) == Some(branch)
  {
    TrimPrefixPrepended(StashPrefix, branch);
  }

  /** StashChanges (git.go:448-458): one stash push labelled with the target branch. */
  function StashChanges(run: Runner, branch: string): (r: Effect)
    ensures r.issued == [StashPush(StashLabel(branch))]
    ensures r.outcome.Done? <==> run(StashPush(StashLabel(branch))).ok
    ensures r.outcome.Failed? ==> r.outcome.error == StashFailed
  {
    var push := StashPush(StashLabel(branch));
    Effect(if run(push).ok then Done else Failed(StashFailed), [push])
  }

  // -------------------------------------------------------------- switch

  /** The branch a command checks out, if it is a checkout. */
  function CheckedOut(c: Command): Option<string> {
    match c
    case CheckoutTracking(branch, _) => Some(branch)
    case CheckoutBranch(branch) => Some(branch)
    case _ => None
  }

  /**
   * SwitchToBranch (git.go:460-490). A displayed remote name `x (remote)` is
   * checked out as `x`: when no local branch `x` exists it is created from
   * `origin/x`, otherwise the local one is checked out. Any other name is
   * checked out as it is. The last command run is the checkout, and the
   * outcome is that of the checkout.
   */
  function SwitchToBranch(run: Runner, name: string): (r: Effect)
    ensures 1 <= |r.issued| <= 2
    ensures var last := r.issued[|r.issued| - 1];
      && CheckedOut(last) == Some(TrimSuffix(name, RemoteSuffix))
      && (r.outcome.Done? <==> run(last).ok)
    ensures forall i :: 0 <= i < |r.issued| - 1 ==> CheckedOut(r.issued[i]).None?
    ensures (exists i :: 0 <= i < |r.issued| && r.issued[i].CheckoutTracking?) <==>
      HasSuffix(name, RemoteSuffix) && !run(ShowRef(LocalRefs + TrimSuffix(name, RemoteSuffix))).ok
    ensures r.outcome.Failed? ==>
      r.outcome.error in {CreateBranchFailed(TrimSuffix(name, RemoteSuffix)), CheckoutFailed(TrimSuffix(name, RemoteSuffix))}
    ensures forall i :: 0 <= i < |r.issued| && r.issued[i].CheckoutTracking? ==>
      r.issued[i].start == RemotePrefix + r.issued[i].branch
    ensures |r.issued| == 2 <==> HasSuffix(name, RemoteSuffix)
    ensures |r.issued| == 2 ==> r.issued[0] == ShowRef(LocalRefs + TrimSuffix(name, RemoteSuffix))
    ensures var last := r.issued[|r.issued| - 1];
      && (last.CheckoutTracking? && r.outcome.Failed? ==> r.outcome.error == CreateBranchFailed(last.branch))
      && (last.CheckoutBranch? && r.outcome.Failed? ==> r.outcome.error == CheckoutFailed(last.branch))
  {
    var branch := TrimSuffix(name, RemoteSuffix);
    var local := CheckoutBranch(branch);
    var switchLocal := Effect(if run(local).ok then Done else Failed(CheckoutFailed(branch)), [local]);
    if HasSuffix(name, RemoteSuffix) then
      var check := ShowRef(LocalRefs + branch);
      if !run(check).ok then
        var create := CheckoutTracking(branch, RemotePrefix + branch);
        Effect(if run(create).ok then Done else Failed(CreateBranchFailed(branch)), [check, create])
      else
        Effect(switchLocal.outcome, [check, local])
    else
      switchLocal
  }

  /**
   * A listed branch is checked out under its lookup key: a remote branch
   * shown as `x (remote)` as `x`, a local branch under its own name.
   */
  lemma SwitchChecksOutKey(run: Runner, b: Branch)
    requires b.isRemote <==> HasSuffix(b.name, RemoteSuffix)
    ensures var r := SwitchToBranch(run, b.name);
      CheckedOut(r.issued[|r.issued| - 1]) == Some(LookupKey(b))
  {
  }

  /**
   * Choosing the remote entry of a branch that also exists locally is the
   * same as choosing the local branch, apart from the existence check.
   */
  lemma RemoteWithLocalCopy(run: Runner, branch: string)
    requires !HasSuffix(branch, RemoteSuffix)
    requires run(ShowRef(LocalRefs + branch)).ok
    ensures var viaRemote := SwitchToBranch(run, branch + RemoteSuffix);
      && viaRemote.outcome == SwitchToBranch(run, branch).outcome
      && viaRemote.issued == [ShowRef(LocalRefs + branch)] + SwitchToBranch(run, branch).issued
  {
    TrimSuffixAppended(branch, RemoteSuffix);
  }
}
