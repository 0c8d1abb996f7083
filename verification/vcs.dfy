/**
 * The version-control commands the tool issues, and what it sees of them.
 *
 * Every command is one `git` invocation, named by a `Command` value whose
 * argument vector `Argv` gives. A `Runner` answers a command with what it
 * printed on standard output and whether it exited successfully; it stands
 * for one snapshot of the repository. The write operations report the
 * commands they ran, so the order of the commands and the commands that were
 * NOT run can be stated.
 */
module Vcs {

  /** The git invocations of the core, one constructor per distinct argument vector. */
  datatype Command =
    | GitDir                                  // rev-parse --git-dir
    | UserEmail                               // config user.email
    | UserName                                // config user.name
    | Reflog                                  // reflog of checkouts, `selector|subject|time`
    | CurrentBranch                           // rev-parse --abbrev-ref HEAD
    | RootCommits                             // rev-list --max-parents=0 HEAD
    | ForEachRef(refPath: string)             // refs under a path, `name|date|subject`
    | MergeBase(base: string, branch: string)
    | AuthorLog(range: string)                // `email|name` of each commit in a range
    | Status                                  // status --porcelain=v1
    | Numstat(path: string, staged: bool)     // diff --numstat [--cached] path
    | Diff(path: string, staged: bool)        // diff [--cached] path
    | DiffQuiet(staged: bool)                 // diff [--cached] --quiet
    | AddAll                                  // add -A
    | Commit(message: string)                 // commit -m message
    | StashPush(message: string)              // stash push -m message
    | ShowRef(ref: string)                    // show-ref --verify --quiet ref
    | CheckoutTracking(branch: string, start: string)  // checkout -b branch start
    | CheckoutBranch(branch: string)          // checkout branch

  /** The arguments handed to `git` for each command. */
  function Argv(c: Command): seq<string> {
    match c
    case GitDir => ["rev-parse", "--git-dir"]
    case UserEmail => ["config", "user.email"]
    case UserName => ["config", "user.name"]
    case Reflog => ["reflog", "--all", "--grep-reflog=checkout:", "--format=%gd|%gs|%gt"]
    case CurrentBranch => ["rev-parse", "--abbrev-ref", "HEAD"]
    case RootCommits => ["rev-list", "--max-parents=0", "HEAD"]
    case ForEachRef(refPath) =>
      ["for-each-ref", "--sort=-committerdate",
       "--format=%(refname:short)|%(committerdate:iso8601)|%(contents:subject)", refPath]
    case MergeBase(base, branch) => ["merge-base", base, branch]
    case AuthorLog(range) => ["log", "--format=%ae|%an", range]
    case Status => ["status", "--porcelain=v1"]
    case Numstat(path, staged) => if staged then ["diff", "--numstat", "--cached", path] else ["diff", "--numstat", path]
    case Diff(path, staged) => if staged then ["diff", "--cached", path] else ["diff", path]
    case DiffQuiet(staged) => if staged then ["diff", "--cached", "--quiet"] else ["diff", "--quiet"]
    case AddAll => ["add", "-A"]
    case Commit(message) => ["commit", "-m", message]
    case StashPush(message) => ["stash", "push", "-m", message]
    case ShowRef(ref) => ["show-ref", "--verify", "--quiet", ref]
    case CheckoutTracking(branch, start) => ["checkout", "-b", branch, start]
    case CheckoutBranch(branch) => ["checkout", branch]
  }

  /** Standard output of a command (kept even when it failed) and its success. */
  datatype RunResult = RunResult(stdout: string, ok: bool)

  type Runner = Command -> RunResult

  /** Failures of the write operations and of the status query. */
  datatype GitError =
    | StatusFailed
    | StageFailed
    | CommitFailed
    | StashFailed
    | CreateBranchFailed(branch: string)
    | CheckoutFailed(branch: string)

  datatype Outcome = Done | Failed(error: GitError)

  /** The outcome of a write operation and the commands it ran, in order. */
  datatype Effect = Effect(outcome: Outcome, issued: seq<Command>)

  /** No command at all: what a cancelled or refused action amounts to. */
  const Nothing: Effect := Effect(Done, [])

  /** Runs `second` only when `first` succeeded; the commands accumulate. */
  function Then(first: Effect, second: Effect): (r: Effect)
    ensures first.outcome.Failed? ==> r == first
    ensures first.outcome.Done? ==> r.outcome == second.outcome
    ensures first.outcome.Done? ==> r.issued == first.issued + second.issued
  {
    if first.outcome.Failed? then first
    else Effect(second.outcome, first.issued + second.issued)
  }

  /**
   * Chaining groups freely: running `a`, then `b`, then `c` is the same
   * effect however the steps are grouped, and `Nothing` changes nothing on
   * either side.
   */
  lemma ThenAssociative(a: Effect, b: Effect, c: Effect)
    ensures Then(Then(a, b), c) == Then(a, Then(b, c))
  {
    if a.outcome.Done? && b.outcome.Done? {
      assert a.issued + b.issued + c.issued == a.issued + (b.issued + c.issued);
    }
  }

  lemma NothingIsUnit(e: Effect)
    ensures Then(Nothing, e) == e
    ensures Then(e, Nothing) == e
  {
    assert [] + e.issued == e.issued;
    assert e.issued + [] == e.issued;
  }
}
