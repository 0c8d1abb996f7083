/**
 * The branch recency resolver (git.go, `GetRecentBranches` and its helpers
 * `getBranchInfo`, `branchHasAuthorCommits`, `findMergeBase`): checkout
 * history gives each branch the last time it was checked out, the current
 * branch is forced to "now", local and (optionally) remote branches are
 * listed, filtered by commit author, stamped, ranked and cut to a count.
 */
module Resolver {
  import opened Results
  import opened Text
  import opened Vcs
  import opened Branches

  /**
   * The clock and the two time parsers, kept abstract: `parseReflogTime`
   * stands for git.go's parseTimestamp and `parseCommitDate` for
   * parseGitDate; `None` is a parse failure. Two clock readings: `now`
   * stamps the current branch (git.go:92), and `listedAt` is the one reading
   * that stands for every fallback date of a branch listing, which the code
   * takes afresh for each line whose date does not parse (git.go:206).
   */
  datatype Env = Env(
    now: int,
    listedAt: int,
    parseReflogTime: string -> Option<int>,
    parseCommitDate: string -> Option<int>)

  datatype ResolveError =
    | NotInRepository
    | CurrentUserUnavailable
    | ReflogUnavailable
    | BranchListUnavailable(refPath: string)

  const RemoteRefs: string := "refs/remotes/"
  const CheckoutMarker: string := "checkout: moving from"
  const ToMarker: string := " to "

  // ------------------------------------------------------ checkout history

  datatype Checkout = Checkout(target: string, time: int)

  /**
   * One reflog record `selector|subject|time` (git.go:56-86): a checkout
   * subject yields the target after the first " to " and the parsed time;
   * anything else is skipped.
   */
  function ReflogCheckout(line: string, parseTime: string -> Option<int>): (r: Option<Checkout>)
    ensures var parts := SplitN(line, "|", 3);
      (|parts| != 3 || !Contains(parts[1], ToMarker) || parseTime(parts[2]).None?) ==> r.None?
    ensures r.Some? ==> var parts := SplitN(line, "|", 3);
      |parts| == 3 && Contains(parts[1], CheckoutMarker) && parseTime(parts[2]) == Some(r.value.time)
  {
    var parts := SplitN(line, "|", 3);
    if line == "" || |parts| != 3 then None
    else if !Contains(parts[1], CheckoutMarker) || !Contains(parts[1], ToMarker) then None
    else
      match parseTime(parts[2])
      case None => None
      case Some(t) => Some(Checkout(TrimSpace(Split(parts[1], ToMarker)[1]), t))
  }

  /** The reflog record, as git prints it, of a checkout from `source` to `target`. */
  function CheckoutRecord(selector: string, source: string, target: string, stamp: string): string {
    selector + "|" + CheckoutSubject(source, target) + "|" + stamp
  }

  function CheckoutSubject(source: string, target: string): string {
    CheckoutMarker + " " + source + ToMarker + target
  }

  /**
   * A record whose subject starts with the checkout marker and whose first
   * " to " is followed by `target` and no other " to " reads as a checkout of
   * `target`, trimmed, at the parsed time.
   */
  lemma ReadCheckoutSubject(selector: string, head: string, target: string, stamp: string,
                            parseTime: string -> Option<int>)
    requires '|' !in selector && '|' !in head + ToMarker + target
    requires HasPrefix(head, CheckoutMarker)
    requires IndexOf(head + ToMarker + target, ToMarker) == Some(|head|)
    requires !Contains(target, ToMarker)
    requires parseTime(stamp).Some?
    ensures ReflogCheckout(selector + "|" + (head + ToMarker + target) + "|" + stamp, parseTime)
      == Some(Checkout(TrimSpace(target), parseTime(stamp).value))
  {
    var subject := head + ToMarker + target;
    SplitNThree(selector, '|', subject, stamp);
    assert subject[..|CheckoutMarker|] == CheckoutMarker;
    OccursContains(subject, CheckoutMarker, 0);
    SplitAfterFirst(head, ToMarker, target);
    assert Split(target, ToMarker) == [target];
  }

  /**
   * A checkout record gives back its target and its parsed time, provided the
   * selector and both branch names are free of `|`, the branch names are
   * free of white space, and the source branch is not called "to": for that
   * one name the first " to " of the subject is the one after "from", and the
   * target read is "to " followed by the real target.
   */
  lemma ReflogCheckoutRoundTrip(selector: string, source: string, target: string, stamp: string,
                                parseTime: string -> Option<int>)
    requires '|' !in selector && '|' !in source && '|' !in target
    requires NoSpace(source) && NoSpace(target) && source != "to"
    requires parseTime(stamp).Some?
    ensures ReflogCheckout(CheckoutRecord(selector, source, target, stamp), parseTime)
      == Some(Checkout(target, parseTime(stamp).value))
  {
    var head := CheckoutMarker + " " + source;
    assert HasPrefix(head, CheckoutMarker);
    ToMarkerAfterSource(source, target);
    NoMarkerInWord(target);
    ReadCheckoutSubject(selector, head, target, stamp, parseTime);
  }

  /** In `checkout: moving from X to Y` the first " to " follows X, unless X is "to". */
  lemma ToMarkerAfterSource(source: string, target: string)
    requires NoSpace(source) && source != "to"
    ensures IndexOf(CheckoutMarker + " " + source + ToMarker + target, ToMarker)
      == Some(|CheckoutMarker| + 1 + |source|)
  {
    var head := CheckoutMarker + " " + source;
    var s := head + ToMarker + target;
    assert s[..21] == CheckoutMarker;
    assert s[21] == ' ';
    assert s[22..22 + |source|] == source;
    assert OccursAt(s, ToMarker, |head|) by {
      assert s[|head|..|head| + 4] == ToMarker;
    }
    MarkerFreeHead(s);
    forall j | 21 <= j < |head| ensures !OccursAt(s, ToMarker, j) {
      if j + 4 <= |s| {
        var w := s[j..j + 4];
        assert w[0] == s[j] && w[1] == s[j + 1] && w[2] == s[j + 2] && w[3] == s[j + 3];
        if j > 21 {
          assert s[j] == source[j - 22];
        } else if |source| >= 3 {
          assert s[24] == source[2];
        } else if |source| == 2 {
          assert s[22] == source[0] && s[23] == source[1];
          assert source == [source[0], source[1]];
        } else if |source| == 1 {
          assert s[23] == ' ';
        } else {
          assert s[22] == ' ';
        }
      }
    }
  }

  /** " to " does not start inside "checkout: moving from". */
  lemma MarkerFreeHead(s: string)
    requires |s| >= 22 && s[..22] == CheckoutMarker + " "
    ensures forall j :: 0 <= j <= 20 ==> !OccursAt(s, ToMarker, j)
  {
    forall j | 0 <= j <= 20 ensures !OccursAt(s, ToMarker, j) {
      if j + 4 <= |s| {
        HeadLetter(j);
        assert s[j] == (CheckoutMarker + " ")[j] == CheckoutMarker[j];
        assert s[j + 1] == (CheckoutMarker + " ")[j + 1];
        assert s[j..j + 4][0] == s[j] && s[j..j + 4][1] == s[j + 1];
      }
    }
  }

  /** In "checkout: moving from" no space is followed by a 't'. */
  lemma HeadLetter(j: int)
    requires 0 <= j <= 20
    ensures CheckoutMarker[j] != ' ' || (j < 20 && CheckoutMarker[j + 1] != 't')
  {
    assert j == 0 || j == 1 || j == 2 || j == 3 || j == 4 || j == 5 || j == 6 || j == 7 || j == 8 || j == 9 || j == 10
      || j == 11 || j == 12 || j == 13 || j == 14 || j == 15 || j == 16 || j == 17 || j == 18 || j == 19 || j == 20;
  }

  /** With nothing between "from" and " to ", the first " to " is right after "from". */
  lemma FirstMarkerAfterHead(rest: string)
    ensures IndexOf(CheckoutMarker + ToMarker + rest, ToMarker) == Some(|CheckoutMarker|)
  {
    var s := CheckoutMarker + ToMarker + rest;
    assert s[..22] == CheckoutMarker + " ";
    MarkerFreeHead(s);
    assert s[21..25] == ToMarker;
    assert OccursAt(s, ToMarker, |CheckoutMarker|);
  }

  /**
   * The misreading for a source branch called "to": the record of a checkout
   * from "to" to `target` is read as a checkout of "to " + `target`, a
   * branch name that cannot exist, so the real target gets no time from it.
   */
  lemma ReflogSourceNamedTo(selector: string, target: string, stamp: string, parseTime: string -> Option<int>)
    requires '|' !in selector && '|' !in target
    requires NoSpace(target) && target != ""
    requires parseTime(stamp).Some?
    ensures ReflogCheckout(CheckoutRecord(selector, "to", target, stamp), parseTime)
      == Some(Checkout("to " + target, parseTime(stamp).value))
  {
    var rest := "to " + target;
    assert HasPrefix(CheckoutMarker, CheckoutMarker);
    assert '|' !in CheckoutMarker + ToMarker + rest;
    SubjectFromTo(target);
    FirstMarkerAfterHead(rest);
    NoMarkerAfterTo(target);
    ReadCheckoutSubject(selector, CheckoutMarker, rest, stamp, parseTime);
  }

  lemma SubjectFromTo(target: string)
    ensures CheckoutSubject("to", target) == CheckoutMarker + ToMarker + ("to " + target)
  {
  }

  /** "to " followed by a non-empty word holds no " to " and no border space. */
  lemma NoMarkerAfterTo(target: string)
    requires NoSpace(target) && target != ""
    ensures !Contains("to " + target, ToMarker)
    ensures TrimSpace("to " + target) == "to " + target
  {
    var rest := "to " + target;
    forall j | 0 <= j && j + 4 <= |rest| ensures !OccursAt(rest, ToMarker, j) {
      MarkerNotAt(rest, target, j);
    }
    NoBorderSpace(rest, target);
  }

  lemma NoBorderSpace(rest: string, target: string)
    requires NoSpace(target) && target != "" && rest == "to " + target
    ensures TrimSpace(rest) == rest
  {
    assert !IsSpace(rest[0]) by {
      assert rest[0] == 't';
    }
    assert !IsSpace(rest[|rest| - 1]) by {
      assert rest[|rest| - 1] == target[|target| - 1];
    }
  }

  lemma MarkerNotAt(rest: string, target: string, j: nat)
    requires NoSpace(target) && rest == "to " + target && j + 4 <= |rest|
    ensures rest[j..j + 4] != ToMarker
  {
    var w := rest[j..j + 4];
    if j == 2 {
      assert w[3] == rest[5] == target[2];
    } else if j < 2 {
      assert w[0] == rest[j] && (j == 0 || j == 1);
    } else {
      assert w[0] == rest[j] == target[j - 3];
    }
  }

  /** A string without white space holds no " to ". */
  lemma NoMarkerInWord(w: string)
    requires NoSpace(w)
    ensures !Contains(w, ToMarker)
  {
    forall j | 0 <= j && j + 4 <= |w| ensures !OccursAt(w, ToMarker, j) {
      assert w[j..j + 4][0] == w[j];
    }
  }

  /** The checkout records of the lines, one per line, `None` for a skipped line. */
  function ReflogRecords(lines: seq<string>, parseTime: string -> Option<int>): (r: seq<Option<Checkout>>)
    ensures |r| == |lines|
    ensures forall i :: 0 <= i < |lines| ==> r[i] == ReflogCheckout(lines[i], parseTime)
  {
    seq(|lines|, i requires 0 <= i < |lines| => ReflogCheckout(lines[i], parseTime))
  }

  /** The keys of `m` are exactly the targets of the checkouts in `records`. */
  ghost predicate KeysAreTargets(m: map<string, int>, records: seq<Option<Checkout>>) {
    forall k :: k in m <==> exists i :: 0 <= i < |records| && records[i].Some? && records[i].value.target == k
  }

  /** No checkout in `records` is later than the time `m` holds for its target. */
  ghost predicate BoundsAll(m: map<string, int>, records: seq<Option<Checkout>>) {
    forall i :: 0 <= i < |records| && records[i].Some? ==>
      records[i].value.target in m && records[i].value.time <= m[records[i].value.target]
  }

  /** Every time in `m` is the time of a checkout of its key in `records`. */
  ghost predicate Attained(m: map<string, int>, records: seq<Option<Checkout>>) {
    forall k :: k in m ==> exists i :: 0 <= i < |records| && records[i] == Some(Checkout(k, m[k]))
  }

  /**
   * The latest time of every checkout target in `records`, folded in order
   * with a later record replacing an earlier one only when strictly later
   * (git.go:81-84): the keys are exactly the targets, and each value is the
   * largest time recorded for its key.
   */
  function LatestTimes(records: seq<Option<Checkout>>): (m: map<string, int>)
    ensures KeysAreTargets(m, records)
    ensures BoundsAll(m, records)
    ensures Attained(m, records)
    decreases |records|
  {
    if |records| == 0 then map[]
    else
      var n := |records| - 1;
      var m := LatestTimes(records[..n]);
      var m' := match records[n]
        case None => m
        case Some(c) => if c.target !in m || c.time > m[c.target] then m[c.target := c.time] else m;
      LatestStep(records, m, m');
      m'
  }

  /** One fold step: `m'` is `m` updated with the last record when it is strictly later. */
  ghost predicate FoldStep(records: seq<Option<Checkout>>, m: map<string, int>, m': map<string, int>)
    requires |records| > 0
  {
    match records[|records| - 1]
    case None => m' == m
    case Some(c) => m' == if c.target !in m || c.time > m[c.target] then m[c.target := c.time] else m
  }

  /** Folding in one more record keeps the three properties of LatestTimes. */
  lemma LatestStep(records: seq<Option<Checkout>>, m: map<string, int>, m': map<string, int>)
    requires |records| > 0 && FoldStep(records, m, m')
    requires var init := records[..|records| - 1];
      KeysAreTargets(m, init) && BoundsAll(m, init) && Attained(m, init)
    ensures KeysAreTargets(m', records) && BoundsAll(m', records) && Attained(m', records)
  {
    var n := |records| - 1;
    assert forall i :: 0 <= i < n ==> records[..n][i] == records[i];
    StepKeys(records, m, m');
    StepBounds(records, m, m');
    StepAttained(records, m, m');
  }

  lemma StepKeys(records: seq<Option<Checkout>>, m: map<string, int>, m': map<string, int>)
    requires |records| > 0 && FoldStep(records, m, m')
    requires KeysAreTargets(m, records[..|records| - 1])
    requires forall i :: 0 <= i < |records| - 1 ==> records[..|records| - 1][i] == records[i]
    ensures KeysAreTargets(m', records)
  {
  }

  lemma StepBounds(records: seq<Option<Checkout>>, m: map<string, int>, m': map<string, int>)
    requires |records| > 0 && FoldStep(records, m, m')
    requires BoundsAll(m, records[..|records| - 1])
    requires forall i :: 0 <= i < |records| - 1 ==> records[..|records| - 1][i] == records[i]
    ensures BoundsAll(m', records)
  {
  }

  lemma StepAttained(records: seq<Option<Checkout>>, m: map<string, int>, m': map<string, int>)
    requires |records| > 0 && FoldStep(records, m, m')
    requires Attained(m, records[..|records| - 1])
    requires forall i :: 0 <= i < |records| - 1 ==> records[..|records| - 1][i] == records[i]
    ensures Attained(m', records)
  {
  }

  /** The checkout times in the reflog output. */
  function ReflogTimes(output: string, parseTime: string -> Option<int>): map<string, int> {
    LatestTimes(ReflogRecords(Lines(output), parseTime))
  }

  /**
   * The last-used table (git.go:52-93): the reflog times, with the current
   * branch, when known, forced to now. No other entry changes.
   */
  function RecencyTimes(reflog: string, current: string, env: Env): (m: map<string, int>)
    ensures current != "" ==> current in m && m[current] == env.now
    ensures forall k :: k != current || current == "" ==>
      (k in m <==> k in ReflogTimes(reflog, env.parseReflogTime))
      && (k in m ==> m[k] == ReflogTimes(reflog, env.parseReflogTime)[k])
  {
    var times := ReflogTimes(reflog, env.parseReflogTime);
    if current != "" then times[current := env.now] else times
  }

  /** The checked-out branch, or "" when it cannot be found (git.go:90, 228-235). */
  function CurrentBranchName(run: Runner): string {
    var o := run(CurrentBranch);
    if o.ok then TrimSpace(o.stdout) else ""
  }

  // ----------------------------------------------------------- ref listing

  /**
   * One for-each-ref record `name|date|subject` (git.go:185-222). A name
   * under `origin/` is a remote branch shown as `x (remote)`; an unparsable
   * date falls back to the clock at listing time. The lookup key of the branch is the ref name
   * without `origin/`.
   */
  function RefBranch(line: string, env: Env): (r: Option<Branch>)
    ensures r.Some? ==> r.value.name != ""
    ensures r.Some? ==> var name := TrimSpace(SplitN(line, "|", 3)[0]);
      && (r.value.isRemote <==> HasPrefix(name, RemotePrefix))
      && (r.value.isRemote ==> RemotePrefix + LookupKey(r.value) == name)
      && (!r.value.isRemote ==> LookupKey(r.value) == name)
    ensures var parts := SplitN(line, "|", 3);
      r.None? <==> line == "" || |parts| != 3 || TrimSpace(parts[0]) == ""
    ensures r.Some? ==> var parts := SplitN(line, "|", 3);
      && |parts| == 3
      && var name := TrimSpace(parts[0]);
      && r.value.name == (if HasPrefix(name, RemotePrefix) then TrimPrefix(name, RemotePrefix) + RemoteSuffix else name)
      && r.value.commitDate == DateOr(env.parseCommitDate(TrimSpace(parts[1])), env.listedAt)
      && r.value.commitTitle == TrimSpace(parts[2])
      && r.value.lastUsed == 0
  {
    var parts := SplitN(line, "|", 3);
    if line == "" || |parts| != 3 then None
    else
      var name := TrimSpace(parts[0]);
      if name == "" then None
      else
        var date := DateOr(env.parseCommitDate(TrimSpace(parts[1])), env.listedAt);
        var isRemote := HasPrefix(name, RemotePrefix);
        var shown := if isRemote then TrimPrefix(name, RemotePrefix) + RemoteSuffix else name;
        TrimSuffixAppended(TrimPrefix(name, RemotePrefix), RemoteSuffix);
        Some(Branch(shown, date, TrimSpace(parts[2]), 0, isRemote))
  }

  /** A parsed date, or `fallback` when it did not parse. */
  function DateOr(parsed: Option<int>, fallback: int): int {
    match parsed
    case Some(t) => t
    case None => fallback
  }

  /**
   * A listed name is marked as remote exactly when it is a remote branch,
   * provided the ref name has no blank in it, as git ref names never do.
   */
  lemma ListedMarker(line: string, env: Env)
    requires RefBranch(line, env).Some? && ' ' !in SplitN(line, "|", 3)[0]
    ensures var b := RefBranch(line, env).value; b.isRemote <==> HasSuffix(b.name, RemoteSuffix)
  {
    var b := RefBranch(line, env).value;
    var parts := SplitN(line, "|", 3);
    var name := TrimSpace(parts[0]);
    if b.isRemote {
      TrimSuffixAppended(TrimPrefix(name, RemotePrefix), RemoteSuffix);
    } else {
      BlankSurvivesTrim(parts[0]);
      MarkerHasBlank(b.name);
    }
  }

  lemma BlankSurvivesTrim(s: string)
    ensures ' ' in TrimSpace(s) ==> ' ' in s
  {
    var r := TrimSpace(s);
    var k :| TrimmedAt(r, s, k);
    assert forall i :: 0 <= i < |r| ==> r[i] == s[k + i];
  }

  lemma MarkerHasBlank(name: string)
    ensures HasSuffix(name, RemoteSuffix) ==> ' ' in name
  {
    if HasSuffix(name, RemoteSuffix) {
      assert name[|name| - |RemoteSuffix|] == RemoteSuffix[0];
    }
  }

  /** The branches of the records that are read: each comes from a line, and no read line is lost. */
  function RefBranches(lines: seq<string>, env: Env): (r: seq<Branch>)
    ensures |r| <= |lines|
    ensures forall j :: 0 <= j < |r| ==> exists i :: 0 <= i < |lines| && RefBranch(lines[i], env) == Some(r[j])
    ensures forall i :: 0 <= i < |lines| && RefBranch(lines[i], env).Some? ==> RefBranch(lines[i], env).value in r
  {
    var opts := RefRecords(lines, env);
    var r := Present(opts);
    forall j | 0 <= j < |r| ensures exists i :: 0 <= i < |lines| && RefBranch(lines[i], env) == Some(r[j]) {
      var i :| 0 <= i < |opts| && opts[i] == Some(r[j]);
      assert RefBranch(lines[i], env) == Some(r[j]);
    }
    r
  }

  /** Each line read as a record, position by position. */
  function RefRecords(lines: seq<string>, env: Env): (r: seq<Option<Branch>>)
    ensures |r| == |lines| && forall i :: 0 <= i < |lines| ==> r[i] == RefBranch(lines[i], env)
  {
    seq(|lines|, i requires 0 <= i < |lines| => RefBranch(lines[i], env))
  }

  /**
   * The listing keeps the order of the lines: the branches of two runs of
   * lines are those of the first run followed by those of the second, and a
   * single line gives its branch or nothing.
   */
  lemma RefBranchesInOrder(a: seq<string>, b: seq<string>, env: Env)
    ensures RefBranches(a + b, env) == RefBranches(a, env) + RefBranches(b, env)
    ensures |a| == 1 ==> RefBranches(a, env) == if RefBranch(a[0], env).Some? then [RefBranch(a[0], env).value] else []
  {
    assert RefRecords(a + b, env) == RefRecords(a, env) + RefRecords(b, env);
    PresentAppend(RefRecords(a, env), RefRecords(b, env));
    if |a| == 1 {
      assert RefRecords(a, env) == [RefBranch(a[0], env)];
      PresentOne(RefBranch(a[0], env));
    }
  }

  /** getBranchInfo (git.go:167-226): the branches under `refPath`, in listing order. */
  function GetBranchInfo(run: Runner, refPath: string, env: Env): (r: Result<seq<Branch>, ResolveError>)
    ensures !run(ForEachRef(refPath)).ok <==> r == Err(BranchListUnavailable(refPath))
    ensures r.Ok? && TrimSpace(run(ForEachRef(refPath)).stdout) == "" ==> r.value == []
    ensures r.Ok? ==> r.value == RefBranches(Lines(run(ForEachRef(refPath)).stdout), env)
  {
    var o := run(ForEachRef(refPath));
    if !o.ok then Err(BranchListUnavailable(refPath))
    else if TrimSpace(o.stdout) == "" then
      LinesOfBlank(o.stdout);
      RefBranchesInOrder([""], [], env);
      Ok([])
    else Ok(RefBranches(Lines(o.stdout), env))
  }

  /** Remote branches; a failing listing contributes none (git.go:105-108). */
  function RemoteBranches(run: Runner, env: Env): seq<Branch> {
    match GetBranchInfo(run, RemoteRefs, env)
    case Ok(bs) => bs
    case Err(_) => []
  }

  // -------------------------------------------------------- author filter

  const BaseBranches: seq<string> := ["main", "master", "develop", "dev"]

  predicate AnswersMergeBase(run: Runner, base: string, branch: string) {
    var o := run(MergeBase(base, branch));
    o.ok && |TrimSpace(o.stdout)| > 0
  }

  /** `bases[i]` is the first of `bases` to answer, and `answer` is its trimmed answer. */
  predicate FirstMergeBase(run: Runner, branch: string, bases: seq<string>, i: int, answer: string) {
    && 0 <= i < |bases|
    && AnswersMergeBase(run, bases[i], branch)
    && (forall j :: 0 <= j < i ==> !AnswersMergeBase(run, bases[j], branch))
    && answer == TrimSpace(run(MergeBase(bases[i], branch)).stdout)
  }

  /**
   * The merge base with the first of `bases` that gives one: it is the
   * trimmed answer of the first base that answers, and there is none when no
   * base answers.
   */
  function MergeBaseFrom(run: Runner, branch: string, bases: seq<string>): (r: Option<string>)
    ensures r.None? <==> forall i :: 0 <= i < |bases| ==> !AnswersMergeBase(run, bases[i], branch)
    ensures r.Some? ==> exists i :: FirstMergeBase(run, branch, bases, i, r.value)
  {
    if |bases| == 0 then None
    else if AnswersMergeBase(run, bases[0], branch) then
      var r := TrimSpace(run(MergeBase(bases[0], branch)).stdout);
      assert FirstMergeBase(run, branch, bases, 0, r);
      Some(r)
    else
      var r := MergeBaseFrom(run, branch, bases[1..]);
      MergeBaseSkip(run, branch, bases);
      if r.Some? then
        var i :| FirstMergeBase(run, branch, bases[1..], i, r.value);
        MergeBaseShift(run, branch, bases, i, r.value);
        r
      else
        r
  }

  /** Skipping a first base that does not answer leaves "no base answers" unchanged. */
  lemma MergeBaseSkip(run: Runner, branch: string, bases: seq<string>)
    requires |bases| > 0 && !AnswersMergeBase(run, bases[0], branch)
    ensures (forall i :: 0 <= i < |bases| ==> !AnswersMergeBase(run, bases[i], branch))
      <==> (forall i :: 0 <= i < |bases[1..]| ==> !AnswersMergeBase(run, bases[1..][i], branch))
  {
    var tail := bases[1..];
    if forall i :: 0 <= i < |tail| ==> !AnswersMergeBase(run, tail[i], branch) {
      forall i | 0 <= i < |bases| ensures !AnswersMergeBase(run, bases[i], branch) {
        if i > 0 { assert bases[i] == tail[i - 1]; }
      }
    }
    if forall i :: 0 <= i < |bases| ==> !AnswersMergeBase(run, bases[i], branch) {
      forall i | 0 <= i < |tail| ensures !AnswersMergeBase(run, tail[i], branch) {
        assert tail[i] == bases[i + 1];
      }
    }
  }

  /** Skipping a first base that does not answer shifts the first answering one by one. */
  lemma MergeBaseShift(run: Runner, branch: string, bases: seq<string>, i: int, answer: string)
    requires |bases| > 0 && !AnswersMergeBase(run, bases[0], branch)
    requires FirstMergeBase(run, branch, bases[1..], i, answer)
    ensures FirstMergeBase(run, branch, bases, i + 1, answer)
  {
    forall j | 0 <= j < i + 1 ensures !AnswersMergeBase(run, bases[j], branch) {
      if j > 0 { assert bases[j] == bases[1..][j - 1]; }
    }
  }

  /**
   * findMergeBase (git.go:594-614): the first of main, master, develop, dev
   * that answers; failing all four, the root commit of HEAD; failing that,
   * nothing.
   */
  function FindMergeBase(run: Runner, branch: string): (r: Option<string>)
    ensures (forall i :: 0 <= i < |BaseBranches| ==> !AnswersMergeBase(run, BaseBranches[i], branch)) ==>
      && (r.Some? <==> run(RootCommits).ok)
      && (r.Some? ==> r.value == TrimSpace(run(RootCommits).stdout))
    ensures (exists i :: 0 <= i < |BaseBranches| && AnswersMergeBase(run, BaseBranches[i], branch)) ==>
      r == MergeBaseFrom(run, branch, BaseBranches) && r.Some?
  {
    match MergeBaseFrom(run, branch, BaseBranches)
    case Some(base) => Some(base)
    case None =>
      var o := run(RootCommits);
      if o.ok then Some(TrimSpace(o.stdout)) else None
  }

  /** One author filter against one commit's e-mail and name (git.go:574-586). */
  predicate AuthorMatches(email: string, name: string, author: string, currentUser: string) {
    if author == "mine" then email == currentUser || name == currentUser
    else Contains(Lower(email), Lower(author)) || Contains(Lower(name), Lower(author))
  }

  /** A log line `email|name` some author filter matches (git.go:558-588). */
  predicate LineMatches(line: string, authors: seq<string>, currentUser: string) {
    var parts := SplitN(line, "|", 2);
    && line != ""
    && |parts| == 2
    && exists a :: a in authors && AuthorMatches(TrimSpace(parts[0]), TrimSpace(parts[1]), a, currentUser)
  }

  predicate IsMainline(b: Branch) {
    LookupKey(b) == "main" || LookupKey(b) == "master"
  }

  /** The ref git commands use for the branch: remote ones under `origin/`. */
  function GitRef(b: Branch): string {
    if b.isRemote then RemotePrefix + LookupKey(b) else LookupKey(b)
  }

  /**
   * branchHasAuthorCommits (git.go:506-592). A branch passes when it is main
   * or master, when its merge base or its log cannot be found, when it has no
   * commit of its own, or when one of its own commits has a matching author;
   * it fails only when every own commit was checked and none matched.
   */
  function BranchHasAuthorCommits(b: Branch, authors: seq<string>, currentUser: string, run: Runner): (r: bool)
    ensures IsMainline(b) ==> r
    ensures FindMergeBase(run, GitRef(b)).None? ==> r
    ensures !r <==>
      && !IsMainline(b)
      && FindMergeBase(run, GitRef(b)).Some?
      && var log := run(AuthorLog(FindMergeBase(run, GitRef(b)).value + ".." + GitRef(b)));
      && log.ok
      && TrimSpace(log.stdout) != ""
      && forall i :: 0 <= i < |Lines(log.stdout)| ==> !LineMatches(Lines(log.stdout)[i], authors, currentUser)
  {
    if IsMainline(b) then true
    else
      match FindMergeBase(run, GitRef(b))
      case None => true
      case Some(base) =>
        var log := run(AuthorLog(base + ".." + GitRef(b)));
        if !log.ok then true
        else if TrimSpace(log.stdout) == "" then true
        else
          var lines := Lines(log.stdout);
          exists i :: 0 <= i < |lines| && LineMatches(lines[i], authors, currentUser)
  }

  /** Filtering runs unless no authors are given or the first one is "all" (git.go:112). */
  predicate FilterActive(authors: seq<string>) {
    |authors| > 0 && authors[0] != "all"
  }

  /** The elements of `bs` for which `keep` holds, in their original order. */
  function KeepIf(bs: seq<Branch>, keep: Branch -> bool): (r: seq<Branch>)
    ensures |r| <= |bs|
    ensures forall b :: b in r <==> b in bs && keep(b)
  {
    if |bs| == 0 then []
    else if keep(bs[0]) then [bs[0]] + KeepIf(bs[1..], keep)
    else KeepIf(bs[1..], keep)
  }

  /** The author filter of git.go:110-134. */
  function FilterByAuthors(bs: seq<Branch>, authors: seq<string>, currentUser: string, run: Runner): (r: seq<Branch>)
    ensures !FilterActive(authors) ==> r == bs
    ensures FilterActive(authors) ==>
      forall b :: b in r <==> b in bs && BranchHasAuthorCommits(b, authors, currentUser, run)
  {
    if FilterActive(authors) then
      KeepIf(bs, b => BranchHasAuthorCommits(b, authors, currentUser, run))
    else bs
  }

  // --------------------------------------------------------------- resolve

  predicate WantsMine(authors: seq<string>) {
    |authors| > 0 && authors[0] == "mine"
  }

  /** GetCurrentUser (git.go:492-504): user.email, else user.name, trimmed. */
  function CurrentUser(run: Runner): (r: Result<string, ResolveError>)
    ensures run(UserEmail).ok ==> r == Ok(TrimSpace(run(UserEmail).stdout))
    ensures !run(UserEmail).ok && run(UserName).ok ==> r == Ok(TrimSpace(run(UserName).stdout))
    ensures r.Err? <==> !run(UserEmail).ok && !run(UserName).ok
  {
    var email := run(UserEmail);
    if email.ok then Ok(TrimSpace(email.stdout))
    else
      var name := run(UserName);
      if name.ok then Ok(TrimSpace(name.stdout)) else Err(CurrentUserUnavailable)
  }

  /** The identity "mine" stands for; only looked up when the first author is "mine". */
  function UserFor(run: Runner, authors: seq<string>): Result<string, ResolveError> {
    if WantsMine(authors) then CurrentUser(run) else Ok("")
  }

  /** Local branches, then (when asked) remote ones, with no de-duplication. */
  function Candidates(local: seq<Branch>, run: Runner, env: Env, includeRemote: bool): seq<Branch> {
    local + (if includeRemote then RemoteBranches(run, env) else [])
  }

  /** The candidates that pass the author filter, in listing order. */
  function Survivors(local: seq<Branch>, run: Runner, env: Env, includeRemote: bool, authors: seq<string>,
                     user: string): seq<Branch>
  {
    FilterByAuthors(Candidates(local, run, env, includeRemote), authors, user, run)
  }

  /**
   * GetRecentBranches (git.go:30-165). Fails when not in a repository, when
   * "mine" is asked for and no identity is configured, when the reflog or the
   * local branch listing cannot be read; otherwise ranks the branches that
   * survive the author filter by last use and keeps at most `count` of them.
   */
  function GetRecentBranches(run: Runner, env: Env, count: nat, includeRemote: bool, authors: seq<string>)
    : (r: Result<seq<Branch>, ResolveError>)
    ensures !run(GitDir).ok ==> r == Err(NotInRepository)
    ensures run(GitDir).ok && UserFor(run, authors).Err? ==> r == Err(CurrentUserUnavailable)
    ensures run(GitDir).ok && UserFor(run, authors).Ok? && !run(Reflog).ok ==> r == Err(ReflogUnavailable)
    ensures run(GitDir).ok && UserFor(run, authors).Ok? && run(Reflog).ok ==>
      (r.Err? <==> !run(ForEachRef(LocalRefs)).ok)
    ensures r.Ok? ==> SortedByRecency(r.value) && |r.value| <= count
    ensures r.Ok? && count == 0 ==> r.value == []
  {
    if !run(GitDir).ok then Err(NotInRepository)
    else
      match UserFor(run, authors)
      case Err(e) => Err(e)
      case Ok(user) => RecentFor(run, env, count, includeRemote, authors, user)
  }

  /** GetRecentBranches once the repository and the user are known: reflog, listing, ranking. */
  function RecentFor(run: Runner, env: Env, count: nat, includeRemote: bool, authors: seq<string>, user: string)
    : (r: Result<seq<Branch>, ResolveError>)
    ensures !run(Reflog).ok ==> r == Err(ReflogUnavailable)
    ensures run(Reflog).ok ==> (r.Err? <==> !run(ForEachRef(LocalRefs)).ok)
    ensures r.Ok? ==> SortedByRecency(r.value) && |r.value| <= count
    ensures r.Ok? && count == 0 ==> r.value == []
  {
    var reflog := run(Reflog);
    if !reflog.ok then Err(ReflogUnavailable)
    else
      match GetBranchInfo(run, LocalRefs, env)
      case Err(e) => Err(e)
      case Ok(local) =>
        Ok(Rank(Survivors(local, run, env, includeRemote, authors, user),
                RecencyTimes(reflog.stdout, CurrentBranchName(run), env), count))
  }

  // --------------------------------------------------------------- lemmas

  /** The filter keeps the enumeration order: filtering a concatenation filters each part. */
  lemma {:induction false} KeepIfAppend(a: seq<Branch>, b: seq<Branch>, keep: Branch -> bool)
    ensures KeepIf(a + b, keep) == KeepIf(a, keep) + KeepIf(b, keep)
    decreases |a|
  {
    if |a| == 0 {
      assert a + b == b;
    } else {
      var head := if keep(a[0]) then [a[0]] else [];
      var t := a[1..];
      assert KeepIf(a + b, keep) == head + KeepIf(t + b, keep) by {
        assert (a + b)[0] == a[0];
        assert (a + b)[1..] == t + b;
      }
      assert KeepIf(a, keep) == head + KeepIf(t, keep);
      KeepIfAppend(t, b, keep);
      assert head + (KeepIf(t, keep) + KeepIf(b, keep)) == (head + KeepIf(t, keep)) + KeepIf(b, keep);
    }
  }

  /** Adding author filters can only let more branches through. */
  lemma MoreAuthorsKeepMore(b: Branch, authors: seq<string>, more: seq<string>, currentUser: string, run: Runner)
    requires BranchHasAuthorCommits(b, authors, currentUser, run)
    ensures BranchHasAuthorCommits(b, authors + more, currentUser, run)
  {
    forall line | LineMatches(line, authors, currentUser) ensures LineMatches(line, authors + more, currentUser) {
      var a :| a in authors && AuthorMatches(TrimSpace(SplitN(line, "|", 2)[0]), TrimSpace(SplitN(line, "|", 2)[1]), a, currentUser);
      assert a in authors + more;
    }
  }

  /**
   * A for-each-ref record `name|date|subject` with a trimmed, non-empty name
   * and no `|` in the name or the date is read as the branch it describes:
   * the commit date is the parsed date (the listing time when it does not parse), the
   * title the trimmed subject, no checkout time yet, and a name `origin/x`
   * becomes the remote branch shown as `x (remote)` and looked up as `x`.
   */
  lemma RefRecordRoundTrip(name: string, date: string, subject: string, env: Env)
    requires name != "" && TrimSpace(name) == name && '|' !in name && '|' !in date
    ensures var r := RefBranch(name + "|" + date + "|" + subject, env);
      && r.Some?
      && r.value.commitTitle == TrimSpace(subject)
      && r.value.commitDate == (if env.parseCommitDate(TrimSpace(date)).Some? then env.parseCommitDate(TrimSpace(date)).value else env.listedAt)
      && r.value.isRemote == HasPrefix(name, RemotePrefix)
      && RemotePrefix + LookupKey(r.value) == (if r.value.isRemote then name else RemotePrefix + name)
      && r.value.name == (if HasPrefix(name, RemotePrefix) then name[|RemotePrefix|..] + RemoteSuffix else name)
      && r.value.lastUsed == 0
  {
    SplitNThree(name, '|', date, subject);
  }

  /**
   * The current branch comes first. When the listing succeeds, a count is
   * asked for, a surviving candidate is the current branch, and every other
   * time involved (checkout times of other branches, commit dates) is before
   * now, the first branch listed is the current one, last used now.
   */
  lemma CurrentBranchFirst(run: Runner, env: Env, count: nat, includeRemote: bool, authors: seq<string>)
    requires GetRecentBranches(run, env, count, includeRemote, authors).Ok?
    requires count > 0
    requires UserFor(run, authors).Ok? && GetBranchInfo(run, LocalRefs, env).Ok?
    requires CurrentLeads(Survivors(GetBranchInfo(run, LocalRefs, env).value, run, env, includeRemote, authors,
                                    UserFor(run, authors).value),
                          run(Reflog).stdout, CurrentBranchName(run), env)
    ensures var r := GetRecentBranches(run, env, count, includeRemote, authors).value;
      |r| > 0 && LookupKey(r[0]) == CurrentBranchName(run) && r[0].lastUsed == env.now
  {
    RecentIsRanking(run, env, count, includeRemote, authors);
    RankedCurrentFirst(Survivors(GetBranchInfo(run, LocalRefs, env).value, run, env, includeRemote, authors,
                                 UserFor(run, authors).value),
                       run(Reflog).stdout, CurrentBranchName(run), env, count);
  }

  /**
   * The situation of `CurrentBranchFirst`: the current branch is known and is
   * among the survivors, every survivor's commit date is before now, and so
   * is every other branch's checkout time.
   */
  ghost predicate CurrentLeads(kept: seq<Branch>, reflog: string, current: string, env: Env) {
    && current != ""
    && (exists i :: 0 <= i < |kept| && LookupKey(kept[i]) == current)
    && (forall i :: 0 <= i < |kept| ==> kept[i].commitDate < env.now)
    && (var times := ReflogTimes(reflog, env.parseReflogTime);
        forall k :: k in times && k != current ==> times[k] < env.now)
  }

  /** The ranking part of `CurrentBranchFirst`, on the survivors and the reflog text alone. */
  lemma RankedCurrentFirst(kept: seq<Branch>, reflog: string, current: string, env: Env, count: nat)
    requires count > 0 && CurrentLeads(kept, reflog, current, env)
    ensures var r := Rank(kept, RecencyTimes(reflog, current, env), count);
      |r| > 0 && LookupKey(r[0]) == current && r[0].lastUsed == env.now
  {
    var times := RecencyTimes(reflog, current, env);
    OthersEarlier(kept, times, ReflogTimes(reflog, env.parseReflogTime), current, env.now);
    CurrentRanksFirst(kept, times, count, current, env.now);
  }

  /** A successful listing is the ranking of the survivors by the last-used table. */
  lemma RecentIsRanking(run: Runner, env: Env, count: nat, includeRemote: bool, authors: seq<string>)
    requires GetRecentBranches(run, env, count, includeRemote, authors).Ok?
    ensures UserFor(run, authors).Ok? && GetBranchInfo(run, LocalRefs, env).Ok?
    ensures GetRecentBranches(run, env, count, includeRemote, authors)
      == Ok(Rank(Survivors(GetBranchInfo(run, LocalRefs, env).value, run, env, includeRemote, authors,
                           UserFor(run, authors).value),
                 RecencyTimes(run(Reflog).stdout, CurrentBranchName(run), env), count))
  {
  }

  /** With the current branch forced to now and every other time before now, only it reaches now. */
  lemma OthersEarlier(kept: seq<Branch>, times: map<string, int>, reflog: map<string, int>, current: string, now: int)
    requires current != "" && current in times && times[current] == now
    requires forall k :: k != current ==> (k in times <==> k in reflog) && (k in times ==> times[k] == reflog[k])
    requires forall k :: k in reflog && k != current ==> reflog[k] < now
    requires forall i :: 0 <= i < |kept| ==> kept[i].commitDate < now
    ensures forall i :: 0 <= i < |kept| && LookupKey(kept[i]) != current ==> LastUsedOf(kept[i], times) < now
  {
  }

}
