/**
 * Branches and their ranking by recency (git.go, `Branch` and the last part of
 * `GetRecentBranches`): every candidate is stamped with its last-used time,
 * the list is sorted most recent first, and it is cut to the requested count.
 *
 * Go's sort.Slice is not stable, so the ranking promises nothing about the
 * order of branches with equal last-used times; the sort below happens to be
 * an insertion sort, and the contracts say only "a permutation, non-increasing".
 */
module Branches {
  import opened Text

  /**
   * A branch as listed by the tool. Times are seconds on one clock. A
   * remote-tracking branch `origin/x` is displayed as `x (remote)`.
   */
  datatype Branch = Branch(
    name: string,
    commitDate: int,
    commitTitle: string,
    lastUsed: int,
    isRemote: bool)

  const RemoteSuffix: string := " (remote)"

  /** The namespace of local branches, and the prefix of the listed remote's branches. */
  const LocalRefs: string := "refs/heads/"
  const RemotePrefix: string := "origin/"

  /** The branch name without the remote display suffix (git.go:139-143, 507-510). */
  function LookupKey(b: Branch): string {
    if b.isRemote then TrimSuffix(b.name, RemoteSuffix) else b.name
  }

  // ------------------------------------------------------------- stamping

  /** The checkout-history time of the branch if known, its commit date otherwise. */
  function LastUsedOf(b: Branch, times: map<string, int>): int {
    var key := LookupKey(b);
    if key in times then times[key] else b.commitDate
  }

  /** Sets every branch's last-used time (git.go:136-152). */
  function Stamp(bs: seq<Branch>, times: map<string, int>): (r: seq<Branch>)
    ensures |r| == |bs|
    ensures forall i :: 0 <= i < |bs| ==> r[i] == bs[i].(lastUsed := LastUsedOf(bs[i], times))
  {
    if |bs| == 0 then [] else [bs[0].(lastUsed := LastUsedOf(bs[0], times))] + Stamp(bs[1..], times)
  }

  // -------------------------------------------------------------- sorting

  predicate SortedByRecency(s: seq<Branch>) {
    forall i, j :: 0 <= i < j < |s| ==> s[i].lastUsed >= s[j].lastUsed
  }

  /** Puts `b` into a recency-sorted list, keeping it sorted. */
  function Insert(b: Branch, s: seq<Branch>): (r: seq<Branch>)
    requires SortedByRecency(s)
    ensures SortedByRecency(r)
    ensures multiset(r) == multiset(s) + multiset{b}
  {
    if |s| == 0 || s[0].lastUsed <= b.lastUsed then
      [b] + s
    else
      var t := Insert(b, s[1..]);
      assert s == [s[0]] + s[1..];
      BelowHead(s, b, t);
      ConsSorted(s[0], t);
      [s[0]] + t
  }

  /** Everything inserted after the head of a sorted list is no more recent than the head. */
  lemma BelowHead(s: seq<Branch>, b: Branch, t: seq<Branch>)
    requires |s| > 0 && SortedByRecency(s) && b.lastUsed <= s[0].lastUsed
    requires multiset(t) == multiset(s[1..]) + multiset{b}
    ensures forall j :: 0 <= j < |t| ==> t[j].lastUsed <= s[0].lastUsed
  {
    forall j | 0 <= j < |t| ensures t[j].lastUsed <= s[0].lastUsed {
      assert t[j] in multiset(t);
      if t[j] != b {
        assert t[j] in s[1..];
      }
    }
  }

  lemma ConsSorted(h: Branch, t: seq<Branch>)
    requires SortedByRecency(t)
    requires forall j :: 0 <= j < |t| ==> t[j].lastUsed <= h.lastUsed
    ensures SortedByRecency([h] + t)
  {
  }

  /**
   * sort.Slice with "LastUsed after" as the less-than (git.go:154-157): a
   * permutation of `s` whose last-used times do not increase.
   */
  function SortByRecency(s: seq<Branch>): (r: seq<Branch>)
    ensures SortedByRecency(r)
    ensures multiset(r) == multiset(s)
  {
    if |s| == 0 then []
    else
      assert s == [s[0]] + s[1..];
      Insert(s[0], SortByRecency(s[1..]))
  }

  /** The first `count` elements, or all of them when there are fewer (git.go:159-162). */
  function Take(s: seq<Branch>, count: nat): (r: seq<Branch>)
    ensures |r| == if |s| > count then count else |s|
    ensures r == s[..|r|]
  {
    if |s| > count then s[..count] else s
  }

  /**
   * The ranking applied to the branches that survived filtering: stamped,
   * sorted most recent first, cut to `count`.
   */
  function Rank(bs: seq<Branch>, times: map<string, int>, count: nat): (r: seq<Branch>)
    ensures |r| == if |bs| > count then count else |bs|
    ensures SortedByRecency(r)
    ensures multiset(r) <= multiset(Stamp(bs, times))
    ensures count == 0 ==> r == []
  {
    var sorted := SortByRecency(Stamp(bs, times));
    var r := Take(sorted, count);
    PrefixRest(sorted, |r|);
    SortedPrefix(sorted, |r|);
    r
  }

  // --------------------------------------------------------------- lemmas

  /**
   * The ranking is a top-`count` selection: every stamped branch it leaves
   * out was used no later than every branch it keeps.
   */
  lemma RankIsTopK(bs: seq<Branch>, times: map<string, int>, count: nat)
    ensures var st := Stamp(bs, times); var r := Rank(bs, times, count);
      forall x: Branch, j :: x in multiset(st) - multiset(r) && 0 <= j < |r| ==> x.lastUsed <= r[j].lastUsed
  {
    var st := Stamp(bs, times);
    var sorted := SortByRecency(st);
    var r := Rank(bs, times, count);
    var k := |r|;
    assert r == sorted[..k];
    PrefixRest(sorted, k);
    forall x: Branch, j | x in multiset(st) - multiset(r) && 0 <= j < |r|
      ensures x.lastUsed <= r[j].lastUsed
    {
      assert x in multiset(sorted[k..]);
      LaterNoMoreRecent(sorted, k, x, j);
    }
  }

  lemma SortedPrefix(s: seq<Branch>, k: nat)
    requires SortedByRecency(s) && k <= |s|
    ensures SortedByRecency(s[..k])
  {
  }

  /** A sequence is its first `k` elements plus the rest, as multisets. */
  lemma PrefixRest(s: seq<Branch>, k: nat)
    requires k <= |s|
    ensures multiset(s) - multiset(s[..k]) == multiset(s[k..])
  {
    assert s == s[..k] + s[k..];
  }

  /** In a recency-sorted list, what follows position `k` is no more recent than what precedes it. */
  lemma LaterNoMoreRecent(s: seq<Branch>, k: nat, x: Branch, j: nat)
    requires SortedByRecency(s) && k <= |s| && j < k
    requires x in multiset(s[k..])
    ensures x.lastUsed <= s[j].lastUsed
  {
    assert x in s[k..];
    var m :| 0 <= m < |s| - k && s[k..][m] == x;
    assert s[k + m] == x;
  }

  /** Every ranked branch is a candidate carrying its stamped last-used time. */
  lemma RankedFromCandidates(bs: seq<Branch>, times: map<string, int>, count: nat, j: nat)
    requires j < |Rank(bs, times, count)|
    ensures exists i :: 0 <= i < |bs| && Rank(bs, times, count)[j] == bs[i].(lastUsed := LastUsedOf(bs[i], times))
  {
    var r := Rank(bs, times, count);
    var st := Stamp(bs, times);
    assert r[j] in multiset(r);
    assert r[j] in multiset(st);
    assert r[j] in st;
    var i :| 0 <= i < |st| && st[i] == r[j];
  }

  /**
   * If the branches keyed `current` are the only candidates whose last-used
   * time reaches `now`, and one of them is a candidate, the ranking starts
   * with one of them (unless nothing is asked for).
   */
  lemma CurrentRanksFirst(bs: seq<Branch>, times: map<string, int>, count: nat, current: string, now: int)
    requires current in times && times[current] == now
    requires exists i :: 0 <= i < |bs| && LookupKey(bs[i]) == current
    requires forall i :: 0 <= i < |bs| && LookupKey(bs[i]) != current ==> LastUsedOf(bs[i], times) < now
    requires count > 0
    ensures |Rank(bs, times, count)| > 0
    ensures LookupKey(Rank(bs, times, count)[0]) == current
    ensures Rank(bs, times, count)[0].lastUsed == now
  {
    var st := Stamp(bs, times);
    var sorted := SortByRecency(st);
    var r := Rank(bs, times, count);
    var c :| 0 <= c < |bs| && LookupKey(bs[c]) == current;
    assert st[c].lastUsed == now;
    assert st[c] in multiset(sorted);
    var m :| 0 <= m < |sorted| && sorted[m] == st[c];
    assert sorted[0].lastUsed >= now;
    assert r[0] == sorted[0];
    RankedFromCandidates(bs, times, count, 0);
    var i :| 0 <= i < |bs| && r[0] == bs[i].(lastUsed := LastUsedOf(bs[i], times));
    assert LookupKey(r[0]) == LookupKey(bs[i]);
  }
}
