/**
 * The debug log panel of the main screen (main.go:24-50, 227-338): a
 * bounded list of log entries shown eight at a time, which follows the
 * newest entry until the user scrolls up and again once the user scrolls
 * back to the bottom.
 */
module LogView {
  import opened Results

  datatype Level = Debug | Info | Error | Success

  /** A log entry; the timestamp is seconds on the clock that stamped it. */
  datatype Entry = Entry(level: Level, message: string, time: int)

  datatype Viewer = Viewer(entries: seq<Entry>, offset: int, focused: bool, autoScroll: bool)

  const MaxVisible: nat := 8
  const MaxEntries: nat := 50

  /** The largest offset that still fills the panel; 0 while everything fits. */
  function MaxScroll(v: Viewer): nat {
    if |v.entries| > MaxVisible then |v.entries| - MaxVisible else 0
  }

  /**
   * What holds of the panel between events: at most `MaxEntries` entries,
   * the offset between the top and the bottom, and at the bottom while
   * following the newest entry.
   */
  predicate Valid(v: Viewer) {
    && |v.entries| <= MaxEntries
    && 0 <= v.offset <= MaxScroll(v)
    && (v.autoScroll ==> v.offset == MaxScroll(v))
  }

  /** NewLogViewer (main.go:41-50): empty, following, not focused. */
  function NewViewer(): (v: Viewer)
    ensures Valid(v) && |v.entries| == 0 && v.autoScroll && !v.focused
  {
    Viewer([], 0, false, true)
  }

  /** The last `n` elements of `s`, or all of them when there are fewer. */
  function Last(s: seq<Entry>, n: nat): (r: seq<Entry>)
    ensures |r| == if |s| <= n then |s| else n
    ensures r == s[|s| - |r|..]
  {
    if |s| <= n then s else s[|s| - n..]
  }

  /**
   * addLogEntry (main.go:227-251): appends the entry; past `MaxEntries` the
   * oldest entry goes and the offset moves up with the entries; while
   * following, the offset moves to the bottom.
   */
  function AddEntry(v: Viewer, e: Entry): (r: Viewer)
    requires Valid(v)
    ensures Valid(r)
    ensures r.entries == Last(v.entries + [e], MaxEntries)
    ensures r.autoScroll == v.autoScroll && r.focused == v.focused
    ensures !v.autoScroll ==> r.offset == (if |v.entries| == MaxEntries && v.offset > 0 then v.offset - 1 else v.offset)
  {
    var appended := v.entries + [e];
    var kept := if |appended| > MaxEntries then appended[1..] else appended;
    var offset := if |appended| > MaxEntries && v.offset > 0 then v.offset - 1 else v.offset;
    var bottom := |kept| - MaxVisible;
    var offset' := if v.autoScroll && bottom > 0 then bottom else offset;
    Viewer(kept, offset', v.focused, v.autoScroll)
  }

  /** clearLogs (main.go:253-257): empty, at the top, following again. */
  function Clear(v: Viewer): (r: Viewer)
    ensures Valid(r) && |r.entries| == 0 && r.autoScroll && r.focused == v.focused
  {
    Viewer([], 0, v.focused, true)
  }

  /** ScrollUp (main.go:260-265): one entry up, if not at the top, and stop following. */
  function ScrollUp(v: Viewer): (r: Viewer)
    requires Valid(v)
    ensures Valid(r) && r.entries == v.entries
    ensures v.offset > 0 ==> r.offset == v.offset - 1 && !r.autoScroll
    ensures v.offset == 0 ==> r == v
  {
    if v.offset > 0 then v.(offset := v.offset - 1, autoScroll := false) else v
  }

  /** ScrollDown (main.go:267-276): one entry down, if not at the bottom; reaching the bottom resumes following. */
  function ScrollDown(v: Viewer): (r: Viewer)
    requires Valid(v)
    ensures Valid(r) && r.entries == v.entries
    ensures v.offset < MaxScroll(v) ==> r.offset == v.offset + 1 && (r.autoScroll <==> r.offset == MaxScroll(v))
    ensures v.offset == MaxScroll(v) ==> r == v
  {
    var bottom := |v.entries| - MaxVisible;
    if bottom > 0 && v.offset < bottom then
      var offset := v.offset + 1;
      v.(offset := offset, autoScroll := if offset == bottom then true else v.autoScroll)
    else v
  }

  /** ToggleFocus (main.go:278-280). */
  function ToggleFocus(v: Viewer): (r: Viewer)
    ensures r.focused != v.focused && r.(focused := v.focused) == v
  {
    v.(focused := !v.focused)
  }

  /**
   * The entries View shows (main.go:289-301): from the offset, at most
   * `MaxVisible` of them; an offset past the end shows the last page.
   */
  function Window(v: Viewer): (r: (nat, nat))
    ensures r.0 <= r.1 <= |v.entries| && r.1 - r.0 <= MaxVisible
    ensures Valid(v) ==> r.0 == v.offset && r.1 - r.0 == (if |v.entries| < MaxVisible then |v.entries| else MaxVisible)
    ensures Valid(v) && v.autoScroll ==> r.1 == |v.entries|
  {
    var start := v.offset;
    var end := if start + MaxVisible > |v.entries| then |v.entries| else start + MaxVisible;
    if start >= |v.entries| then
      var last := |v.entries| - MaxVisible;
      (if last < 0 then 0 else last, if end < 0 then 0 else end)
    else
      (if start < 0 then 0 else start, if end < 0 then 0 else end)
  }

  /**
   * The panel's lines (main.go:289-334): nothing but a placeholder when the
   * log is empty; otherwise the window's entries padded with blank lines to
   * `MaxVisible` lines.
   */
  function ViewLines(v: Viewer): (r: seq<Option<Entry>>)
    ensures |v.entries| == 0 ==> r == []
    ensures |v.entries| > 0 ==> |r| == MaxVisible
    ensures |v.entries| > 0 ==> var w := Window(v);
      && (forall i :: 0 <= i < w.1 - w.0 ==> r[i] == Some(v.entries[w.0 + i]))
      && (forall i :: w.1 - w.0 <= i < |r| ==> r[i].None?)
    ensures forall i :: 0 <= i < |r| && r[i].Some? ==> r[i].value in v.entries
  {
    if |v.entries| == 0 then []
    else
      var (start, end) := Window(v);
      var shown := seq(end - start, i requires 0 <= i < end - start => Some(v.entries[start + i]));
      shown + seq(MaxVisible - (end - start), _ => None)
  }

  // --------------------------------------------------------------- lemmas

  /** Adding entries one by one keeps the newest `MaxEntries` of them, in order. */
  function AddAll(v: Viewer, es: seq<Entry>): (r: Viewer)
    requires Valid(v)
    ensures Valid(r)
    ensures r.entries == Last(v.entries + es, MaxEntries)
    decreases |es|
  {
    if |es| == 0 then
      assert v.entries + es == v.entries;
      v
    else
      var next := AddEntry(v, es[0]);
      var r := AddAll(next, es[1..]);
      AddAllStep(v.entries, es);
      r
  }

  /** Adding the first entry, cutting, then adding the rest is adding them all. */
  lemma AddAllStep(prior: seq<Entry>, es: seq<Entry>)
    requires |es| > 0
    ensures Last(Last(prior + [es[0]], MaxEntries) + es[1..], MaxEntries) == Last(prior + es, MaxEntries)
  {
    LastOfLast(prior + [es[0]], es[1..]);
    assert prior + [es[0]] + es[1..] == prior + es;
  }

  /** Cutting to the last `MaxEntries` before appending more does not change the final cut. */
  lemma LastOfLast(a: seq<Entry>, b: seq<Entry>)
    ensures Last(Last(a, MaxEntries) + b, MaxEntries) == Last(a + b, MaxEntries)
  {
    var la := Last(a, MaxEntries);
    var x := Last(la + b, MaxEntries);
    var y := Last(a + b, MaxEntries);
    assert |x| == |y|;
    forall i | 0 <= i < |x| ensures x[i] == y[i] {
      var k := |la + b| - |x| + i;
      var m := |a + b| - |y| + i;
      assert x[i] == (la + b)[k];
      assert y[i] == (a + b)[m];
      if k < |la| {
        assert (la + b)[k] == a[|a| - |la| + k];
      }
    }
  }

  /** While following, a new entry is shown: it is the last line of the window. */
  lemma NewestShown(v: Viewer, e: Entry)
    requires Valid(v) && v.autoScroll
    ensures var r := AddEntry(v, e); var (start, end) := Window(r);
      start < end && r.entries[end - 1] == e
  {
  }

  /**
   * While following, the panel shows the newest `MaxVisible` entries, oldest
   * first, and then blank lines.
   */
  lemma FollowingShowsNewest(v: Viewer)
    requires Valid(v) && v.autoScroll && |v.entries| > 0
    ensures var r := ViewLines(v); var newest := Last(v.entries, MaxVisible);
      && (forall i :: 0 <= i < |newest| ==> r[i] == Some(newest[i]))
      && (forall i :: |newest| <= i < |r| ==> r[i].None?)
  {
    var w := Window(v);
    assert w.1 == |v.entries| && w.1 - w.0 == |Last(v.entries, MaxVisible)|;
  }

  /** Scrolling up and back down returns to the same place. */
  lemma UpDown(v: Viewer)
    requires Valid(v) && v.offset > 0
    ensures ScrollDown(ScrollUp(v)).offset == v.offset
    ensures ScrollDown(ScrollUp(v)).entries == v.entries
  {
  }
}
