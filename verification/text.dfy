/**
 * The Go `strings` operations the branch tool relies on, over strings as
 * sequences of code points: white-space trimming, searching, splitting on a
 * separator, splitting into fields, prefixes and suffixes, ASCII lower case.
 */
module Text {
  import opened Results

  /**
   * Go's unicode.IsSpace: the code points with the White_Space property,
   * written as comparisons: tab through carriage return, space, U+0085,
   * U+00A0, U+1680, U+2000 through U+200A, U+2028, U+2029, U+202F, U+205F
   * and U+3000.
   */
  predicate IsSpace(c: char) {
    || '\t' <= c <= '\r'
    || c == ' ' || c == '\U{0085}' || c == '\U{00A0}' || c == '\U{1680}'
    || '\U{2000}' <= c <= '\U{200A}'
    || c == '\U{2028}' || c == '\U{2029}' || c == '\U{202F}' || c == '\U{205F}' || c == '\U{3000}'
  }

  predicate NoSpace(s: string) {
    forall i :: 0 <= i < |s| ==> !IsSpace(s[i])
  }

  predicate AllSpace(s: string) {
    forall i :: 0 <= i < |s| ==> IsSpace(s[i])
  }

  // ---------------------------------------------------------------- trimming

  /** `r` is the slice of `s` that starts at position `i`. */
  predicate SliceAt(r: string, s: string, i: int) {
    0 <= i && i + |r| <= |s| && r == s[i..i + |r|]
  }

  function TrimLeftSpace(s: string): (r: string)
    ensures |r| <= |s| && r == s[|s| - |r|..]
    ensures forall i :: 0 <= i < |s| - |r| ==> IsSpace(s[i])
    ensures |r| == 0 || !IsSpace(r[0])
  {
    if |s| > 0 && IsSpace(s[0]) then
      var r := TrimLeftSpace(s[1..]);
      assert forall i :: 1 <= i < |s| ==> s[i] == s[1..][i - 1];
      assert s[1..][|s| - 1 - |r|..] == s[|s| - |r|..];
      r
    else s
  }

  function TrimRightSpace(s: string): (r: string)
    ensures |r| <= |s| && r == s[..|r|]
    ensures forall i :: |r| <= i < |s| ==> IsSpace(s[i])
    ensures |r| == 0 || !IsSpace(r[|r| - 1])
  {
    if |s| > 0 && IsSpace(s[|s| - 1]) then
      var r := TrimRightSpace(s[..|s| - 1]);
      assert forall i :: 0 <= i < |s| - 1 ==> s[i] == s[..|s| - 1][i];
      assert s[..|s| - 1][..|r|] == s[..|r|];
      r
    else s
  }

  /**
   * Go's strings.TrimSpace: `s` without its leading and trailing white space.
   * The result neither starts nor ends with white space, it is empty exactly
   * when `s` is all white space, and a string that neither starts nor ends
   * with white space is left as it is.
   */
  function TrimSpace(s: string): (r: string)
    ensures |r| <= |s|
    ensures |r| == 0 || (!IsSpace(r[0]) && !IsSpace(r[|r| - 1]))
    ensures |r| == 0 <==> AllSpace(s)
    ensures |s| == 0 || (!IsSpace(s[0]) && !IsSpace(s[|s| - 1])) ==> r == s
    ensures exists k :: TrimmedAt(r, s, k)
  {
    TrimSlice(s);
    TrimBothFacts(s);
    TrimBorders(s);
    Untrimmed(s);
    TrimRightSpace(TrimLeftSpace(s))
  }

  /** `r` is the slice of `s` at position `k`, with nothing but white space around it. */
  predicate TrimmedAt(r: string, s: string, k: int) {
    SliceAt(r, s, k) && AllSpace(s[..k]) && AllSpace(s[k + |r|..])
  }

  /** Trimming both ends keeps a slice of `s` with only white space around it. */
  lemma TrimSlice(s: string)
    ensures TrimmedAt(TrimRightSpace(TrimLeftSpace(s)), s, |s| - |TrimLeftSpace(s)|)
  {
    var t := TrimLeftSpace(s);
    var r := TrimRightSpace(t);
    SliceOfSuffix(s, t, r);
  }

  /** A prefix `r` of the suffix `t` of `s`, with white space cut from both sides. */
  lemma SliceOfSuffix(s: string, t: string, r: string)
    requires |t| <= |s| && t == s[|s| - |t|..] && forall i :: 0 <= i < |s| - |t| ==> IsSpace(s[i])
    requires |r| <= |t| && r == t[..|r|] && forall i :: |r| <= i < |t| ==> IsSpace(t[i])
    ensures TrimmedAt(r, s, |s| - |t|)
  {
    var k := |s| - |t|;
    assert s[k..k + |r|] == t[..|r|];
    assert s[k + |r|..] == t[|r|..];
  }

  /** Trimming both ends leaves no white space at either end. */
  lemma TrimBorders(s: string)
    ensures var r := TrimRightSpace(TrimLeftSpace(s)); |r| == 0 || (!IsSpace(r[0]) && !IsSpace(r[|r| - 1]))
  {
    var t := TrimLeftSpace(s);
    var r := TrimRightSpace(t);
    assert |r| == 0 || r[0] == t[0];
  }

  /** Nothing is trimmed from a string that neither starts nor ends with white space. */
  lemma Untrimmed(s: string)
    ensures |s| == 0 || (!IsSpace(s[0]) && !IsSpace(s[|s| - 1])) ==> TrimLeftSpace(s) == s && TrimRightSpace(s) == s
  {
  }

  lemma TrimBothFacts(s: string)
    ensures var r := TrimRightSpace(TrimLeftSpace(s)); |r| == 0 <==> AllSpace(s)
  {
    var t := TrimLeftSpace(s);
    var r := TrimRightSpace(t);
    assert |t| == 0 || t[0] == s[|s| - |t|];
    assert |r| == 0 ==> |t| == 0;
  }

  // ------------------------------------------------------------- searching

  /** `sub` occurs in `s` at position `i`. */
  predicate OccursAt(s: string, sub: string, i: int) {
    0 <= i && i + |sub| <= |s| && s[i..i + |sub|] == sub
  }

  function IndexFrom(s: string, sub: string, k: nat): (r: Option<nat>)
    ensures r.Some? ==> k <= r.value && OccursAt(s, sub, r.value)
    ensures r.Some? ==> forall j :: k <= j < r.value ==> !OccursAt(s, sub, j)
    ensures r.None? ==> forall j :: k <= j ==> !OccursAt(s, sub, j)
    decreases |s| - k
  {
    if k + |sub| > |s| then None
    else if s[k..k + |sub|] == sub then Some(k)
    else IndexFrom(s, sub, k + 1)
  }

  /** Go's strings.Index: the first position at which `sub` occurs in `s`. */
  function IndexOf(s: string, sub: string): (r: Option<nat>)
    ensures r.Some? ==> OccursAt(s, sub, r.value)
    ensures r.Some? ==> forall j :: 0 <= j < r.value ==> !OccursAt(s, sub, j)
    ensures r.None? <==> forall j :: !OccursAt(s, sub, j)
  {
    IndexFrom(s, sub, 0)
  }

  /** Go's strings.Contains. */
  predicate Contains(s: string, sub: string) {
    IndexOf(s, sub).Some?
  }

  lemma OccursContains(s: string, sub: string, i: int)
    requires OccursAt(s, sub, i)
    ensures Contains(s, sub)
  {
  }

  /** A piece of `s` before the first occurrence of `sub` does not contain it. */
  lemma BeforeFirstOccurrence(s: string, sub: string, i: nat)
    requires |sub| > 0 && OccursAt(s, sub, i)
    requires forall j :: 0 <= j < i ==> !OccursAt(s, sub, j)
    ensures !Contains(s[..i], sub)
  {
    if Contains(s[..i], sub) {
      var j := IndexOf(s[..i], sub).value;
      assert s[..i][j..j + |sub|] == s[j..j + |sub|];
      assert OccursAt(s, sub, j);
    }
  }

  // ------------------------------------------------------------- splitting

  /** Go's strings.Join. */
  function Join(parts: seq<string>, sep: string): string {
    if |parts| == 0 then ""
    else if |parts| == 1 then parts[0]
    else parts[0] + sep + Join(parts[1..], sep)
  }

  lemma JoinCons(p: string, rest: seq<string>, sep: string)
    requires |rest| >= 1
    ensures Join([p] + rest, sep) == p + sep + Join(rest, sep)
  {
    assert ([p] + rest)[1..] == rest;
  }

  lemma CutAt(s: string, sep: string, i: nat)
    requires OccursAt(s, sep, i)
    ensures s == s[..i] + sep + s[i + |sep|..]
  {
    assert s == s[..i] + s[i..i + |sep|] + s[i + |sep|..];
  }

  /**
   * Go's strings.Split for a non-empty separator: the pieces between the
   * occurrences of `sep`. Joining the pieces back gives `s`, no piece holds
   * `sep`, and there is more than one piece exactly when `s` holds `sep`.
   */
  function Split(s: string, sep: string): (r: seq<string>)
    requires |sep| > 0
    ensures |r| >= 1
    ensures Join(r, sep) == s
    ensures forall i :: 0 <= i < |r| ==> !Contains(r[i], sep)
    ensures Contains(s, sep) <==> |r| >= 2
    decreases |s|
  {
    match IndexOf(s, sep)
    case None => [s]
    case Some(i) =>
      BeforeFirstOccurrence(s, sep, i);
      var rest := Split(s[i + |sep|..], sep);
      JoinCons(s[..i], rest, sep);
      CutAt(s, sep, i);
      [s[..i]] + rest
  }

  /**
   * Go's strings.SplitN for a non-empty separator and n >= 1: at most `n`
   * pieces, the last one being the unsplit remainder.
   */
  function SplitN(s: string, sep: string, n: nat): (r: seq<string>)
    requires |sep| > 0 && n >= 1
    ensures 1 <= |r| <= n
    ensures Join(r, sep) == s
    ensures forall i :: 0 <= i < |r| - 1 ==> !Contains(r[i], sep)
    ensures |r| < n ==> !Contains(r[|r| - 1], sep)
    decreases n
  {
    if n == 1 then [s]
    else
      match IndexOf(s, sep)
      case None => [s]
      case Some(i) =>
        BeforeFirstOccurrence(s, sep, i);
        var rest := SplitN(s[i + |sep|..], sep, n - 1);
        JoinCons(s[..i], rest, sep);
        CutAt(s, sep, i);
        [s[..i]] + rest
  }

  /** A string without the character `c` does not contain it. */
  lemma AbsentChar(s: string, c: char)
    requires c !in s
    ensures !Contains(s, [c])
  {
    forall j | 0 <= j < |s| ensures !OccursAt(s, [c], j) {
      assert s[j..j + 1] == [s[j]];
    }
  }

  /** When `sep` first occurs right after `a`, Split cuts `a` off first. */
  lemma SplitAfterFirst(a: string, sep: string, b: string)
    requires |sep| > 0 && IndexOf(a + sep + b, sep) == Some(|a|)
    ensures Split(a + sep + b, sep) == [a] + Split(b, sep)
  {
    var s := a + sep + b;
    assert s[..|a|] == a;
    assert s[|a| + |sep|..] == b;
  }

  /** A character first occurs at `i` when it is there and not before. */
  lemma FirstChar(s: string, c: char, i: nat)
    requires i < |s| && s[i] == c && c !in s[..i]
    ensures IndexOf(s, [c]) == Some(i)
  {
    assert OccursAt(s, [c], i) by {
      assert s[i..i + 1] == [c];
    }
    forall j | 0 <= j < i ensures !OccursAt(s, [c], j) {
      assert s[j..j + 1] == [s[..i][j]];
    }
  }

  /** The three pieces of `a|b|c`, when neither `a` nor `b` holds the separator. */
  lemma SplitNThree(a: string, c: char, b: string, rest: string)
    requires c !in a && c !in b
    ensures SplitN(a + [c] + b + [c] + rest, [c], 3) == [a, b, rest]
  {
    var t := b + [c] + rest;
    assert a + [c] + b + [c] + rest == a + [c] + t;
    SplitNCons(a, c, t, 3);
    SplitNCons(b, c, rest, 2);
  }

  /** Splitting at the first occurrence of `c`: the piece before it, then the split of the rest. */
  lemma SplitNCons(a: string, c: char, t: string, n: nat)
    requires c !in a && n >= 2
    ensures SplitN(a + [c] + t, [c], n) == [a] + SplitN(t, [c], n - 1)
  {
    var s := a + [c] + t;
    assert s[..|a|] == a && s[|a|] == c && s[|a| + 1..] == t;
    FirstChar(s, c, |a|);
  }

  /**
   * Splitting a join of pieces that do not hold a one-character separator
   * gives the pieces back (the converse of Split's own round trip; with a
   * longer separator an occurrence could straddle two pieces).
   */
  lemma {:induction false} SplitJoin(parts: seq<string>, sep: string)
    requires |sep| == 1 && |parts| >= 1
    requires forall i :: 0 <= i < |parts| ==> !Contains(parts[i], sep)
    ensures Split(Join(parts, sep), sep) == parts
    decreases |parts|
  {
    if |parts| == 1 {
      assert IndexOf(parts[0], sep).None?;
    } else {
      var s := Join(parts, sep);
      var p := parts[0];
      var tail := Join(parts[1..], sep);
      assert s == p + sep + tail;
      FirstSeparatorAfter(p, sep, tail);
      assert s[|p| + |sep|..] == tail;
      SplitJoin(parts[1..], sep);
    }
  }

  /** A one-character separator placed after a piece without one is the first occurrence. */
  lemma FirstSeparatorAfter(p: string, sep: string, tail: string)
    requires |sep| == 1 && !Contains(p, sep)
    ensures IndexOf(p + sep + tail, sep) == Some(|p|)
  {
    var s := p + sep + tail;
    assert OccursAt(s, sep, |p|) by {
      assert s[|p|..|p| + |sep|] == sep;
    }
    forall j | 0 <= j < |p| ensures !OccursAt(s, sep, j) {
      if OccursAt(s, sep, j) {
        assert p[j..j + |sep|] == s[j..j + |sep|];
        OccursContains(p, sep, j);
      }
    }
  }

  /** A join starts with its first piece. */
  lemma JoinStart(parts: seq<string>, sep: string)
    requires |parts| >= 1
    ensures HasPrefix(Join(parts, sep), parts[0])
  {
  }

  /** A join ends with its last piece. */
  lemma {:induction false} JoinEnd(parts: seq<string>, sep: string)
    requires |parts| >= 1
    ensures HasSuffix(Join(parts, sep), parts[|parts| - 1])
    decreases |parts|
  {
    if |parts| >= 2 {
      JoinEnd(parts[1..], sep);
      assert parts[1..][|parts| - 2] == parts[|parts| - 1];
    }
  }

  /** Trimming a string that neither starts nor ends with white space, plus a final newline. */
  lemma TrimFinalNewline(s: string)
    requires |s| > 0 && !IsSpace(s[0]) && !IsSpace(s[|s| - 1])
    ensures TrimSpace(s + "\n") == s
  {
    var t := s + "\n";
    assert TrimLeftSpace(t) == t;
    assert t[..|t| - 1] == s;
    assert TrimRightSpace(t) == TrimRightSpace(s);
  }

  /** The lines of a command's output: the trimmed output split at newlines. */
  function Lines(output: string): (r: seq<string>)
    ensures |r| >= 1
    ensures Join(r, "\n") == TrimSpace(output)
    ensures forall i :: 0 <= i < |r| ==> !Contains(r[i], "\n")
  {
    Split(TrimSpace(output), "\n")
  }

  /** Trimming a blank in front of a string that neither starts nor ends with white space. */
  lemma TrimLeadingBlank(s: string)
    requires |s| > 0 && !IsSpace(s[0]) && !IsSpace(s[|s| - 1])
    ensures TrimSpace(" " + s) == s
  {
    var t := " " + s;
    assert t[1..] == s;
    assert TrimLeftSpace(t) == TrimLeftSpace(s) == s;
    assert TrimRightSpace(s) == s;
  }

  /** Trimming a blank in front of, and a newline after, such a string. */
  lemma TrimBlankAndNewline(s: string)
    requires |s| > 0 && !IsSpace(s[0]) && !IsSpace(s[|s| - 1])
    ensures TrimSpace(" " + s + "\n") == s
  {
    var t := " " + s + "\n";
    assert t[1..] == s + "\n";
    assert TrimLeftSpace(t) == TrimLeftSpace(s + "\n") == s + "\n";
    TrimFinalNewline(s);
  }

  /** A string without the separator is split into itself alone. */
  lemma SplitAbsent(s: string, c: char)
    requires c !in s
    ensures Split(s, [c]) == [s]
  {
    AbsentChar(s, c);
  }

  lemma Join3(x: string, y: string, z: string, sep: string)
    ensures Join([x, y, z], sep) == x + sep + y + sep + z
  {
    assert [x, y, z][1..] == [y, z];
    assert [y, z][1..] == [z];
    assert Join([y, z], sep) == y + sep + z;
    assert Join([x, y, z], sep) == x + sep + (y + sep + z);
  }

  /** Output that is only white space has one, empty, line. */
  lemma LinesOfBlank(output: string)
    requires AllSpace(output)
    ensures Lines(output) == [""]
  {
    var t := TrimSpace(output);
    assert t == "";
    assert IndexOf(t, "\n").None?;
  }

  // ---------------------------------------------------------------- fields

  /** A non-empty run of non-space characters. */
  predicate IsWord(w: string) {
    |w| > 0 && NoSpace(w)
  }

  /** The longest prefix of `s` free of white space. */
  function Word(s: string): (r: string)
    ensures |r| <= |s| && r == s[..|r|] && NoSpace(r)
    ensures |r| < |s| ==> IsSpace(s[|r|])
  {
    if |s| == 0 || IsSpace(s[0]) then "" else [s[0]] + Word(s[1..])
  }

  /**
   * Go's strings.Fields: the maximal runs of non-space characters of `s`, in
   * order; every field is non-empty and free of white space.
   */
  function Fields(s: string): (r: seq<string>)
    ensures forall i :: 0 <= i < |r| ==> IsWord(r[i])
    decreases |s|
  {
    if |s| == 0 then []
    else if IsSpace(s[0]) then Fields(s[1..])
    else
      var w := Word(s);
      [w] + Fields(s[|w|..])
  }

  lemma {:induction false} WordOf(w: string, rest: string)
    requires NoSpace(w)
    requires rest == [] || IsSpace(rest[0])
    ensures Word(w + rest) == w
    decreases |w|
  {
    if |w| == 0 {
      assert w + rest == rest;
    } else {
      assert (w + rest)[0] == w[0];
      assert (w + rest)[1..] == w[1..] + rest;
      WordOf(w[1..], rest);
      assert w == [w[0]] + w[1..];
    }
  }

  /** A leading word followed by white space (or nothing) is the first field. */
  lemma FieldsCons(w: string, rest: string)
    requires IsWord(w)
    requires rest == [] || IsSpace(rest[0])
    ensures Fields(w + rest) == [w] + Fields(rest)
  {
    var s := w + rest;
    assert s[0] == w[0];
    WordOf(w, rest);
    assert s[|w|..] == rest;
  }

  /**
   * Joining non-empty space-free words with a white-space character and
   * splitting the result into fields gives the words back.
   */
  lemma {:induction false} FieldsJoin(words: seq<string>, c: char)
    requires IsSpace(c)
    requires forall i :: 0 <= i < |words| ==> IsWord(words[i])
    ensures Fields(Join(words, [c])) == words
    decreases |words|
  {
    if |words| == 0 {
      FieldsEmpty();
    } else if |words| == 1 {
      FieldsSingle(words[0]);
    } else {
      var tail := Join(words[1..], [c]);
      JoinStep(words, [c]);
      FieldsCons(words[0], [c] + tail);
      FieldsOfLeadingSpace(c, tail);
      FieldsJoin(words[1..], c);
      assert words == [words[0]] + words[1..];
    }
  }

  lemma JoinStep(words: seq<string>, sep: string)
    requires |words| >= 2
    ensures Join(words, sep) == words[0] + (sep + Join(words[1..], sep))
  {
  }

  lemma FieldsEmpty()
    ensures Fields("") == []
  {
  }

  lemma FieldsSingle(w: string)
    requires IsWord(w)
    ensures Fields(w) == [w]
  {
    WordOf(w, "");
    assert w + "" == w;
    assert w[|w|..] == "";
    FieldsEmpty();
  }

  lemma FieldsOfLeadingSpace(c: char, s: string)
    requires IsSpace(c)
    ensures Fields([c] + s) == Fields(s)
  {
    assert ([c] + s)[1..] == s;
  }

  // -------------------------------------------------- prefixes and suffixes

  /** Go's strings.HasPrefix. */
  predicate HasPrefix(s: string, p: string) {
    |p| <= |s| && s[..|p|] == p
  }

  /** Go's strings.HasSuffix. */
  predicate HasSuffix(s: string, x: string) {
    |x| <= |s| && s[|s| - |x|..] == x
  }

  /** Go's strings.TrimPrefix: `s` without `p` in front, when it is there. */
  function TrimPrefix(s: string, p: string): (r: string)
    ensures HasPrefix(s, p) ==> p + r == s
    ensures !HasPrefix(s, p) ==> r == s
  {
    if HasPrefix(s, p) then s[|p|..] else s
  }

  /** Go's strings.TrimSuffix: `s` without `x` at its end, when it is there. */
  function TrimSuffix(s: string, x: string): (r: string)
    ensures HasSuffix(s, x) ==> r + x == s
    ensures !HasSuffix(s, x) ==> r == s
  {
    if HasSuffix(s, x) then s[..|s| - |x|] else s
  }

  /** Appending a suffix and trimming it again gives the original string. */
  lemma TrimSuffixAppended(s: string, x: string)
    ensures HasSuffix(s + x, x)
    ensures TrimSuffix(s + x, x) == s
  {
    assert (s + x)[|s + x| - |x|..] == x;
  }

  lemma TrimPrefixPrepended(p: string, s: string)
    ensures HasPrefix(p + s, p)
    ensures TrimPrefix(p + s, p) == s
  {
    assert (p + s)[..|p|] == p;
  }

  // ---------------------------------------------------------- lower case

  function LowerChar(c: char): char {
    if 'A' <= c <= 'Z' then (c as int - 'A' as int + 'a' as int) as char else c
  }

  /** strings.ToLower restricted to ASCII letters. */
  function Lower(s: string): (r: string)
    ensures |r| == |s|
    ensures forall i :: 0 <= i < |s| ==> r[i] == LowerChar(s[i])
  {
    if |s| == 0 then "" else [LowerChar(s[0])] + Lower(s[1..])
  }
}
