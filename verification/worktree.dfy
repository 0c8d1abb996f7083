/**
 * What the commit dialog shows of the working tree (git.go:237-422): whether
 * anything is uncommitted, the porcelain status with per-file line counts,
 * and the staged and unstaged diff of one file.
 *
 * Strings are sequences of code points; the status columns of a porcelain
 * record are ASCII, so reading them as code points agrees with the byte
 * indexing of the source.
 */
module WorkTree {
  import opened Results
  import opened Text
  import opened Vcs

  // ------------------------------------------------------ uncommitted changes

  /**
   * HasUncommittedChanges (git.go:237-250): the tree is dirty when either
   * quiet diff (of the index, of the work tree) reports a difference, that
   * is, exits unsuccessfully. Both are always asked.
   */
  function IsDirty(run: Runner): (r: bool)
    ensures r <==> exists staged: bool :: !run(DiffQuiet(staged)).ok
  {
    assert run(DiffQuiet(true)).ok && run(DiffQuiet(false)).ok ==> forall staged: bool :: run(DiffQuiet(staged)).ok;
    !run(DiffQuiet(true)).ok || !run(DiffQuiet(false)).ok
  }

  // ------------------------------------------------------------- numbers

  predicate IsDigit(c: char) {
    '0' <= c <= '9'
  }

  predicate AllDigits(s: string) {
    forall i :: 0 <= i < |s| ==> IsDigit(s[i])
  }

  function DigitValue(c: char): nat
    requires IsDigit(c)
  {
    c as int - '0' as int
  }

  /** The number a string of decimal digits denotes, most significant first; "" denotes 0. */
  function DecimalValue(s: string): nat
    requires AllDigits(s)
  {
    if |s| == 0 then 0 else DecimalValue(s[..|s| - 1]) * 10 + DigitValue(s[|s| - 1])
  }

  /**
   * parseInt (git.go:389-398): the digits of `s` accumulated from the left;
   * -1 as soon as a character is not a decimal digit. The empty string reads
   * as 0.
   */
  function ParseInt(s: string): (r: int)
    ensures AllDigits(s) ==> r == DecimalValue(s)
    ensures !AllDigits(s) ==> r == -1
  {
    assert s[..0] == "";
    ParseFrom(s, 0, 0)
  }

  /** The loop of parseInt from position `i`, with `acc` the value of the digits before it. */
  function ParseFrom(s: string, i: nat, acc: nat): (r: int)
    requires i <= |s| && AllDigits(s[..i]) && acc == DecimalValue(s[..i])
    ensures AllDigits(s) ==> r == DecimalValue(s)
    ensures !AllDigits(s) ==> r == -1
    decreases |s| - i
  {
    if i == |s| then
      assert s[..i] == s;
      acc
    else if !IsDigit(s[i]) then -1
    else
      assert s[..i + 1][..i] == s[..i];
      ParseFrom(s, i + 1, acc * 10 + DigitValue(s[i]))
  }

  function DigitChar(d: nat): (c: char)
    requires d < 10
    ensures IsDigit(c) && DigitValue(c) == d
  {
    ('0' as int + d) as char
  }

  /** The decimal numeral of `n`, as git prints a count; parseInt reads it back. */
  function Decimal(n: nat): (s: string)
    ensures |s| > 0 && AllDigits(s)
    ensures DecimalValue(s) == n
    ensures ParseInt(s) == n
  {
    if n < 10 then
      [DigitChar(n)]
    else
      var s := Decimal(n / 10) + [DigitChar(n % 10)];
      assert s[..|s| - 1] == Decimal(n / 10);
      s
  }

  // ------------------------------------------------------------- numstat

  datatype LineStats = LineStats(added: nat, deleted: nat)

  const NoLines: LineStats := LineStats(0, 0)

  function Plus(a: LineStats, b: LineStats): LineStats {
    LineStats(a.added + b.added, a.deleted + b.deleted)
  }

  /** A parsed count that is negative (not a number) adds nothing. */
  function NonNegative(v: int): nat {
    if v >= 0 then v else 0
  }

  /**
   * What one `added deleted path` line of `git diff --numstat` adds to the
   * totals (git.go:360-383): nothing for an empty line, a line with fewer
   * than three fields, or a binary file (a "-" count); otherwise each count
   * that is a decimal numeral, each column on its own, so a numeral beside a
   * column that is not one still counts.
   */
  function LineCounts(line: string): (r: LineStats)
    ensures |Fields(line)| < 3 ==> r == NoLines
    ensures r.added > 0 ==> AllDigits(Fields(line)[0]) && r.added == DecimalValue(Fields(line)[0])
    ensures r.deleted > 0 ==> AllDigits(Fields(line)[1]) && r.deleted == DecimalValue(Fields(line)[1])
    ensures |Fields(line)| >= 3 && (Fields(line)[0] == "-" || Fields(line)[1] == "-") ==> r == NoLines
    ensures |Fields(line)| >= 3 && AllDigits(Fields(line)[0]) && AllDigits(Fields(line)[1]) ==>
      r == LineStats(DecimalValue(Fields(line)[0]), DecimalValue(Fields(line)[1]))
    ensures |Fields(line)| >= 3 && Fields(line)[0] != "-" && Fields(line)[1] != "-" ==>
      && r.added == (if AllDigits(Fields(line)[0]) then DecimalValue(Fields(line)[0]) else 0)
      && r.deleted == (if AllDigits(Fields(line)[1]) then DecimalValue(Fields(line)[1]) else 0)
  {
    var parts := Fields(line);
    if line == "" || |parts| < 3 then NoLines
    else if parts[0] == "-" || parts[1] == "-" then NoLines
    else LineStats(NonNegative(ParseInt(parts[0])), NonNegative(ParseInt(parts[1])))
  }

  /** The sum of the line counts of `lines`. */
  function Total(lines: seq<string>): LineStats {
    if |lines| == 0 then NoLines else Plus(LineCounts(lines[0]), Total(lines[1..]))
  }

  /** parseNumstatOutput (git.go:355-386): the totals over the lines of the trimmed output. */
  function ParseNumstat(output: string): LineStats {
    Total(Lines(output))
  }

  /** Output that is only white space (git prints nothing for an unchanged file) counts nothing. */
  lemma BlankNumstat(output: string)
    requires AllSpace(output)
    ensures ParseNumstat(output) == NoLines
  {
    LinesOfBlank(output);
    EmptyLineCountsNothing();
  }

  lemma EmptyLineCountsNothing()
    ensures Total([""]) == NoLines
  {
    var lines: seq<string> := [""];
    assert lines[0] == "" && lines[1..] == [];
    assert LineCounts("") == NoLines;
    assert Total(lines[1..]) == NoLines;
  }

  /** getNumstatForFile (git.go:338-352): nothing when the command fails. */
  function NumstatFor(run: Runner, path: string, staged: bool): (r: LineStats)
    ensures !run(Numstat(path, staged)).ok ==> r == NoLines
    ensures run(Numstat(path, staged)).ok ==> r == ParseNumstat(run(Numstat(path, staged)).stdout)
  {
    var o := run(Numstat(path, staged));
    if o.ok then ParseNumstat(o.stdout) else NoLines
  }

  /** A status column that has line counts: neither unmodified (' ') nor untracked ('?'). */
  predicate HasCounts(column: char) {
    column != ' ' && column != '?'
  }

  /**
   * getFileLineStats (git.go:317-335): the staged counts when the index
   * column has changes, plus the unstaged counts when the work-tree column
   * has; an untracked or unmodified file has none.
   */
  function FileLineStats(run: Runner, path: string, staged: char, work: char): (r: LineStats)
    ensures !HasCounts(staged) && !HasCounts(work) ==> r == NoLines
    ensures HasCounts(staged) && !HasCounts(work) ==> r == NumstatFor(run, path, true)
    ensures !HasCounts(staged) && HasCounts(work) ==> r == NumstatFor(run, path, false)
    ensures HasCounts(staged) && HasCounts(work) ==> r == Plus(NumstatFor(run, path, true), NumstatFor(run, path, false))
  {
    if HasCounts(staged) && HasCounts(work) then Plus(NumstatFor(run, path, true), NumstatFor(run, path, false))
    else if HasCounts(staged) then NumstatFor(run, path, true)
    else if HasCounts(work) then NumstatFor(run, path, false)
    else NoLines
  }

  // --------------------------------------------------------------- status

  /** The status letters in order of precedence; anything else is shown as modified. */
  const Precedence: string := "ADRCU"

  /**
   * The overall status of a file (git.go:288-299): the first letter of
   * `Precedence` that either column shows, or 'M' when neither shows one.
   */
  function OverallStatus(staged: char, work: char): (r: char)
    ensures r == 'M' <==> staged !in Precedence && work !in Precedence
    ensures r != 'M' ==> r in Precedence && (r == staged || r == work)
    ensures forall j, k :: 0 <= j < k < |Precedence| && Precedence[k] == r ==>
      Precedence[j] != staged && Precedence[j] != work
  {
    if staged == 'A' || work == 'A' then 'A'
    else if staged == 'D' || work == 'D' then 'D'
    else if staged == 'R' || work == 'R' then 'R'
    else if staged == 'C' || work == 'C' then 'C'
    else if staged == 'U' || work == 'U' then 'U'
    else 'M'
  }

  /** One entry of the commit dialog's file list (git.go:253-260). */
  datatype FileStatus = FileStatus(
    path: string,
    status: char,
    staged: char,
    work: char,
    lines: LineStats)

  /**
   * One line of the porcelain status (git.go:274-312): lines shorter than
   * three characters are skipped; otherwise the first two characters are the
   * index and work-tree columns and the trimmed rest is the path.
   */
  function StatusEntry(line: string, run: Runner): (r: Option<FileStatus>)
    ensures r.None? <==> |line| < 3
    ensures r.Some? ==> r.value.staged == line[0] && r.value.work == line[1]
    ensures r.Some? ==> r.value.path == TrimSpace(line[2..])
    ensures r.Some? ==> r.value.status == OverallStatus(line[0], line[1])
  {
    if line == "" || |line| < 3 then None
    else
      var staged := line[0];
      var work := line[1];
      var path := TrimSpace(line[2..]);
      Some(FileStatus(path, OverallStatus(staged, work), staged, work, FileLineStats(run, path, staged, work)))
  }

  /** The entries of the lines that are not skipped, in order. */
  function StatusEntries(lines: seq<string>, run: Runner): (r: seq<FileStatus>)
    ensures |r| <= |lines|
    ensures |lines| > 0 && |lines[0]| >= 3 ==> |r| > 0 && Some(r[0]) == StatusEntry(lines[0], run)
  {
    if |lines| == 0 then []
    else
      var rest := StatusEntries(lines[1..], run);
      match StatusEntry(lines[0], run)
      case None => rest
      case Some(e) => [e] + rest
  }

  /** When no line is skipped, each line gives the entry at its own position. */
  lemma {:induction false} EntriesOfLongLines(lines: seq<string>, run: Runner)
    requires forall i :: 0 <= i < |lines| ==> |lines[i]| >= 3
    ensures var r := StatusEntries(lines, run);
      |r| == |lines| && forall i :: 0 <= i < |lines| ==> Some(r[i]) == StatusEntry(lines[i], run)
    decreases |lines|
  {
    if |lines| > 0 {
      var tail := lines[1..];
      assert forall i :: 0 <= i < |tail| ==> |tail[i]| >= 3 by {
        assert forall i :: 0 <= i < |tail| ==> tail[i] == lines[i + 1];
      }
      EntriesOfLongLines(tail, run);
      var rest := StatusEntries(tail, run);
      var r := StatusEntries(lines, run);
      assert r == [StatusEntry(lines[0], run).value] + rest;
      forall i | 0 <= i < |lines| ensures Some(r[i]) == StatusEntry(lines[i], run) {
        if i > 0 {
          assert r[i] == rest[i - 1] && lines[i] == tail[i - 1];
        }
      }
    }
  }

  /** GetGitStatus (git.go:263-314): fails only when the status command does. */
  function GetGitStatus(run: Runner): (r: Result<seq<FileStatus>, GitError>)
    ensures r.Err? <==> !run(Status).ok
    ensures r.Err? ==> r.error == StatusFailed
    ensures r.Ok? ==> r.value == StatusEntries(Lines(run(Status).stdout), run)
  {
    var o := run(Status);
    if !o.ok then Err(StatusFailed) else Ok(StatusEntries(Lines(o.stdout), run))
  }

  // ----------------------------------------------------------------- diff

  const StagedHeader: string := "=== Staged Changes ===\n"
  const UnstagedHeader: string := "=== Unstaged Changes ===\n"
  const NoChanges: string := "No changes to display"

  /**
   * GetFileDiff (git.go:401-422): a headed block for the staged diff and one
   * for the unstaged diff, each only when that diff printed something, and a
   * fixed notice when neither did. The output is used even when a diff
   * command fails.
   */
  function FileDiff(run: Runner, path: string): (r: string)
    ensures var staged := run(Diff(path, true)).stdout; var unstaged := run(Diff(path, false)).stdout;
      && (r == NoChanges <==> staged == "" && unstaged == "")
      && (staged != "" ==> HasPrefix(r, StagedHeader + staged + "\n"))
      && (unstaged != "" ==> HasSuffix(r, UnstagedHeader + unstaged + "\n"))
      && (staged == "" && unstaged != "" ==> r == UnstagedHeader + unstaged + "\n")
      && (staged != "" && unstaged == "" ==> r == StagedHeader + staged + "\n")
      && (staged != "" && unstaged != "" ==> r == StagedHeader + staged + "\n" + UnstagedHeader + unstaged + "\n")
  {
    var staged := run(Diff(path, true)).stdout;
    var unstaged := run(Diff(path, false)).stdout;
    var first := if |staged| > 0 then StagedHeader + staged + "\n" else "";
    var second := if |unstaged| > 0 then UnstagedHeader + unstaged + "\n" else "";
    var diff := first + second;
    assert |staged| > 0 ==> diff[..|first|] == first;
    assert |unstaged| > 0 ==> diff[|diff| - |second|..] == second;
    assert |diff| > 0 && diff[0] == '=' ==> diff != NoChanges;
    if diff == "" then NoChanges else diff
  }

  // --------------------------------------------------------------- lemmas

  /** A titled block of diff output: its header line, the diff, a closing newline. */
  datatype Block = Block(header: string, body: string)

  /** Blocks printed one after the other. */
  function Render(bs: seq<Block>): string {
    if |bs| == 0 then "" else bs[0].header + bs[0].body + "\n" + Render(bs[1..])
  }

  /** The blocks of a file's diff view: one per diff that printed something, staged first. */
  function DiffBlocks(staged: string, unstaged: string): seq<Block> {
    (if staged != "" then [Block(StagedHeader, staged)] else [])
      + (if unstaged != "" then [Block(UnstagedHeader, unstaged)] else [])
  }

  /**
   * The diff view is its blocks printed in order, staged before unstaged,
   * and the notice exactly when there is no block.
   */
  lemma {:induction false} FileDiffIsBlocks(run: Runner, path: string)
    ensures var bs := DiffBlocks(run(Diff(path, true)).stdout, run(Diff(path, false)).stdout);
      FileDiff(run, path) == if |bs| == 0 then NoChanges else Render(bs)
  {
    var staged := run(Diff(path, true)).stdout;
    var unstaged := run(Diff(path, false)).stdout;
    var bs := DiffBlocks(staged, unstaged);
    if staged != "" && unstaged != "" {
      assert bs[1..] == [Block(UnstagedHeader, unstaged)];
      assert Render(bs[1..]) == UnstagedHeader + unstaged + "\n" + Render([]);
    } else if staged != "" {
      assert Render(bs) == StagedHeader + staged + "\n" + Render([]);
    } else if unstaged != "" {
      assert Render(bs) == UnstagedHeader + unstaged + "\n" + Render([]);
    }
  }

  /** A porcelain v1 record: index column, work-tree column, a blank, the path. */
  datatype Porcelain = Porcelain(staged: char, work: char, path: string)

  function PorcelainLine(p: Porcelain): string {
    [p.staged, p.work, ' '] + p.path
  }

  function PorcelainLines(ps: seq<Porcelain>): (r: seq<string>)
    ensures |r| == |ps|
    ensures forall i :: 0 <= i < |ps| ==> r[i] == PorcelainLine(ps[i])
  {
    seq(|ps|, i requires 0 <= i < |ps| => PorcelainLine(ps[i]))
  }

  /** A record the parser can read back: one line, with a path that is already trimmed. */
  predicate Readable(p: Porcelain) {
    && p.staged != '\n' && p.work != '\n'
    && |p.path| > 0 && '\n' !in p.path
    && !IsSpace(p.path[0]) && !IsSpace(p.path[|p.path| - 1])
  }

  /** The path column of a readable record is read back unchanged. */
  lemma PathReadBack(p: Porcelain)
    requires Readable(p)
    ensures PorcelainLine(p)[2..] == " " + p.path
    ensures TrimSpace(" " + p.path) == p.path
  {
    assert PorcelainLine(p)[2..] == " " + p.path;
    TrimLeadingBlank(p.path);
  }

  /** The entry the commit dialog lists for a record. */
  function Listed(p: Porcelain, run: Runner): FileStatus {
    FileStatus(p.path, OverallStatus(p.staged, p.work), p.staged, p.work, FileLineStats(run, p.path, p.staged, p.work))
  }

  /**
   * Status output round trip: when the status command prints readable
   * records, one per line, and the first record's index column is not
   * blank, every record is listed, in order, with its columns, its path, the
   * status its columns determine and its line counts.
   */
  lemma StatusRoundTrip(ps: seq<Porcelain>, run: Runner)
    requires |ps| >= 1
    requires forall i :: 0 <= i < |ps| ==> Readable(ps[i])
    requires !IsSpace(ps[0].staged)
    requires run(Status) == RunResult(Join(PorcelainLines(ps), "\n") + "\n", true)
    ensures GetGitStatus(run).Ok?
    ensures var r := GetGitStatus(run).value;
      |r| == |ps| && forall i :: 0 <= i < |ps| ==> r[i] == Listed(ps[i], run)
  {
    var lines := PorcelainLines(ps);
    forall i | 0 <= i < |ps|
      ensures '\n' !in lines[i] && |lines[i]| >= 3
      ensures !IsSpace(lines[i][|lines[i]| - 1])
      ensures StatusEntry(lines[i], run) == Some(Listed(ps[i], run))
    {
      RecordLine(ps[i], run);
    }
    assert lines[0][0] == ps[0].staged;
    ReadLines(lines);
    ListedLines(lines, ps, run);
  }

  lemma ListedLines(lines: seq<string>, ps: seq<Porcelain>, run: Runner)
    requires |lines| == |ps|
    requires forall i :: 0 <= i < |ps| ==> |lines[i]| >= 3 && StatusEntry(lines[i], run) == Some(Listed(ps[i], run))
    ensures var r := StatusEntries(lines, run); |r| == |ps| && forall i :: 0 <= i < |ps| ==> r[i] == Listed(ps[i], run)
  {
    EntriesOfLongLines(lines, run);
  }

  /** A readable record's line: one line, ending in its path, listed as the record. */
  lemma RecordLine(p: Porcelain, run: Runner)
    requires Readable(p)
    ensures var line := PorcelainLine(p);
      && '\n' !in line && |line| >= 3 && !IsSpace(line[|line| - 1])
      && StatusEntry(line, run) == Some(Listed(p, run))
  {
    OneLine(p);
    EndsWithPath(p);
    EntryOf(p, run);
  }

  lemma EntryOf(p: Porcelain, run: Runner)
    requires Readable(p)
    ensures StatusEntry(PorcelainLine(p), run) == Some(Listed(p, run))
  {
    var line := PorcelainLine(p);
    assert line[0] == p.staged && line[1] == p.work;
    PathReadBack(p);
  }

  lemma OneLine(p: Porcelain)
    requires Readable(p)
    ensures '\n' !in PorcelainLine(p)
  {
  }

  lemma EndsWithPath(p: Porcelain)
    requires Readable(p)
    ensures var line := PorcelainLine(p); |line| >= 3 && !IsSpace(line[|line| - 1])
  {
    var line := PorcelainLine(p);
    assert line[|line| - 1] == p.path[|p.path| - 1];
  }

  /** Lines that are not blank at either end of the output and hold no newline are read back. */
  lemma ReadLines(lines: seq<string>)
    requires |lines| >= 1 && |lines[0]| > 0 && |lines[|lines| - 1]| > 0
    requires !IsSpace(lines[0][0]) && !IsSpace(lines[|lines| - 1][|lines[|lines| - 1]| - 1])
    requires forall i :: 0 <= i < |lines| ==> '\n' !in lines[i]
    ensures Lines(Join(lines, "\n") + "\n") == lines
  {
    var body := Join(lines, "\n");
    JoinStart(lines, "\n");
    JoinEnd(lines, "\n");
    assert body[0] == lines[0][0];
    assert body[|body| - 1] == lines[|lines| - 1][|lines[|lines| - 1]| - 1];
    TrimFinalNewline(body);
    forall i | 0 <= i < |lines| ensures !Contains(lines[i], "\n") {
      AbsentChar(lines[i], '\n');
    }
    SplitJoin(lines, "\n");
  }

  /**
   * The first record loses its blank column: git's status output is trimmed
   * as a whole, so a file changed only in the work tree (" M path") is read,
   * when it comes first, as changed only in the index.
   */
  lemma FirstRecordShifted(work: char, path: string, run: Runner)
    requires Readable(Porcelain(' ', work, path)) && !IsSpace(work)
    requires run(Status) == RunResult(PorcelainLine(Porcelain(' ', work, path)) + "\n", true)
    ensures GetGitStatus(run).Ok?
    ensures var r := GetGitStatus(run).value;
      |r| == 1 && r[0].staged == work && r[0].work == ' ' && r[0].path == path
  {
    ShiftedLines(work, path);
    ShiftedEntry(work, path, run);
  }

  lemma ShiftedLines(work: char, path: string)
    requires Readable(Porcelain(' ', work, path)) && !IsSpace(work)
    ensures Lines(PorcelainLine(Porcelain(' ', work, path)) + "\n") == [[work, ' '] + path]
  {
    ShiftedTrim(work, path);
    ShiftedSplit(work, path);
  }

  lemma ShiftedTrim(work: char, path: string)
    requires Readable(Porcelain(' ', work, path)) && !IsSpace(work)
    ensures TrimSpace(PorcelainLine(Porcelain(' ', work, path)) + "\n") == [work, ' '] + path
  {
    var line := [work, ' '] + path;
    assert PorcelainLine(Porcelain(' ', work, path)) + "\n" == " " + line + "\n";
    assert line[|line| - 1] == path[|path| - 1];
    TrimBlankAndNewline(line);
  }

  lemma ShiftedSplit(work: char, path: string)
    requires Readable(Porcelain(' ', work, path))
    ensures Split([work, ' '] + path, "\n") == [[work, ' '] + path]
  {
    var line := [work, ' '] + path;
    assert '\n' !in line;
    SplitAbsent(line, '\n');
  }

  lemma ShiftedEntry(work: char, path: string, run: Runner)
    requires Readable(Porcelain(' ', work, path))
    ensures var e := StatusEntry([work, ' '] + path, run);
      e.Some? && e.value.staged == work && e.value.work == ' ' && e.value.path == path
  {
    var line := [work, ' '] + path;
    assert line[2..] == path;
  }

  /** A `git diff --numstat` record: line counts of a text file, or a binary file. */
  datatype NumstatEntry = Counted(added: nat, deleted: nat, path: string) | Binary(path: string)

  function NumstatLine(e: NumstatEntry): string {
    match e
    case Counted(a, d, path) => Decimal(a) + "\t" + Decimal(d) + "\t" + path
    case Binary(path) => "-\t-\t" + path
  }

  function NumstatLines(es: seq<NumstatEntry>): (r: seq<string>)
    ensures |r| == |es|
    ensures forall i :: 0 <= i < |es| ==> r[i] == NumstatLine(es[i])
  {
    seq(|es|, i requires 0 <= i < |es| => NumstatLine(es[i]))
  }

  /** The counts a record describes: a binary file counts nothing. */
  function Own(e: NumstatEntry): LineStats {
    match e
    case Counted(a, d, _) => LineStats(a, d)
    case Binary(_) => NoLines
  }

  /** The totals the records describe. */
  function Expected(es: seq<NumstatEntry>): LineStats {
    if |es| == 0 then NoLines else Plus(Own(es[0]), Expected(es[1..]))
  }

  /** The two count columns of a record as printed. */
  function Columns(e: NumstatEntry): (string, string) {
    match e
    case Counted(a, d, _) => (Decimal(a), Decimal(d))
    case Binary(_) => ("-", "-")
  }

  /** A record's line splits into its two count columns and its path. */
  lemma RecordFields(e: NumstatEntry)
    requires IsWord(e.path)
    ensures Fields(NumstatLine(e)) == [Columns(e).0, Columns(e).1, e.path]
  {
    var x := Columns(e).0;
    var y := Columns(e).1;
    Join3(x, y, e.path, "\t");
    ColumnsAreWords(e);
    FieldsJoin([x, y, e.path], '\t');
  }

  lemma ColumnsAreWords(e: NumstatEntry)
    ensures IsWord(Columns(e).0) && IsWord(Columns(e).1)
    ensures NumstatLine(e) == Columns(e).0 + "\t" + Columns(e).1 + "\t" + e.path
  {
    if e.Counted? {
      NumeralIsWord(e.added);
      NumeralIsWord(e.deleted);
    }
  }

  lemma NumeralIsWord(n: nat)
    ensures IsWord(Decimal(n))
  {
    var s := Decimal(n);
    forall i | 0 <= i < |s| ensures !IsSpace(s[i]) {
      assert IsDigit(s[i]);
    }
  }

  /** One record's line is read as its counts. */
  lemma NumstatLineCounts(e: NumstatEntry)
    requires IsWord(e.path)
    ensures LineCounts(NumstatLine(e)) == Own(e)
  {
    RecordFields(e);
    var (x, y) := Columns(e);
    if e.Counted? {
      assert x[0] != '-' && y[0] != '-';
    }
  }

  /** A record's line is one line, neither starting nor ending with white space. */
  lemma NumstatLineShape(e: NumstatEntry)
    requires IsWord(e.path)
    ensures var line := NumstatLine(e); |line| > 0 && !IsSpace(line[0]) && !IsSpace(line[|line| - 1])
    ensures '\n' !in NumstatLine(e)
  {
    var line := NumstatLine(e);
    var (x, y) := Columns(e);
    assert line == x + "\t" + y + "\t" + e.path;
    assert line[0] == x[0];
    assert line[|line| - 1] == e.path[|e.path| - 1];
  }

  /**
   * Numstat round trip: the output of `git diff --numstat` for records with
   * space-free paths is read as the sum of the text files' counts.
   */
  lemma {:induction false} NumstatRoundTrip(es: seq<NumstatEntry>)
    requires |es| >= 1
    requires forall i :: 0 <= i < |es| ==> IsWord(es[i].path)
    ensures ParseNumstat(Join(NumstatLines(es), "\n") + "\n") == Expected(es)
  {
    var lines := NumstatLines(es);
    forall i | 0 <= i < |es|
      ensures LineCounts(lines[i]) == Own(es[i])
      ensures |lines[i]| > 0 && !IsSpace(lines[i][0]) && !IsSpace(lines[i][|lines[i]| - 1])
      ensures '\n' !in lines[i]
    {
      NumstatLineCounts(es[i]);
      NumstatLineShape(es[i]);
    }
    ReadLines(lines);
    TotalOfRecords(es);
  }

  /** What `git diff --numstat` prints for the records: one line each, then a newline. */
  function NumstatOutput(es: seq<NumstatEntry>): string {
    Join(NumstatLines(es), "\n") + "\n"
  }

  /** Numstat output for any records with space-free paths, none included, is read as their totals. */
  lemma ReadNumstat(es: seq<NumstatEntry>)
    requires forall i :: 0 <= i < |es| ==> IsWord(es[i].path)
    ensures ParseNumstat(NumstatOutput(es)) == Expected(es)
  {
    if |es| == 0 {
      assert AllSpace(NumstatOutput(es)) by {
        assert NumstatOutput(es) == "\n";
      }
      BlankNumstat(NumstatOutput(es));
    } else {
      NumstatRoundTrip(es);
    }
  }

  /**
   * A file's line counts are what its numstat outputs describe: the staged
   * records when the index column shows a change, plus the unstaged records
   * when the work-tree column does, and nothing for a column that is blank
   * or untracked.
   */
  lemma FileCountsRoundTrip(run: Runner, path: string, staged: char, work: char,
                            index: seq<NumstatEntry>, tree: seq<NumstatEntry>)
    requires forall i :: 0 <= i < |index| ==> IsWord(index[i].path)
    requires forall i :: 0 <= i < |tree| ==> IsWord(tree[i].path)
    requires run(Numstat(path, true)) == RunResult(NumstatOutput(index), true)
    requires run(Numstat(path, false)) == RunResult(NumstatOutput(tree), true)
    ensures FileLineStats(run, path, staged, work) ==
      Plus(if HasCounts(staged) then Expected(index) else NoLines,
           if HasCounts(work) then Expected(tree) else NoLines)
  {
    CountsOfRecords(run, path, true, index);
    CountsOfRecords(run, path, false, tree);
    var r := FileLineStats(run, path, staged, work);
    var a, b := Expected(index), Expected(tree);
    if HasCounts(staged) && HasCounts(work) {
      assert r == Plus(a, b);
    } else if HasCounts(staged) {
      NoLinesAddsNothing(a);
    } else if HasCounts(work) {
      NoLinesAddsNothing(b);
    } else {
      NoLinesAddsNothing(NoLines);
    }
  }

  lemma NoLinesAddsNothing(x: LineStats)
    ensures Plus(x, NoLines) == x && Plus(NoLines, x) == x
  {
  }

  /** A numstat command that prints the records counts their totals. */
  lemma CountsOfRecords(run: Runner, path: string, staged: bool, es: seq<NumstatEntry>)
    requires forall i :: 0 <= i < |es| ==> IsWord(es[i].path)
    requires run(Numstat(path, staged)) == RunResult(NumstatOutput(es), true)
    ensures NumstatFor(run, path, staged) == Expected(es)
  {
    ReadNumstat(es);
  }

  lemma {:induction false} TotalOfRecords(es: seq<NumstatEntry>)
    requires forall i :: 0 <= i < |es| ==> LineCounts(NumstatLine(es[i])) == Own(es[i])
    ensures Total(NumstatLines(es)) == Expected(es)
    decreases |es|
  {
    if |es| > 0 {
      assert NumstatLines(es)[1..] == NumstatLines(es[1..]);
      TotalOfRecords(es[1..]);
    }
  }
}
