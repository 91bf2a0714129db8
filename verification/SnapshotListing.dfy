/**
 * The table that `nodetool listsnapshots` prints, and the line parser that recovers the
 * snapshots named after a point in time from it.
 */
module SnapshotListing {
  import opened Wrappers
  import opened Sequences
  import opened Text

  datatype Snapshot = Snapshot(name: string, keyspace: string, columnFamily: string)

  // ---------- The regular expression ^(\d+) +(\w+) +(\w+)

  datatype CharClass = Digit | Space | Word

  predicate Is(c: char, class_: CharClass) {
    match class_
    case Digit => IsDigit(c)
    case Space => c == ' '
    case Word => IsDigit(c) || 'a' <= c <= 'z' || 'A' <= c <= 'Z' || c == '_'
  }

  /** A non-empty text of the class, what a quantified class in the expression stands for. */
  predicate IsRun(s: string, class_: CharClass) {
    s != [] && forall i :: 0 <= i < |s| ==> Is(s[i], class_)
  }

  predicate StopsBefore(rest: string, class_: CharClass) {
    rest == [] || !Is(rest[0], class_)
  }

  /** What the expression matches, at the start of a line, with its three groups. */
  predicate Matches(line: string, name: string, gap: string, keyspace: string, gap': string, columnFamily: string, rest: string) {
    && line == name + (gap + (keyspace + (gap' + (columnFamily + rest))))
    && IsRun(name, Digit) && IsRun(gap, Space) && IsRun(keyspace, Word) && IsRun(gap', Space) && IsRun(columnFamily, Word)
  }

  function RunLength(s: string, class_: CharClass): (n: nat)
    ensures n <= |s|
  {
    if s == [] || !Is(s[0], class_) then 0 else 1 + RunLength(s[1..], class_)
  }

  lemma {:induction false} RunLengthIsLongest(s: string, class_: CharClass)
    ensures var n := RunLength(s, class_); StopsBefore(s[n..], class_) && (n > 0 ==> IsRun(s[..n], class_))
  {
    if s != [] && Is(s[0], class_) {
      RunLengthIsLongest(s[1..], class_);
      var n := RunLength(s[1..], class_);
      assert s[1..][n..] == s[n + 1..];
      assert forall i :: 0 < i <= n ==> s[i] == s[1..][..n][i - 1];
    }
  }

  datatype Token = Token(text: string, rest: string)

  /** A quantified class takes as much as it can. */
  function Take(s: string, class_: CharClass): Option<Token> {
    var n := RunLength(s, class_);
    if n == 0 then None else Some(Token(s[..n], s[n..]))
  }

  /** A column after its gap. */
  function TakeColumn(s: string): Option<Token> {
    var gap := Take(s, Space);
    if gap.None? then None else Take(gap.value.rest, Word)
  }

  /**
   * The submatches of a line. Neighbouring classes have no character in common, so taking
   * as much as possible each time is the only way to match.
   */
  function ParseLine(line: string): Option<Snapshot> {
    var name := Take(line, Digit);
    if name.None? then None
    else
      var keyspace := TakeColumn(name.value.rest);
      if keyspace.None? then None
      else
        var columnFamily := TakeColumn(keyspace.value.rest);
        if columnFamily.None? then None
        else Some(Snapshot(name.value.text, keyspace.value.text, columnFamily.value.text))
  }

  lemma {:induction false} RunLengthIs(run: string, rest: string, class_: CharClass)
    requires (run == [] || IsRun(run, class_)) && StopsBefore(rest, class_)
    ensures RunLength(run + rest, class_) == |run|
  {
    if run == [] {
      assert run + rest == rest;
    } else {
      assert (run + rest)[1..] == run[1..] + rest;
      RunLengthIs(run[1..], rest, class_);
    }
  }

  lemma TakesRun(run: string, rest: string, class_: CharClass)
    requires IsRun(run, class_) && StopsBefore(rest, class_)
    ensures Take(run + rest, class_) == Some(Token(run, rest))
  {
    RunLengthIs(run, rest, class_);
    assert (run + rest)[..|run|] == run && (run + rest)[|run|..] == rest;
  }

  lemma TakesColumn(gap: string, column: string, rest: string)
    requires IsRun(gap, Space) && IsRun(column, Word) && StopsBefore(rest, Word)
    ensures TakeColumn(gap + (column + rest)) == Some(Token(column, rest))
    ensures StopsBefore(gap + (column + rest), Word) && StopsBefore(gap + (column + rest), Digit)
  {
    TakesRun(gap, column + rest, Space);
    TakesRun(column, rest, Word);
  }

  /** The parser finds every match, with the longest possible last group. */
  lemma FindsMatch(line: string, name: string, gap: string, keyspace: string, gap': string, columnFamily: string, rest: string)
    requires Matches(line, name, gap, keyspace, gap', columnFamily, rest) && StopsBefore(rest, Word)
    ensures ParseLine(line) == Some(Snapshot(name, keyspace, columnFamily))
  {
    TakesColumn(gap', columnFamily, rest);
    TakesColumn(gap, keyspace, gap' + (columnFamily + rest));
    TakesRun(name, gap + (keyspace + (gap' + (columnFamily + rest))), Digit);
  }

  lemma TakeSplits(s: string, class_: CharClass)
    requires Take(s, class_).Some?
    ensures var t := Take(s, class_).value; s == t.text + t.rest && IsRun(t.text, class_)
  {
    RunLengthIsLongest(s, class_);
  }

  /** The gap in front of a column that has been taken. */
  lemma ColumnSplits(s: string) returns (gap: string)
    requires TakeColumn(s).Some?
    ensures var t := TakeColumn(s).value; s == gap + (t.text + t.rest) && IsRun(gap, Space) && IsRun(t.text, Word)
  {
    var g := Take(s, Space).value;
    gap := g.text;
    TakeSplits(s, Space);
    TakeSplits(g.rest, Word);
  }

  ghost predicate MatchesSomehow(line: string) {
    exists name, gap, keyspace, gap', columnFamily, rest :: Matches(line, name, gap, keyspace, gap', columnFamily, rest)
  }

  /** And it finds nothing else: a line is parsed exactly when the expression matches it. */
  lemma ParsedExactlyWhenMatched(line: string)
    ensures ParseLine(line).Some? <==> MatchesSomehow(line)
  {
    if ParseLine(line).Some? {
      var name := Take(line, Digit).value;
      TakeSplits(line, Digit);
      var keyspace := TakeColumn(name.rest).value;
      var gap := ColumnSplits(name.rest);
      var columnFamily := TakeColumn(keyspace.rest).value;
      var gap' := ColumnSplits(keyspace.rest);
      assert Matches(line, name.text, gap, keyspace.text, gap', columnFamily.text, columnFamily.rest);
    } else if MatchesSomehow(line) {
      var name, gap, keyspace, gap', columnFamily, rest :| Matches(line, name, gap, keyspace, gap', columnFamily, rest);
      FindsLongest(line, name, gap, keyspace, gap', columnFamily, rest);
    }
  }

  lemma FindsLongest(line: string, name: string, gap: string, keyspace: string, gap': string, columnFamily: string, rest: string)
    requires Matches(line, name, gap, keyspace, gap', columnFamily, rest)
    ensures ParseLine(line).Some?
  {
    var n := RunLength(rest, Word);
    RunLengthIsLongest(rest, Word);
    var longest := columnFamily + rest[..n];
    assert rest[..n] + rest[n..] == rest;
    Associative(columnFamily, rest[..n], rest[n..]);
    FindsMatch(line, name, gap, keyspace, gap', longest, rest[n..]);
  }

  // ---------- Lines

  predicate IsLine(s: string) {
    '\n' !in s
  }

  /** `strings.Split(s, "\n")`. */
  function SplitLines(s: string): (lines: seq<string>)
    ensures lines != []
  {
    if s == [] then [[]]
    else
      var lines := SplitLines(s[1..]);
      if s[0] == '\n' then [[]] + lines else [[s[0]] + lines[0]] + lines[1..]
  }

  function JoinLines(lines: seq<string>): string {
    if lines == [] then [] else if |lines| == 1 then lines[0] else lines[0] + ("\n" + JoinLines(lines[1..]))
  }

  lemma {:induction false} SplitFirst(first: string, rest: string)
    requires IsLine(first)
    ensures SplitLines(first + ("\n" + rest)) == [first] + SplitLines(rest)
  {
    var s := first + ("\n" + rest);
    if first == [] {
      assert s[1..] == rest && s[0] == '\n';
    } else {
      assert s[1..] == first[1..] + ("\n" + rest) && s[0] == first[0];
      SplitFirst(first[1..], rest);
      assert [first[0]] + first[1..] == first;
    }
  }

  lemma {:induction false} SplitOnly(line: string)
    requires IsLine(line)
    ensures SplitLines(line) == [line]
  {
    if line != [] {
      SplitOnly(line[1..]);
      assert [line[0]] + line[1..] == line;
    }
  }

  lemma {:induction false} SplitJoin(lines: seq<string>)
    requires lines != [] && forall i :: 0 <= i < |lines| ==> IsLine(lines[i])
    ensures SplitLines(JoinLines(lines)) == lines
  {
    if |lines| == 1 {
      SplitOnly(lines[0]);
    } else {
      SplitJoin(lines[1..]);
      SplitFirst(lines[0], JoinLines(lines[1..]));
    }
  }

  function ParseLines(lines: seq<string>): seq<Snapshot> {
    if lines == [] then []
    else
      var parsed := ParseLine(lines[0]);
      (if parsed.Some? then [parsed.value] else []) + ParseLines(lines[1..])
  }

  /** The loop of `GetSnapshots` over the output of the command. */
  method ReadSnapshots(output: string) returns (snapshots: seq<Snapshot>)
    ensures snapshots == ParseLines(SplitLines(output))
  {
    var lines := SplitLines(output);
    snapshots := [];
    for i := 0 to |lines|
      invariant snapshots + ParseLines(lines[i..]) == ParseLines(lines)
    {
      assert lines[i..][1..] == lines[i + 1..];
      var parsed := ParseLine(lines[i]);
      Shift(snapshots, if parsed.Some? then [parsed.value] else [], ParseLines(lines[i + 1..]), ParseLines(lines));
      if parsed.Some? {
        snapshots := snapshots + [parsed.value];
      } else {
        assert snapshots + [] == snapshots;
      }
    }
  }

  /** A line as nodetool prints it; the words may have digits, letters of either case and underscores. */
  lemma SampleLine(rest: string)
    requires StopsBefore(rest, Word)
    ensures ParseLine("1545235723" + ("  " + ("ks_1" + (" " + ("Ab9" + rest))))) == Some(Snapshot("1545235723", "ks_1", "Ab9"))
  {
    hide ParseLine;
    assert IsRun("1545235723", Digit) && IsRun("  ", Space) && IsRun("ks_1", Word) && IsRun(" ", Space) && IsRun("Ab9", Word);
    FindsMatch("1545235723" + ("  " + ("ks_1" + (" " + ("Ab9" + rest)))), "1545235723", "  ", "ks_1", " ", "Ab9", rest);
  }

  // ---------- The table

  /** A line of the table: a snapshot of a column family, or a header, a footer or an empty line. */
  datatype Row =
    | Listed(snapshot: Snapshot, gap: string, gap': string, tail: string)
    | Other(text: string)

  /** Names contain no blanks; keyspaces and column families are words; the columns are set apart. */
  predicate WellFormed(row: Row) {
    match row
    case Listed(snapshot, gap, gap', tail) =>
      && snapshot.name != [] && ' ' !in snapshot.name && IsLine(snapshot.name)
      && IsRun(snapshot.keyspace, Word) && IsRun(snapshot.columnFamily, Word)
      && IsRun(gap, Space) && IsRun(gap', Space) && StopsBefore(tail, Word) && IsLine(tail)
    case Other(text) => IsLine(text) && StopsBefore(text, Digit)
  }

  predicate AllWellFormed(rows: seq<Row>) {
    forall i :: 0 <= i < |rows| ==> WellFormed(rows[i])
  }

  function Render(row: Row): string {
    match row
    case Listed(snapshot, gap, gap', tail) =>
      snapshot.name + (gap + (snapshot.keyspace + (gap' + (snapshot.columnFamily + tail))))
    case Other(text) => text
  }

  function RenderAll(rows: seq<Row>): seq<string> {
    if rows == [] then [] else [Render(rows[0])] + RenderAll(rows[1..])
  }

  function Output(rows: seq<Row>): string {
    JoinLines(RenderAll(rows))
  }

  predicate IsNumeric(row: Row) {
    row.Listed? && AllDigits(row.snapshot.name)
  }

  function NumericSnapshots(rows: seq<Row>): seq<Snapshot> {
    if rows == [] then []
    else (if IsNumeric(rows[0]) then [rows[0].snapshot] else []) + NumericSnapshots(rows[1..])
  }

  lemma RunIsLine(s: string, class_: CharClass)
    requires IsRun(s, class_)
    ensures IsLine(s)
  {
  }

  /** A row is parsed, with its three columns, exactly when it lists a snapshot with a numeric name. */
  lemma ParsesNumericRow(row: Row)
    requires WellFormed(row)
    ensures IsLine(Render(row))
    ensures ParseLine(Render(row)) == if IsNumeric(row) then Some(row.snapshot) else None
  {
    if row.Listed? {
      var s := row.snapshot;
      RunIsLine(s.keyspace, Word);
      RunIsLine(s.columnFamily, Word);
      RunIsLine(row.gap, Space);
      RunIsLine(row.gap', Space);
      if IsNumeric(row) {
        assert IsRun(s.name, Digit);
        FindsMatch(Render(row), s.name, row.gap, s.keyspace, row.gap', s.columnFamily, row.tail);
      } else {
        NotNumericIsSkipped(s.name, row.gap + (s.keyspace + (row.gap' + (s.columnFamily + row.tail))));
      }
    }
  }

  lemma FullRunIsNumeric(s: string)
    ensures RunLength(s, Digit) == |s| ==> AllDigits(s)
  {
    assert s[..|s|] == s;
    RunLengthIsLongest(s, Digit);
  }

  lemma NotNumericIsSkipped(name: string, rest: string)
    requires ' ' !in name && !AllDigits(name)
    ensures ParseLine(name + rest) == None
  {
    var n := RunLength(name, Digit);
    FullRunIsNumeric(name);
    RunLengthIsLongest(name, Digit);
    assert name[n] in name;
    SkipsBadEnd(name[..n], name[n..] + rest);
    assert name + rest == name[..n] + (name[n..] + rest);
  }

  /** Digits that neither a digit nor a blank follows are not the start of a row. */
  lemma SkipsBadEnd(digits: string, rest: string)
    requires (digits == [] || IsRun(digits, Digit)) && rest != [] && !Is(rest[0], Digit) && !Is(rest[0], Space)
    ensures ParseLine(digits + rest) == None
  {
    RunLengthIs(digits, rest, Digit);
    assert (digits + rest)[|digits|..] == rest;
  }

  lemma {:induction false} ParsesNumericRows(rows: seq<Row>)
    requires AllWellFormed(rows)
    ensures |RenderAll(rows)| == |rows| && forall i :: 0 <= i < |rows| ==> IsLine(RenderAll(rows)[i])
    ensures ParseLines(RenderAll(rows)) == NumericSnapshots(rows)
  {
    if rows != [] {
      ParsesNumericRow(rows[0]);
      ParsesNumericRows(rows[1..]);
      assert RenderAll(rows)[1..] == RenderAll(rows[1..]);
    }
  }

  /**
   * Whatever the spacing, and whatever headers and other names stand between them, exactly
   * the snapshots with numeric names are recovered from the table, in its order.
   */
  lemma ListingRoundTrip(rows: seq<Row>)
    requires AllWellFormed(rows)
    ensures ParseLines(SplitLines(Output(rows))) == NumericSnapshots(rows)
  {
    ParsesNumericRows(rows);
    if rows == [] {
      assert SplitLines([]) == [[]] && ParseLines([[]]) == [];
    } else {
      SplitJoin(RenderAll(rows));
    }
  }

  /** A name printed from a time is recovered, and parses to the same time, exactly when the time is not negative. */
  lemma TimestampRoundTrip(time: int)
    requires INT64_MIN <= time <= INT64_MAX
    ensures AllDigits(FormatInt(time)) <==> time >= 0
    ensures Atoi(FormatInt(time)) == Some(time)
  {
    AtoiFormatInt(time);
    if time < 0 {
      assert FormatInt(time)[0] == '-';
    }
  }
}
