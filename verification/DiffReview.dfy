/** The review page reads a printed diff back (apps/web/components/changeset-review.tsx, parseDiff). */
module DiffReview {
  import opened Options
  import opened Sequences
  import opened Text
  import opened Diff

  // ----- the hunk header: /@@ -(\d+)(?:,\d+)? \+(\d+)/ -----

  /** A comma and a numeral, if the text begins with them. */
  function TakeCount(s: string): (r: (string, string))
    ensures s == r.0 + r.1
  {
    if StartsWith(s, ",") && TakeDigits(s[1..]).0 != "" then ("," + TakeDigits(s[1..]).0, TakeDigits(s[1..]).1)
    else ("", s)
  }

  function MatchAt(s: string): Option<(nat, nat)> {
    if !StartsWith(s, "@@ -") then None
    else
      var first := TakeDigits(s[4..]);
      var rest := TakeCount(first.1).1;
      if first.0 == "" || !StartsWith(rest, " +") then None
      else
        var second := TakeDigits(rest[2..]).0;
        if second == "" then None else Some((Value(first.0), Value(second)))
  }

  /** The leftmost match. */
  function FindHunk(s: string): Option<(nat, nat)> {
    if MatchAt(s).Some? then MatchAt(s) else if s == "" then None else FindHunk(s[1..])
  }

  predicate IsCount(b: string) {
    b == "" || (b[0] == ',' && b != "," && AllDigits(b[1..]))
  }

  /** The text begins with a hunk header: a numeral, a second one that may be missing, and a third. */
  ghost predicate IsHeader(s: string, a: string, b: string, c: string, tail: string) {
    && s == "@@ -" + (a + (b + (" +" + (c + tail))))
    && AllDigits(a) && a != "" && AllDigits(c) && c != "" && (tail != "" ==> !IsDigit(tail[0]))
    && IsCount(b)
  }

  ghost predicate HeaderOf(s: string, x: nat, y: nat) {
    exists a, b, c, tail :: IsHeader(s, a, b, c, tail) && x == Value(a) && y == Value(c)
  }

  lemma TakeCountOf(b: string, rest: string)
    requires IsCount(b) && StartsWith(rest, " +")
    ensures TakeCount(b + rest) == (b, rest)
  {
    if b == "" {
      assert b + rest == rest && rest[0] == rest[..2][0];
    } else {
      assert rest[0] == rest[..2][0];
      assert (b + rest)[..1] == "," && (b + rest)[1..] == b[1..] + rest && b == "," + b[1..];
      TakeDigitsOf(b[1..], rest);
    }
  }

  lemma HeaderMatched(s: string, a: string, b: string, c: string, tail: string)
    requires IsHeader(s, a, b, c, tail)
    ensures MatchAt(s) == Some((Value(a), Value(c)))
  {
    hide TakeDigits, Value, TakeCount, IsCount;
    var r2 := " +" + (c + tail);
    assert r2[..2] == " +" && r2[2..] == c + tail;
    TakeCountOf(b, r2);
    CountStart(b, r2);
    assert s[..4] == "@@ -" && s[4..] == a + (b + r2);
    TakeDigitsOf(a, b + r2);
    TakeDigitsOf(c, tail);
  }

  lemma CountStart(b: string, rest: string)
    requires IsCount(b) && StartsWith(rest, " +")
    ensures b + rest != "" && !IsDigit((b + rest)[0])
  {
    assert rest[0] == rest[..2][0];
  }

  lemma CountIs(s: string)
    ensures IsCount(TakeCount(s).0)
  {
    hide TakeDigits;
  }

  lemma MatchedHeader(s: string)
    requires MatchAt(s).Some?
    ensures HeaderOf(s, MatchAt(s).value.0, MatchAt(s).value.1)
  {
    hide TakeDigits, Value, TakeCount, IsCount;
    var first := TakeDigits(s[4..]);
    var count := TakeCount(first.1);
    var second := TakeDigits(count.1[2..]);
    CountIs(first.1);
    assert s == "@@ -" + s[4..] && count.1 == " +" + count.1[2..];
    assert IsHeader(s, first.0, count.0, second.0, second.1);
  }

  /** The two numbers are those of the leftmost header, whatever stands before it. */
  lemma {:induction false} FindHunkExactly(s: string)
    ensures match FindHunk(s)
            case None => forall i, x, y :: 0 <= i <= |s| ==> !HeaderOf(s[i..], x, y)
            case Some(n) => exists i :: 0 <= i <= |s| && HeaderOf(s[i..], n.0, n.1) &&
                                        forall j, x, y :: 0 <= j < i ==> !HeaderOf(s[j..], x, y)
  {
    assert s[0..] == s;
    if MatchAt(s).Some? {
      MatchedHeader(s);
    } else {
      forall x, y
        ensures !HeaderOf(s, x, y)
      {
        if HeaderOf(s, x, y) {
          var a, b, c, tail :| IsHeader(s, a, b, c, tail);
          HeaderMatched(s, a, b, c, tail);
        }
      }
      if s != "" {
        FindHunkExactly(s[1..]);
        forall i | 1 <= i <= |s|
          ensures s[i..] == s[1..][i - 1..]
        {
        }
        if FindHunk(s).Some? {
          var n := FindHunk(s).value;
          var i :| 0 <= i <= |s[1..]| && HeaderOf(s[1..][i..], n.0, n.1) &&
                   forall j, x, y :: 0 <= j < i ==> !HeaderOf(s[1..][j..], x, y);
          assert HeaderOf(s[i + 1..], n.0, n.1);
        }
      }
    }
  }

  // ----- the parser -----

  datatype ParseState = ParseState(oldNo: nat, newNo: nat, rows: seq<Row>)

  function ParseLine(st: ParseState, line: string): ParseState {
    if StartsWith(line, "@@") then
      var numbers := FindHunk(line);
      ParseState(if numbers.Some? then numbers.value.0 else 0, if numbers.Some? then numbers.value.1 else 0,
                 st.rows + [Row(HUNK, line, None, None)])
    else if StartsWith(line, "---") || StartsWith(line, "+++") then
      st.(rows := st.rows + [Row(META, line, None, None)])
    else if StartsWith(line, "+") then
      st.(newNo := st.newNo + 1, rows := st.rows + [Row(ADD, line[1..], None, Some(st.newNo))])
    else if StartsWith(line, "-") then
      st.(oldNo := st.oldNo + 1, rows := st.rows + [Row(DEL, line[1..], Some(st.oldNo), None)])
    else if StartsWith(line, " ") then
      ParseState(st.oldNo + 1, st.newNo + 1, st.rows + [Row(CTX, line[1..], Some(st.oldNo), Some(st.newNo))])
    else st
  }

  function ParseLines(st: ParseState, lines: seq<string>): ParseState
    decreases |lines|
  {
    if lines == [] then st else ParseLines(ParseLine(st, lines[0]), lines[1..])
  }

  function Parsed(diff: string): seq<Row> {
    ParseLines(ParseState(0, 0, []), Split(diff, '\n')).rows
  }

  method ParseDiff(diff: string) returns (rows: seq<Row>)
    ensures rows == Parsed(diff)
  {
    rows := [];
    var oldNo: nat, newNo: nat := 0, 0;
    var lines := Split(diff, '\n');
    assert lines[0..] == lines;
    for i := 0 to |lines|
      invariant ParseLines(ParseState(oldNo, newNo, rows), lines[i..]) == ParseLines(ParseState(0, 0, []), lines)
    {
      var line := lines[i];
      ghost var before := ParseState(oldNo, newNo, rows);
      assert lines[i..][1..] == lines[i + 1..];
      if StartsWith(line, "@@") {
        var numbers := FindHunk(line);
        oldNo := if numbers.Some? then numbers.value.0 else 0;
        newNo := if numbers.Some? then numbers.value.1 else 0;
        rows := rows + [Row(HUNK, line, None, None)];
      } else if StartsWith(line, "---") || StartsWith(line, "+++") {
        rows := rows + [Row(META, line, None, None)];
      } else if StartsWith(line, "+") {
        rows := rows + [Row(ADD, line[1..], None, Some(newNo))];
        newNo := newNo + 1;
      } else if StartsWith(line, "-") {
        rows := rows + [Row(DEL, line[1..], Some(oldNo), None)];
        oldNo := oldNo + 1;
      } else if StartsWith(line, " ") {
        rows := rows + [Row(CTX, line[1..], Some(oldNo), Some(newNo))];
        oldNo, newNo := oldNo + 1, newNo + 1;
      }
      assert ParseState(oldNo, newNo, rows) == ParseLine(before, line);
    }
  }

  // ----- the rows of any text -----

  /** A line that is shown as no row. */
  predicate Skipped(line: string) {
    line == "" || (line[0] !in "+- " && !("@@" <= line))
  }

  predicate ShownAs(line: string, row: Row) {
    match row.kind
    case HUNK => row.text == line && "@@" <= line
    case META => row.text == line && ("---" <= line || "+++" <= line)
    case ADD => line == "+" + row.text && !("++" <= row.text)
    case DEL => line == "-" + row.text && !("--" <= row.text)
    case CTX => line == " " + row.text
  }

  /** A row for every line that is not skipped, in the order of the lines. */
  predicate AllShown(lines: seq<string>, rows: seq<Row>)
    decreases |lines|
  {
    if lines == [] then rows == []
    else if Skipped(lines[0]) then AllShown(lines[1..], rows)
    else rows != [] && ShownAs(lines[0], rows[0]) && AllShown(lines[1..], rows[1..])
  }

  /** The last hunk row before `i` is at `h`; -1 when there is none. */
  ghost predicate LastHunk(rows: seq<Row>, h: int, i: nat) {
    -1 <= h < i <= |rows| && (h >= 0 ==> rows[h].kind == HUNK) && forall j :: h < j < i ==> rows[j].kind != HUNK
  }

  /** Where the numbers begin after the hunk row at `h`: a header that cannot be read counts from zero. */
  function Opening(rows: seq<Row>, h: int): (nat, nat)
    requires -1 <= h < |rows|
  {
    if h >= 0 && FindHunk(rows[h].text).Some? then FindHunk(rows[h].text).value else (0, 0)
  }

  /** The old number of a row counts the old rows since the last hunk row, and the new number the new rows. */
  ghost predicate NumbersFit(rows: seq<Row>, h: int, i: nat)
    requires -1 <= h < i < |rows|
  {
    var row, between := rows[i], rows[h + 1..i];
    && row.oldNo == (if row.kind == CTX || row.kind == DEL then Some(Opening(rows, h).0 + CountOld(between)) else None)
    && row.newNo == (if row.kind == CTX || row.kind == ADD then Some(Opening(rows, h).1 + CountNew(between)) else None)
  }

  ghost predicate AllNumbered(rows: seq<Row>) {
    forall h, i :: 0 <= i < |rows| && LastHunk(rows, h, i) ==> NumbersFit(rows, h, i)
  }

  /** The counters of the parser stand at the numbers of the next row. */
  ghost predicate Counting(st: ParseState) {
    AllNumbered(st.rows) && forall h :: LastHunk(st.rows, h, |st.rows|) ==> CountersFit(st, h)
  }

  predicate CountersFit(st: ParseState, h: int)
    requires -1 <= h < |st.rows|
  {
    && st.oldNo == Opening(st.rows, h).0 + CountOld(st.rows[h + 1..])
    && st.newNo == Opening(st.rows, h).1 + CountNew(st.rows[h + 1..])
  }

  lemma {:induction false} ShownSoFar(st: ParseState, lines: seq<string>)
    ensures var rows := ParseLines(st, lines).rows;
            st.rows <= rows && AllShown(lines, rows[|st.rows|..])
    decreases |lines|
  {
    if lines != [] {
      var next := ParseLine(st, lines[0]);
      LineShown(st, lines[0]);
      ShownSoFar(next, lines[1..]);
      hide ParseLine, Skipped, ShownAs;
      var rows := ParseLines(st, lines).rows;
      if next != st {
        assert rows[|st.rows|] == next.rows[|st.rows|];
        assert rows[|st.rows|..][1..] == rows[|next.rows|..];
      }
    }
  }

  lemma LineShown(st: ParseState, line: string)
    ensures var next := ParseLine(st, line);
            if Skipped(line) then next == st
            else exists row :: next.rows == st.rows + [row] && ShownAs(line, row)
  {
    if !Skipped(line) {
      var next := ParseLine(st, line);
      var row := next.rows[|st.rows|];
      assert line == [line[0]] + line[1..];
      StartsWithStep(line[0], line[1..], '-', "--");
      StartsWithStep(line[0], line[1..], '+', "++");
      assert ['-'] + "--" == "---" && ['+'] + "++" == "+++";
      assert next.rows == st.rows + [row];
      assert ShownAs(line, row);
    }
  }

  lemma {:induction false} CountingKept(st: ParseState, lines: seq<string>)
    requires Counting(st)
    ensures Counting(ParseLines(st, lines))
    decreases |lines|
  {
    if lines != [] {
      LineCounted(st, lines[0]);
      CountingKept(ParseLine(st, lines[0]), lines[1..]);
    }
  }

  /** The row appended to `st`, and the counters after it. */
  predicate Counted(st: ParseState, row: Row, next: ParseState) {
    && next.rows == st.rows + [row]
    && (row.kind == HUNK ==> next.oldNo == Opening(next.rows, |st.rows|).0 && next.newNo == Opening(next.rows, |st.rows|).1)
    && (row.kind != HUNK ==> next.oldNo == st.oldNo + CountOld([row]) && next.newNo == st.newNo + CountNew([row]))
    && row.oldNo == (if row.kind == CTX || row.kind == DEL then Some(st.oldNo) else None)
    && row.newNo == (if row.kind == CTX || row.kind == ADD then Some(st.newNo) else None)
  }

  lemma LineCounted(st: ParseState, line: string)
    requires Counting(st)
    ensures Counting(ParseLine(st, line))
  {
    var next := ParseLine(st, line);
    if next != st {
      var row := next.rows[|st.rows|];
      LineCounts(st, line);
      RowCounted(st, row, next);
    }
  }

  lemma LineCounts(st: ParseState, line: string)
    ensures var next := ParseLine(st, line);
            next == st || (|next.rows| == |st.rows| + 1 && Counted(st, next.rows[|st.rows|], next))
  {
    hide FindHunk;
    var next := ParseLine(st, line);
    if next != st {
      var row := next.rows[|st.rows|];
      assert [row][1..] == [] && next.rows == st.rows + [row];
      assert CountOld([row]) == if row.kind == CTX || row.kind == DEL then 1 else 0;
      assert CountNew([row]) == if row.kind == CTX || row.kind == ADD then 1 else 0;
    }
  }

  lemma RowCounted(st: ParseState, row: Row, next: ParseState)
    requires Counting(st) && Counted(st, row, next)
    ensures Counting(next)
  {
    forall h, i | 0 <= i < |next.rows| && LastHunk(next.rows, h, i)
      ensures NumbersFit(next.rows, h, i)
    {
      RowFits(st, row, next, h, i);
    }
    forall h | LastHunk(next.rows, h, |next.rows|)
      ensures CountersFit(next, h)
    {
      CountersMove(st, row, next, h);
    }
  }

  lemma RowFits(st: ParseState, row: Row, next: ParseState, h: int, i: nat)
    requires Counting(st) && Counted(st, row, next) && i < |next.rows| && LastHunk(next.rows, h, i)
    ensures NumbersFit(next.rows, h, i)
  {
    Earlier(st.rows, row, h, i);
    hide FindHunk, Opening, CountOld, CountNew, LastHunk;
    if i < |st.rows| {
      assert NumbersFit(st.rows, h, i);
      hide AllNumbered;
      assert next.rows[i] == st.rows[i];
    } else {
      hide NumbersFit, AllNumbered;
      LastRowFits(st, row, next, h);
    }
  }

  lemma LastRowFits(st: ParseState, row: Row, next: ParseState, h: int)
    requires Counted(st, row, next) && -1 <= h < |st.rows| && CountersFit(st, h)
    requires Opening(next.rows, h) == Opening(st.rows, h)
    ensures NumbersFit(next.rows, h, |st.rows|)
  {
    hide FindHunk, Opening, CountOld, CountNew;
    assert next.rows[h + 1..|st.rows|] == st.rows[h + 1..];
  }

  lemma CountersMove(st: ParseState, row: Row, next: ParseState, h: int)
    requires Counting(st) && Counted(st, row, next) && LastHunk(next.rows, h, |next.rows|)
    ensures CountersFit(next, h)
  {
    hide FindHunk, Opening;
    var n := |st.rows|;
    if h == n {
      assert next.rows[h + 1..] == [];
    } else {
      assert next.rows[n].kind != HUNK;
      Earlier(st.rows, row, h, n);
      hide LastHunk, CountOld, CountNew;
      assert next.rows[h + 1..] == st.rows[h + 1..] + [row];
      CountAppend(st.rows[h + 1..], [row]);
    }
  }

  /** A row that is appended changes nothing before it. */
  lemma Earlier(rows: seq<Row>, row: Row, h: int, i: nat)
    requires LastHunk(rows + [row], h, i) && i <= |rows|
    ensures LastHunk(rows, h, i) && Opening(rows + [row], h) == Opening(rows, h)
    ensures (rows + [row])[h + 1..i] == rows[h + 1..i]
  {
    assert forall j :: 0 <= j < |rows| ==> (rows + [row])[j] == rows[j];
  }

  /** What the page shows of any text: a row for every line that is not skipped, numbered from the last hunk header. */
  lemma ShownExactly(diff: string)
    ensures AllShown(Split(diff, '\n'), Parsed(diff)) && AllNumbered(Parsed(diff))
  {
    var init := ParseState(0, 0, []);
    ShownSoFar(init, Split(diff, '\n'));
    CountingKept(init, Split(diff, '\n'));
    assert Parsed(diff)[0..] == Parsed(diff);
  }

  // ----- what survives the round trip -----

  predicate CarriesText(row: Row) {
    row.kind != HUNK && row.kind != META
  }

  /** The rows that carry text of a file. */
  function Numbered(rows: seq<Row>): seq<Row> {
    Filter(CarriesText, rows)
  }

  /** A deleted line "--…" is printed as a line "---…", an added line "++…" as "+++…". */
  predicate Ambiguous(row: Row) {
    (row.kind == DEL && StartsWith(row.text, "--")) || (row.kind == ADD && StartsWith(row.text, "++"))
  }

  /** A line that the parser does not take for a line of a file. */
  predicate Quiet(line: string) {
    || StartsWith(line, "@@") || StartsWith(line, "---") || StartsWith(line, "+++")
    || !(StartsWith(line, "+") || StartsWith(line, "-") || StartsWith(line, " "))
  }

  /** A path may only contain line breaks if what follows them is quiet. */
  predicate QuietPath(path: string) {
    forall i :: 1 <= i < |Split(path, '\n')| ==> Quiet(Split(path, '\n')[i])
  }

  /** Rows as a hunk lists them: numbered consecutively on both sides, without line breaks. */
  predicate Sequential(rows: seq<Row>, oldNo: nat, newNo: nat) {
    rows == [] ||
    var row := rows[0];
    && '\n' !in row.text
    && (match row.kind
        case CTX => row.oldNo == Some(oldNo) && row.newNo == Some(newNo) && Sequential(rows[1..], oldNo + 1, newNo + 1)
        case DEL => row.oldNo == Some(oldNo) && row.newNo == None && Sequential(rows[1..], oldNo + 1, newNo)
        case ADD => row.oldNo == None && row.newNo == Some(newNo) && Sequential(rows[1..], oldNo, newNo + 1)
        case _ => false)
  }

  lemma {:induction false} ParseAppend(st: ParseState, a: seq<string>, b: seq<string>)
    ensures ParseLines(st, a + b) == ParseLines(ParseLines(st, a), b)
    decreases |a|
  {
    if a == [] {
      assert a + b == b;
    } else {
      ParseAppend(ParseLine(st, a[0]), a[1..], b);
      assert (a + b)[1..] == a[1..] + b;
    }
  }

  /** Unambiguous rows are read back as they were printed. */
  lemma {:induction false} ReadRows(st: ParseState, rows: seq<Row>)
    requires Sequential(rows, st.oldNo, st.newNo) && forall i :: 0 <= i < |rows| ==> !Ambiguous(rows[i])
    ensures ParseLines(st, PrintRows(rows)) ==
            ParseState(st.oldNo + CountOld(rows), st.newNo + CountNew(rows), st.rows + rows)
    decreases |rows|
  {
    if rows == [] {
      assert st.rows + rows == st.rows;
    } else {
      ReadRow(st, rows[0]);
      var next := ParseLine(st, PrintRow(rows[0]));
      ReadRows(next, rows[1..]);
      assert st.rows + [rows[0]] + rows[1..] == st.rows + rows;
    }
  }

  lemma ReadRow(st: ParseState, row: Row)
    requires Sequential([row], st.oldNo, st.newNo) && !Ambiguous(row)
    ensures ParseLine(st, PrintRow(row)) ==
            ParseState(st.oldNo + CountOld([row]), st.newNo + CountNew([row]), st.rows + [row])
  {
    var marker := if row.kind == DEL then '-' else if row.kind == ADD then '+' else ' ';
    var line := [marker] + row.text;
    assert line == PrintRow(row) && line[1..] == row.text && [row][1..] == [];
    StartsWithStep(marker, row.text, '@', "@");
    StartsWithStep(marker, row.text, '-', "--");
    StartsWithStep(marker, row.text, '+', "++");
    assert ['@'] + "@" == "@@" && ['-'] + "--" == "---" && ['+'] + "++" == "+++";
  }

  // ----- the exact condition -----

  ghost predicate NoAmbiguousRow(rows: seq<Row>) {
    forall i :: 0 <= i < |rows| ==> !Ambiguous(rows[i])
  }

  /** The parser never produces an ambiguous row. */
  lemma {:induction false} ParsedUnambiguous(st: ParseState, lines: seq<string>)
    requires NoAmbiguousRow(st.rows)
    ensures NoAmbiguousRow(ParseLines(st, lines).rows)
    decreases |lines|
  {
    if lines != [] {
      ParsedLineUnambiguous(st, lines[0]);
      ParsedUnambiguous(ParseLine(st, lines[0]), lines[1..]);
    }
  }

  lemma ParsedLineUnambiguous(st: ParseState, line: string)
    requires NoAmbiguousRow(st.rows)
    ensures NoAmbiguousRow(ParseLine(st, line).rows)
  {
    if line != "" {
      assert line == [line[0]] + line[1..];
      StartsWithStep(line[0], line[1..], '-', "--");
      StartsWithStep(line[0], line[1..], '+', "++");
      assert ['-'] + "--" == "---" && ['+'] + "++" == "+++";
    }
  }

  lemma {:induction false} NumberedUnambiguous(rows: seq<Row>)
    requires NoAmbiguousRow(rows)
    ensures NoAmbiguousRow(Numbered(rows))
  {
    if rows != [] {
      NumberedUnambiguous(rows[1..]);
    }
  }

  /** Each line adds a numbered row unless it is quiet. */
  lemma {:induction false} CountNumbered(st: ParseState, lines: seq<string>)
    ensures st.rows <= ParseLines(st, lines).rows
    ensures |Numbered(ParseLines(st, lines).rows)| >= |Numbered(st.rows)|
    ensures |Numbered(ParseLines(st, lines).rows)| == |Numbered(st.rows)| <==>
            forall i :: 0 <= i < |lines| ==> Quiet(lines[i])
    decreases |lines|
  {
    if lines != [] {
      var next := ParseLine(st, lines[0]);
      CountNumbered(next, lines[1..]);
      if next.rows != st.rows {
        FilterAppend(CarriesText, st.rows, [next.rows[|st.rows|]]);
        assert [next.rows[|st.rows|]][1..] == [];
      }
    }
  }

  // ----- the printed text, line by line -----

  lemma HeaderMatches(start: nat, oldCount: nat, newCount: nat)
    ensures var header := HunkHeader(start, oldCount, newCount);
            && FindHunk(header) == Some((start + 1, start + 1))
            && StartsWith(header, "@@") && '\n' !in header
  {
    hide Decimal, MatchAt, Value;
    var a, b, d := Decimal(start + 1), Decimal(oldCount), Decimal(newCount);
    var tail := "," + (d + " @@");
    var header := "@@ -" + (a + ("," + (b + (" +" + (a + tail)))));
    assert header == HunkHeader(start, oldCount, newCount);
    assert ("," + b)[1..] == b;
    assert header == "@@ -" + (a + ("," + b + (" +" + (a + tail))));
    HeaderMatched(header, a, "," + b, a, tail);
    ValueDecimal(start + 1);
    NoNewline(a);
    NoNewline(b);
    NoNewline(d);
    assert header[..2] == "@@";
  }

  lemma HeadQuiet(path: string)
    ensures (forall i :: 0 <= i < |HeadLines(path)| ==> Quiet(HeadLines(path)[i])) <==> QuietPath(path)
  {
    var p, h := Split(path, '\n'), HeadLines(path);
    assert h[0][..3] == "---" && h[|p|][..3] == "+++";
    assert forall i :: 1 <= i < |p| ==> h[i] == p[i] && h[|p| + i] == p[i];
    hide Quiet, HeadLines, Split;
    if forall i :: 0 <= i < |h| ==> Quiet(h[i]) {
      assert forall i :: 1 <= i < |p| ==> Quiet(h[i]);
    }
    if QuietPath(path) {
      forall i | 0 <= i < |h|
        ensures Quiet(h[i])
      {
        if i == 0 || i == |p| {
          assert StartsWith(h[i], "---") || StartsWith(h[i], "+++");
          QuietMeta(h[i]);
        } else if i < |p| {
          assert h[i] == p[i];
        } else {
          assert h[|p| + (i - |p|)] == p[i - |p|];
        }
      }
    }
  }

  lemma QuietMeta(line: string)
    requires StartsWith(line, "---") || StartsWith(line, "+++")
    ensures Quiet(line)
  {
  }

  lemma {:induction false} RowsFree(rows: seq<Row>, oldNo: nat, newNo: nat)
    requires Sequential(rows, oldNo, newNo)
    ensures Free(PrintRows(rows), '\n')
    decreases |rows|
  {
    if rows != [] {
      var row := rows[0];
      RowsFree(rows[1..], oldNo + if row.kind == ADD then 0 else 1, newNo + if row.kind == DEL then 0 else 1);
    }
  }

  lemma PrintedLines(path: string, start: nat, rows: seq<Row>)
    requires Sequential(rows, start + 1, start + 1)
    ensures var header := HunkHeader(start, CountOld(rows), CountNew(rows));
            Split(Print(path, start, rows), '\n') == HeadLines(path) + ([header] + PrintRows(rows) + [""])
  {
    var header, printed := HunkHeader(start, CountOld(rows), CountNew(rows)), PrintRows(rows);
    RowsFree(rows, start + 1, start + 1);
    HeaderMatches(start, CountOld(rows), CountNew(rows));
    hide HunkHeader, PrintRows, HeadLines, CountOld, CountNew, Sequential, Split;
    PrintedText(path, header, printed);
  }

  lemma ParseParts(st: ParseState, head: seq<string>, header: string, printed: seq<string>)
    ensures ParseLines(st, head + ([header] + printed + [""])) ==
            ParseLines(ParseLine(ParseLines(st, head), header), printed)
  {
    var next := ParseLine(ParseLines(st, head), header);
    ParseAppend(st, head, [header] + printed + [""]);
    assert ([header] + printed + [""])[1..] == printed + [""];
    ParseAppend(next, printed, [""]);
    assert [""][1..] == [];
    hide FindHunk;
  }

  /** What the page shows for a printed hunk: the header block, the hunk header, the rows. */
  lemma ParsedPrint(path: string, start: nat, rows: seq<Row>) returns (head: ParseState)
    requires Sequential(rows, start + 1, start + 1)
    ensures head == ParseLines(ParseState(0, 0, []), HeadLines(path))
    ensures var header := HunkHeader(start, CountOld(rows), CountNew(rows));
            Parsed(Print(path, start, rows)) ==
            ParseLines(ParseState(start + 1, start + 1, head.rows + [Row(HUNK, header, None, None)]), PrintRows(rows)).rows
  {
    hide HunkHeader, PrintRows, HeadLines, CountOld, CountNew, Sequential, Print, FindHunk;
    var header, printed := HunkHeader(start, CountOld(rows), CountNew(rows)), PrintRows(rows);
    head := ParseLines(ParseState(0, 0, []), HeadLines(path));
    PrintedLines(path, start, rows);
    HeaderMatches(start, CountOld(rows), CountNew(rows));
    ParseParts(ParseState(0, 0, []), HeadLines(path), header, printed);
  }

  /** The page shows exactly the rows of the hunk if and only if no continuation line of the path looks like a row
      and no row is ambiguous. */
  lemma ReviewExact(path: string, start: nat, rows: seq<Row>)
    requires Sequential(rows, start + 1, start + 1)
    ensures Numbered(Parsed(Print(path, start, rows))) == rows <==>
            QuietPath(path) && forall i :: 0 <= i < |rows| ==> !Ambiguous(rows[i])
  {
    var head := ParsedPrint(path, start, rows);
    var header := Row(HUNK, HunkHeader(start, CountOld(rows), CountNew(rows)), None, None);
    var st := ParseState(start + 1, start + 1, head.rows + [header]);
    HeadQuiet(path);
    CountNumbered(ParseState(0, 0, []), HeadLines(path));
    hide HunkHeader, HeadLines, Print, Parsed, CountOld, CountNew;
    if NoAmbiguousRow(rows) {
      ReadRows(st, rows);
      FilterAppend(CarriesText, head.rows + [header], rows);
      FilterAppend(CarriesText, head.rows, [header]);
      SequentialNumbered(rows, start + 1, start + 1);
      assert Numbered([header]) == [] && Numbered([]) == [];
    } else {
      ParsedUnambiguous(ParseState(0, 0, []), HeadLines(path));
      ParsedUnambiguous(st, PrintRows(rows));
      NumberedUnambiguous(ParseLines(st, PrintRows(rows)).rows);
    }
  }

  lemma {:induction false} SequentialNumbered(rows: seq<Row>, oldNo: nat, newNo: nat)
    requires Sequential(rows, oldNo, newNo)
    ensures Numbered(rows) == rows
    decreases |rows|
  {
    if rows != [] {
      var row := rows[0];
      SequentialNumbered(rows[1..], oldNo + if row.kind == ADD then 0 else 1, newNo + if row.kind == DEL then 0 else 1);
    }
  }

  // ----- the printer and the page together -----

  lemma HunkSequential(left: seq<string>, right: seq<string>, prefix: nat, suffix: nat)
    requires prefix + suffix <= |left| && prefix + suffix <= |right| && Free(left, '\n') && Free(right, '\n')
    ensures Sequential(Hunk(left, right, prefix, suffix), HunkStart(prefix) + 1, HunkStart(prefix) + 1)
  {
    hide Context, Deleted, Added, Sequential;
    var start, after := HunkStart(prefix), left[|left| - suffix..ContextEnd(left, suffix)];
    var a := Context(left[start..prefix], start + 1, start + 1);
    var b := Deleted(left[prefix..|left| - suffix], prefix + 1);
    var c := Added(right[prefix..|right| - suffix], prefix + 1);
    var d := Context(after, |left| - suffix + 1, |right| - suffix + 1);
    assert d + [] == d;
    SequentialNil(|left| - suffix + 1 + |after|, |right| - suffix + 1 + |after|);
    SequentialContext(after, |left| - suffix + 1, |right| - suffix + 1, []);
    SequentialAdded(right[prefix..|right| - suffix], |left| - suffix + 1, prefix + 1, d);
    SequentialDeleted(left[prefix..|left| - suffix], prefix + 1, prefix + 1, c + d);
    SequentialContext(left[start..prefix], start + 1, start + 1, b + (c + d));
    Regroup(a, b, c, d);
  }

  lemma SequentialNil(oldNo: nat, newNo: nat)
    ensures Sequential([], oldNo, newNo)
  {
  }

  lemma SequentialCons(row: Row, rest: seq<Row>, oldNo: nat, newNo: nat)
    requires '\n' !in row.text
    requires || (row == Row(CTX, row.text, Some(oldNo), Some(newNo)) && Sequential(rest, oldNo + 1, newNo + 1))
             || (row == Row(DEL, row.text, Some(oldNo), None) && Sequential(rest, oldNo + 1, newNo))
             || (row == Row(ADD, row.text, None, Some(newNo)) && Sequential(rest, oldNo, newNo + 1))
    ensures Sequential([row] + rest, oldNo, newNo)
  {
    assert ([row] + rest)[1..] == rest;
  }

  lemma {:induction false} SequentialContext(lines: seq<string>, oldNo: nat, newNo: nat, rest: seq<Row>)
    requires Free(lines, '\n') && Sequential(rest, oldNo + |lines|, newNo + |lines|)
    ensures Sequential(Context(lines, oldNo, newNo) + rest, oldNo, newNo)
    decreases |lines|
  {
    hide Sequential;
    if lines == [] {
      assert Context(lines, oldNo, newNo) + rest == rest;
    } else {
      SequentialContext(lines[1..], oldNo + 1, newNo + 1, rest);
      var more := Context(lines[1..], oldNo + 1, newNo + 1) + rest;
      SequentialCons(Row(CTX, lines[0], Some(oldNo), Some(newNo)), more, oldNo, newNo);
      assert Context(lines, oldNo, newNo) + rest == [Row(CTX, lines[0], Some(oldNo), Some(newNo))] + more;
    }
  }

  lemma {:induction false} SequentialDeleted(lines: seq<string>, oldNo: nat, newNo: nat, rest: seq<Row>)
    requires Free(lines, '\n') && Sequential(rest, oldNo + |lines|, newNo)
    ensures Sequential(Deleted(lines, oldNo) + rest, oldNo, newNo)
    decreases |lines|
  {
    hide Sequential;
    if lines == [] {
      assert Deleted(lines, oldNo) + rest == rest;
    } else {
      SequentialDeleted(lines[1..], oldNo + 1, newNo, rest);
      var more := Deleted(lines[1..], oldNo + 1) + rest;
      SequentialCons(Row(DEL, lines[0], Some(oldNo), None), more, oldNo, newNo);
      assert Deleted(lines, oldNo) + rest == [Row(DEL, lines[0], Some(oldNo), None)] + more;
    }
  }

  lemma {:induction false} SequentialAdded(lines: seq<string>, oldNo: nat, newNo: nat, rest: seq<Row>)
    requires Free(lines, '\n') && Sequential(rest, oldNo, newNo + |lines|)
    ensures Sequential(Added(lines, newNo) + rest, oldNo, newNo)
    decreases |lines|
  {
    hide Sequential;
    if lines == [] {
      assert Added(lines, newNo) + rest == rest;
    } else {
      SequentialAdded(lines[1..], oldNo, newNo + 1, rest);
      var more := Added(lines[1..], newNo + 1) + rest;
      SequentialCons(Row(ADD, lines[0], None, Some(newNo)), more, oldNo, newNo);
      assert Added(lines, newNo) + rest == [Row(ADD, lines[0], None, Some(newNo))] + more;
    }
  }

  /** No deleted line starts with "--" and no added line with "++". */
  predicate ClearChange(left: seq<string>, right: seq<string>, prefix: nat, suffix: nat)
    requires prefix + suffix <= |left| && prefix + suffix <= |right|
  {
    && (forall i :: prefix <= i < |left| - suffix ==> !StartsWith(left[i], "--"))
    && (forall i :: prefix <= i < |right| - suffix ==> !StartsWith(right[i], "++"))
  }

  lemma ContextClear(lines: seq<string>, oldNo: nat, newNo: nat)
    ensures NoAmbiguousRow(Context(lines, oldNo, newNo))
  {
    ContextRows(lines, oldNo, newNo);
  }

  lemma DeletedClear(lines: seq<string>, oldNo: nat)
    ensures NoAmbiguousRow(Deleted(lines, oldNo)) <==> forall i :: 0 <= i < |lines| ==> !StartsWith(lines[i], "--")
  {
    DeletedRows(lines, oldNo);
    hide StartsWith, Deleted;
    assert forall i :: 0 <= i < |lines| ==> (Ambiguous(Deleted(lines, oldNo)[i]) <==> StartsWith(lines[i], "--"));
  }

  lemma AddedClear(lines: seq<string>, newNo: nat)
    ensures NoAmbiguousRow(Added(lines, newNo)) <==> forall i :: 0 <= i < |lines| ==> !StartsWith(lines[i], "++")
  {
    AddedRows(lines, newNo);
    hide StartsWith, Added;
    assert forall i :: 0 <= i < |lines| ==> (Ambiguous(Added(lines, newNo)[i]) <==> StartsWith(lines[i], "++"));
  }

  lemma HunkAmbiguity(left: seq<string>, right: seq<string>, prefix: nat, suffix: nat)
    requires prefix + suffix <= |left| && prefix + suffix <= |right|
    ensures NoAmbiguousRow(Hunk(left, right, prefix, suffix)) <==> ClearChange(left, right, prefix, suffix)
  {
    hide Context, Deleted, Added, StartsWith, NoAmbiguousRow;
    var start, after := HunkStart(prefix), left[|left| - suffix..ContextEnd(left, suffix)];
    var oldMiddle, newMiddle := left[prefix..|left| - suffix], right[prefix..|right| - suffix];
    var a := Context(left[start..prefix], start + 1, start + 1);
    var b := Deleted(oldMiddle, prefix + 1);
    var c := Added(newMiddle, prefix + 1);
    var d := Context(after, |left| - suffix + 1, |right| - suffix + 1);
    ContextClear(left[start..prefix], start + 1, start + 1);
    DeletedClear(oldMiddle, prefix + 1);
    AddedClear(newMiddle, prefix + 1);
    ContextClear(after, |left| - suffix + 1, |right| - suffix + 1);
    NoAmbiguousAppend(a, b);
    NoAmbiguousAppend(a + b, c);
    NoAmbiguousAppend(a + b + c, d);
    Reindex(left, prefix, |left| - suffix, "--");
    Reindex(right, prefix, |right| - suffix, "++");
  }

  lemma Reindex(lines: seq<string>, from: nat, to: nat, mark: string)
    requires from <= to <= |lines|
    ensures (forall i :: 0 <= i < to - from ==> !StartsWith(lines[from..to][i], mark)) <==>
            (forall i :: from <= i < to ==> !StartsWith(lines[i], mark))
  {
    hide StartsWith;
    if forall i :: 0 <= i < to - from ==> !StartsWith(lines[from..to][i], mark) {
      forall i | from <= i < to
        ensures !StartsWith(lines[i], mark)
      {
        assert lines[i] == lines[from..to][i - from];
      }
    }
  }

  lemma NoAmbiguousAppend(a: seq<Row>, b: seq<Row>)
    ensures NoAmbiguousRow(a + b) <==> NoAmbiguousRow(a) && NoAmbiguousRow(b)
  {
    if NoAmbiguousRow(a + b) {
      assert forall i :: 0 <= i < |a| ==> a[i] == (a + b)[i];
      assert forall i :: 0 <= i < |b| ==> b[i] == (a + b)[|a| + i];
    }
  }

  /** The diff of two texts, read back by the page: the numbered rows are those of the hunk exactly when the path is
      quiet and the change is clear. Then they carry the lines they are labelled with, and patching the old lines
      with them gives the new lines. */
  lemma ReviewedDiff(path: string, left: seq<string>, right: seq<string>, prefix: nat, suffix: nat)
    requires Trimmed(left, right, prefix, suffix) && (left != [] || right != [])
    requires Free(left, '\n') && Free(right, '\n')
    ensures var hunk := Hunk(left, right, prefix, suffix);
            var shown := Numbered(Parsed(Print(path, HunkStart(prefix), hunk)));
            && (shown == hunk <==> QuietPath(path) && ClearChange(left, right, prefix, suffix))
            && (shown == hunk ==>
                  && Patch(left, shown) == Some(right)
                  && forall row :: row in shown ==> Labelled(row, left, right))
  {
    HunkSequential(left, right, prefix, suffix);
    HunkAmbiguity(left, right, prefix, suffix);
    ReviewExact(path, HunkStart(prefix), Hunk(left, right, prefix, suffix));
    HunkPatches(left, right, prefix, suffix);
    HunkLabelled(left, right, prefix, suffix);
  }

  /** `rows` is what the page shows of two texts that have `prefix` and `suffix` lines in common: the hunk exactly when
      the path is quiet and no changed line is ambiguous. Then they are labelled with the lines they carry and patch the
      one text to the other. */
  ghost predicate Shown(path: string, left: seq<string>, right: seq<string>, prefix: nat, suffix: nat, rows: seq<Row>) {
    && Trimmed(left, right, prefix, suffix)
    && (Numbered(rows) == Hunk(left, right, prefix, suffix) <==> QuietPath(path) && ClearChange(left, right, prefix, suffix))
    && (QuietPath(path) && ClearChange(left, right, prefix, suffix) ==>
          && Patch(left, Numbered(rows)) == Some(right)
          && forall row :: row in Numbered(rows) ==> Labelled(row, left, right))
  }

  /** The whole way from two different texts to the rows on the page. */
  method Review(path: string, before: string, after: string) returns (rows: seq<Row>)
    requires before != after
    ensures exists prefix, suffix :: Shown(path, SplitLines(before).lines, SplitLines(after).lines, prefix, suffix, rows)
  {
    hide Hunk, Print, Parsed, Trimmed, Patch, Labelled, SplitLines, QuietPath, ClearChange;
    ghost var left, right := SplitLines(before).lines, SplitLines(after).lines;
    var diff, prefix, suffix := UnifiedDiff(path, before, after);
    rows := ParseDiff(diff);
    SplitLinesInvertible(before);
    SplitLinesInvertible(after);
    DifferentTexts(before, after);
    TrimmedBounds(left, right, prefix, suffix);
    ReviewedDiff(path, left, right, prefix, suffix);
    assert Shown(path, left, right, prefix, suffix, rows);
  }

  lemma TrimmedBounds(left: seq<string>, right: seq<string>, prefix: nat, suffix: nat)
    requires Trimmed(left, right, prefix, suffix)
    ensures prefix + suffix <= |left| && prefix + suffix <= |right|
  {
  }

  /** Only the empty text has no lines. */
  lemma DifferentTexts(before: string, after: string)
    requires before != after
    ensures SplitLines(before).lines != [] || SplitLines(after).lines != []
  {
  }
}
