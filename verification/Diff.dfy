/** The unified diff printer (packages/changeset/src/diff.ts) and the rows it is meant to print. */
module Diff {
  import opened Options
  import opened Text

  // ----- lines -----

  datatype Lines = Lines(lines: seq<string>, trailingNewline: bool)

  function SplitLines(text: string): Lines {
    var trailingNewline := text != "" && text[|text| - 1] == '\n';
    var body := if trailingNewline then text[..|text| - 1] else text;
    Lines(if body == "" && !trailingNewline then [] else Split(body, '\n'), trailingNewline)
  }

  function JoinLines(l: Lines): string {
    Join(l.lines, '\n') + if l.trailingNewline then "\n" else ""
  }

  /** The lines and the newline flag determine the text. */
  lemma SplitLinesInvertible(text: string)
    ensures JoinLines(SplitLines(text)) == text
    ensures Free(SplitLines(text).lines, '\n')
  {
    LinesJoined(text);
    LinesFree(text);
  }

  lemma LinesJoined(text: string)
    ensures JoinLines(SplitLines(text)) == text
  {
    if text != "" && text[|text| - 1] == '\n' {
      JoinSplit(text[..|text| - 1], '\n');
      hide Split, Join;
      assert text[..|text| - 1] + "\n" == text;
    } else {
      JoinSplit(text, '\n');
      assert text + "" == text;
    }
  }

  lemma LinesFree(text: string)
    ensures Free(SplitLines(text).lines, '\n')
  {
    SplitFree(text, '\n');
    if text != "" {
      SplitFree(text[..|text| - 1], '\n');
    }
    hide Split;
  }

  // ----- rows -----

  datatype Kind = HUNK | META | ADD | DEL | CTX

  datatype Row = Row(kind: Kind, text: string, oldNo: Option<nat>, newNo: Option<nat>)

  function Context(lines: seq<string>, oldNo: nat, newNo: nat): seq<Row> {
    if lines == [] then []
    else [Row(CTX, lines[0], Some(oldNo), Some(newNo))] + Context(lines[1..], oldNo + 1, newNo + 1)
  }

  function Deleted(lines: seq<string>, oldNo: nat): seq<Row> {
    if lines == [] then [] else [Row(DEL, lines[0], Some(oldNo), None)] + Deleted(lines[1..], oldNo + 1)
  }

  function Added(lines: seq<string>, newNo: nat): seq<Row> {
    if lines == [] then [] else [Row(ADD, lines[0], None, Some(newNo))] + Added(lines[1..], newNo + 1)
  }

  /** The longest common prefix, and the longest common suffix of what is left. */
  ghost predicate Trimmed(left: seq<string>, right: seq<string>, prefix: nat, suffix: nat) {
    && prefix + suffix <= |left| && prefix + suffix <= |right|
    && left[..prefix] == right[..prefix]
    && left[|left| - suffix..] == right[|right| - suffix..]
    && (prefix + suffix < |left| && prefix + suffix < |right| ==>
          && left[prefix] != right[prefix]
          && left[|left| - 1 - suffix] != right[|right| - 1 - suffix])
  }

  const CONTEXT := 3

  function HunkStart(prefix: nat): nat {
    if prefix < CONTEXT then 0 else prefix - CONTEXT
  }

  function ContextEnd(lines: seq<string>, suffix: nat): nat
    requires suffix <= |lines|
  {
    if suffix < CONTEXT then |lines| else |lines| - suffix + CONTEXT
  }

  /** Up to three lines before the change, the old middle, the new middle, up to three lines after it, each numbered
      with its place in the old and in the new text. */
  function Hunk(left: seq<string>, right: seq<string>, prefix: nat, suffix: nat): seq<Row>
    requires prefix + suffix <= |left| && prefix + suffix <= |right|
  {
    var start := HunkStart(prefix);
    Context(left[start..prefix], start + 1, start + 1) +
    Deleted(left[prefix..|left| - suffix], prefix + 1) +
    Added(right[prefix..|right| - suffix], prefix + 1) +
    Context(left[|left| - suffix..ContextEnd(left, suffix)], |left| - suffix + 1, |right| - suffix + 1)
  }

  function CountOld(rows: seq<Row>): nat {
    if rows == [] then 0 else (if rows[0].kind == CTX || rows[0].kind == DEL then 1 else 0) + CountOld(rows[1..])
  }

  function CountNew(rows: seq<Row>): nat {
    if rows == [] then 0 else (if rows[0].kind == CTX || rows[0].kind == ADD then 1 else 0) + CountNew(rows[1..])
  }

  function PrintRow(row: Row): string {
    (match row.kind
     case DEL => "-"
     case ADD => "+"
     case _ => " ") + row.text
  }

  function PrintRows(rows: seq<Row>): seq<string> {
    if rows == [] then [] else [PrintRow(rows[0])] + PrintRows(rows[1..])
  }

  function FileHeader(path: string): string {
    "--- a/" + path + "\n+++ b/" + path
  }

  function HunkHeader(start: nat, oldCount: nat, newCount: nat): string {
    "@@ -" + Decimal(start + 1) + "," + Decimal(oldCount) + " +" + Decimal(start + 1) + "," + Decimal(newCount) + " @@"
  }

  /** A hunk as it should appear: the header announces exactly as many rows as follow. */
  function Print(path: string, start: nat, rows: seq<Row>): string {
    Join([FileHeader(path), HunkHeader(start, CountOld(rows), CountNew(rows))] + PrintRows(rows), '\n') + "\n"
  }

  // ----- lemmas about the parts -----

  lemma {:induction false} PrintAppend(a: seq<Row>, b: seq<Row>)
    ensures PrintRows(a + b) == PrintRows(a) + PrintRows(b)
  {
    if a == [] {
      assert a + b == b;
    } else {
      PrintAppend(a[1..], b);
      assert (a + b)[1..] == a[1..] + b && (a + b)[0] == a[0];
      var x, xs, ys := [PrintRow(a[0])], PrintRows(a[1..]), PrintRows(b);
      assert x + (xs + ys) == x + xs + ys;
    }
  }

  lemma {:induction false} CountAppend(a: seq<Row>, b: seq<Row>)
    ensures CountOld(a + b) == CountOld(a) + CountOld(b)
    ensures CountNew(a + b) == CountNew(a) + CountNew(b)
  {
    if a == [] {
      assert a + b == b;
    } else {
      CountAppend(a[1..], b);
      assert (a + b)[1..] == a[1..] + b;
    }
  }

  lemma {:induction false} ContextRows(lines: seq<string>, oldNo: nat, newNo: nat)
    ensures |Context(lines, oldNo, newNo)| == |lines|
    ensures forall i :: 0 <= i < |lines| ==>
              Context(lines, oldNo, newNo)[i] == Row(CTX, lines[i], Some(oldNo + i), Some(newNo + i))
  {
    if lines != [] {
      ContextRows(lines[1..], oldNo + 1, newNo + 1);
    }
  }

  lemma {:induction false} DeletedRows(lines: seq<string>, oldNo: nat)
    ensures |Deleted(lines, oldNo)| == |lines|
    ensures forall i :: 0 <= i < |lines| ==> Deleted(lines, oldNo)[i] == Row(DEL, lines[i], Some(oldNo + i), None)
  {
    if lines != [] {
      DeletedRows(lines[1..], oldNo + 1);
    }
  }

  lemma {:induction false} AddedRows(lines: seq<string>, newNo: nat)
    ensures |Added(lines, newNo)| == |lines|
    ensures forall i :: 0 <= i < |lines| ==> Added(lines, newNo)[i] == Row(ADD, lines[i], None, Some(newNo + i))
  {
    if lines != [] {
      AddedRows(lines[1..], newNo + 1);
    }
  }

  lemma {:induction false} PartCounts(lines: seq<string>, oldNo: nat, newNo: nat)
    ensures CountOld(Context(lines, oldNo, newNo)) == CountNew(Context(lines, oldNo, newNo)) == |lines|
    ensures CountOld(Deleted(lines, oldNo)) == |lines| && CountNew(Deleted(lines, oldNo)) == 0
    ensures CountOld(Added(lines, newNo)) == 0 && CountNew(Added(lines, newNo)) == |lines|
  {
    if lines != [] {
      PartCounts(lines[1..], oldNo + 1, newNo + 1);
    }
  }

  lemma {:induction false} PrintRowsAt(rows: seq<Row>)
    ensures |PrintRows(rows)| == |rows|
    ensures forall i :: 0 <= i < |rows| ==> PrintRows(rows)[i] == PrintRow(rows[i])
  {
    if rows != [] {
      PrintRowsAt(rows[1..]);
    }
  }

  // ----- what the numbers mean -----

  /** The number of a row is the place of its text in the old, respectively the new text. */
  ghost predicate Labelled(row: Row, left: seq<string>, right: seq<string>) {
    && (row.oldNo.Some? ==> 1 <= row.oldNo.value <= |left| && left[row.oldNo.value - 1] == row.text)
    && (row.newNo.Some? ==> 1 <= row.newNo.value <= |right| && right[row.newNo.value - 1] == row.text)
    && (row.oldNo.Some? <==> row.kind == CTX || row.kind == DEL)
    && (row.newNo.Some? <==> row.kind == CTX || row.kind == ADD)
  }

  lemma ContextLabelled(lines: seq<string>, oldNo: nat, newNo: nat, left: seq<string>, right: seq<string>)
    requires 1 <= oldNo && oldNo - 1 + |lines| <= |left| && left[oldNo - 1..oldNo - 1 + |lines|] == lines
    requires 1 <= newNo && newNo - 1 + |lines| <= |right| && right[newNo - 1..newNo - 1 + |lines|] == lines
    ensures forall row :: row in Context(lines, oldNo, newNo) ==> Labelled(row, left, right)
  {
    ContextRows(lines, oldNo, newNo);
    forall i | 0 <= i < |lines|
      ensures left[oldNo - 1 + i] == lines[i] == right[newNo - 1 + i]
    {
      assert left[oldNo - 1..oldNo - 1 + |lines|][i] == lines[i] == right[newNo - 1..newNo - 1 + |lines|][i];
    }
  }

  lemma DeletedLabelled(lines: seq<string>, oldNo: nat, left: seq<string>, right: seq<string>)
    requires 1 <= oldNo && oldNo - 1 + |lines| <= |left| && left[oldNo - 1..oldNo - 1 + |lines|] == lines
    ensures forall row :: row in Deleted(lines, oldNo) ==> Labelled(row, left, right)
  {
    DeletedRows(lines, oldNo);
    assert forall i :: 0 <= i < |lines| ==> left[oldNo - 1..oldNo - 1 + |lines|][i] == lines[i];
  }

  lemma AddedLabelled(lines: seq<string>, newNo: nat, left: seq<string>, right: seq<string>)
    requires 1 <= newNo && newNo - 1 + |lines| <= |right| && right[newNo - 1..newNo - 1 + |lines|] == lines
    ensures forall row :: row in Added(lines, newNo) ==> Labelled(row, left, right)
  {
    AddedRows(lines, newNo);
    assert forall i :: 0 <= i < |lines| ==> right[newNo - 1..newNo - 1 + |lines|][i] == lines[i];
  }

  lemma SharedContext(left: seq<string>, right: seq<string>, start: nat, prefix: nat, suffix: nat, n: nat)
    requires Trimmed(left, right, prefix, suffix) && start <= prefix && n <= suffix
    ensures left[start..prefix] == right[start..prefix]
    ensures left[|left| - suffix..|left| - suffix + n] == right[|right| - suffix..|right| - suffix + n]
  {
    assert left[start..prefix] == left[..prefix][start..] == right[..prefix][start..] == right[start..prefix];
    assert left[|left| - suffix..|left| - suffix + n] == left[|left| - suffix..][..n];
    assert right[|right| - suffix..|right| - suffix + n] == right[|right| - suffix..][..n];
  }

  lemma HunkLabelled(left: seq<string>, right: seq<string>, prefix: nat, suffix: nat)
    requires Trimmed(left, right, prefix, suffix)
    ensures forall row :: row in Hunk(left, right, prefix, suffix) ==> Labelled(row, left, right)
  {
    hide Context, Deleted, Added, Labelled;
    var start := HunkStart(prefix);
    var after := left[|left| - suffix..ContextEnd(left, suffix)];
    SharedContext(left, right, start, prefix, suffix, |after|);
    ContextLabelled(left[start..prefix], start + 1, start + 1, left, right);
    DeletedLabelled(left[prefix..|left| - suffix], prefix + 1, left, right);
    AddedLabelled(right[prefix..|right| - suffix], prefix + 1, left, right);
    ContextLabelled(after, |left| - suffix + 1, |right| - suffix + 1, left, right);
    var a := Context(left[start..prefix], start + 1, start + 1);
    var b := Deleted(left[prefix..|left| - suffix], prefix + 1);
    var c := Added(right[prefix..|right| - suffix], prefix + 1);
    var d := Context(after, |left| - suffix + 1, |right| - suffix + 1);
    assert Hunk(left, right, prefix, suffix) == a + b + c + d;
    hide *;
    FourParts(a, b, c, d, left, right);
  }

  lemma FourParts(a: seq<Row>, b: seq<Row>, c: seq<Row>, d: seq<Row>, left: seq<string>, right: seq<string>)
    requires forall row :: row in a ==> Labelled(row, left, right)
    requires forall row :: row in b ==> Labelled(row, left, right)
    requires forall row :: row in c ==> Labelled(row, left, right)
    requires forall row :: row in d ==> Labelled(row, left, right)
    ensures forall row :: row in a + b + c + d ==> Labelled(row, left, right)
  {
    hide Labelled;
  }

  // ----- applying a hunk -----

  /** Reads `before` from line `at` on (0-based): context and deleted rows must match it, added rows are inserted. */
  function Apply(before: seq<string>, at: nat, rows: seq<Row>): Option<seq<string>>
    requires at <= |before|
    decreases |rows|
  {
    if rows == [] then Some(before[at..])
    else
      var row := rows[0];
      match row.kind
      case ADD =>
        var rest := Apply(before, at, rows[1..]);
        if rest.Some? then Some([row.text] + rest.value) else None
      case CTX =>
        if at == |before| || before[at] != row.text then None
        else
          var rest := Apply(before, at + 1, rows[1..]);
          if rest.Some? then Some([row.text] + rest.value) else None
      case DEL =>
        if at == |before| || before[at] != row.text then None else Apply(before, at + 1, rows[1..])
      case _ => None
  }

  /** The 0-based line at which a hunk begins, read off its first row. */
  function RowStart(row: Row): int {
    if row.oldNo.Some? then row.oldNo.value - 1 else if row.newNo.Some? then row.newNo.value - 1 else 0
  }

  /** The text before the hunk, then the hunk applied to the rest. */
  function Patch(before: seq<string>, rows: seq<Row>): Option<seq<string>> {
    var start := if rows == [] then 0 else RowStart(rows[0]);
    if start < 0 || start > |before| then None
    else
      var rest := Apply(before, start, rows);
      if rest.Some? then Some(before[..start] + rest.value) else None
  }

  lemma {:induction false} ApplyContext(before: seq<string>, at: nat, lines: seq<string>, oldNo: nat, newNo: nat, rows: seq<Row>)
    requires at + |lines| <= |before| && before[at..at + |lines|] == lines
    requires Apply(before, at + |lines|, rows).Some?
    ensures Apply(before, at, Context(lines, oldNo, newNo) + rows) ==
            Some(lines + Apply(before, at + |lines|, rows).value)
    decreases |lines|
  {
    var all := Context(lines, oldNo, newNo) + rows;
    if lines == [] {
      assert all == rows;
      assert lines + Apply(before, at, rows).value == Apply(before, at, rows).value;
    } else {
      assert before[at] == before[at..at + |lines|][0];
      assert before[at + 1..at + |lines|] == lines[1..];
      assert all[1..] == Context(lines[1..], oldNo + 1, newNo + 1) + rows;
      ApplyContext(before, at + 1, lines[1..], oldNo + 1, newNo + 1, rows);
      var rest := Apply(before, at + |lines|, rows).value;
      assert [lines[0]] + (lines[1..] + rest) == lines + rest;
    }
  }

  lemma {:induction false} ApplyDeleted(before: seq<string>, at: nat, lines: seq<string>, oldNo: nat, rows: seq<Row>)
    requires at + |lines| <= |before| && before[at..at + |lines|] == lines
    ensures Apply(before, at, Deleted(lines, oldNo) + rows) == Apply(before, at + |lines|, rows)
    decreases |lines|
  {
    var all := Deleted(lines, oldNo) + rows;
    if lines == [] {
      assert all == rows;
    } else {
      assert before[at] == before[at..at + |lines|][0];
      assert before[at + 1..at + |lines|] == lines[1..];
      assert all[1..] == Deleted(lines[1..], oldNo + 1) + rows;
      ApplyDeleted(before, at + 1, lines[1..], oldNo + 1, rows);
    }
  }

  lemma {:induction false} ApplyAdded(before: seq<string>, at: nat, lines: seq<string>, newNo: nat, rows: seq<Row>)
    requires at <= |before| && Apply(before, at, rows).Some?
    ensures Apply(before, at, Added(lines, newNo) + rows) == Some(lines + Apply(before, at, rows).value)
    decreases |lines|
  {
    var all := Added(lines, newNo) + rows;
    if lines == [] {
      assert all == rows;
      assert lines + Apply(before, at, rows).value == Apply(before, at, rows).value;
    } else {
      assert all[1..] == Added(lines[1..], newNo + 1) + rows;
      ApplyAdded(before, at, lines[1..], newNo + 1, rows);
      var rest := Apply(before, at, rows).value;
      assert [lines[0]] + (lines[1..] + rest) == lines + rest;
    }
  }

  /** The four parts of a hunk, applied one after the other. */
  lemma ApplyParts(left: seq<string>, start: nat, prefix: nat, middleEnd: nat, newMiddle: seq<string>,
                   rows: seq<Row>, tail: seq<string>)
    requires start <= prefix <= middleEnd <= |left| && Apply(left, middleEnd, rows) == Some(tail)
    ensures Apply(left, start,
                  Context(left[start..prefix], start + 1, start + 1) +
                  (Deleted(left[prefix..middleEnd], prefix + 1) + (Added(newMiddle, prefix + 1) + rows))) ==
            Some(left[start..prefix] + (newMiddle + tail))
  {
    hide Context, Deleted, Added, Apply;
    ApplyAdded(left, middleEnd, newMiddle, prefix + 1, rows);
    var addedRows := Added(newMiddle, prefix + 1) + rows;
    ApplyDeleted(left, prefix, left[prefix..middleEnd], prefix + 1, addedRows);
    ApplyContext(left, start, left[start..prefix], start + 1, start + 1,
                 Deleted(left[prefix..middleEnd], prefix + 1) + addedRows);
  }

  lemma ApplyHunk(left: seq<string>, right: seq<string>, prefix: nat, suffix: nat)
    requires prefix + suffix <= |left| && prefix + suffix <= |right|
    ensures Apply(left, HunkStart(prefix), Hunk(left, right, prefix, suffix)) ==
            Some(left[HunkStart(prefix)..prefix] + (right[prefix..|right| - suffix] + left[|left| - suffix..]))
  {
    hide Context, Deleted, Added, Apply;
    var start, after := HunkStart(prefix), left[|left| - suffix..ContextEnd(left, suffix)];
    var d := Context(after, |left| - suffix + 1, |right| - suffix + 1);
    ApplyAfter(left, |left| - suffix, after, |left| - suffix + 1, |right| - suffix + 1);
    ApplyParts(left, start, prefix, |left| - suffix, right[prefix..|right| - suffix], d, left[|left| - suffix..]);
    Regroup(Context(left[start..prefix], start + 1, start + 1), Deleted(left[prefix..|left| - suffix], prefix + 1),
            Added(right[prefix..|right| - suffix], prefix + 1), d);
  }

  lemma ApplyAfter(before: seq<string>, at: nat, lines: seq<string>, oldNo: nat, newNo: nat)
    requires at + |lines| <= |before| && before[at..at + |lines|] == lines
    ensures Apply(before, at, Context(lines, oldNo, newNo)) == Some(before[at..])
  {
    ApplyContext(before, at, lines, oldNo, newNo, []);
    hide Context;
    assert Context(lines, oldNo, newNo) + [] == Context(lines, oldNo, newNo);
    assert lines + before[at + |lines|..] == before[at..];
  }

  lemma Regroup<T>(a: seq<T>, b: seq<T>, c: seq<T>, d: seq<T>)
    ensures a + b + c + d == a + (b + (c + d))
  {
  }

  lemma HunkFirst(left: seq<string>, right: seq<string>, prefix: nat, suffix: nat)
    requires prefix + suffix <= |left| && prefix + suffix <= |right|
    requires Hunk(left, right, prefix, suffix) != []
    ensures RowStart(Hunk(left, right, prefix, suffix)[0]) == HunkStart(prefix)
  {
    var start := HunkStart(prefix);
    ContextRows(left[start..prefix], start + 1, start + 1);
    DeletedRows(left[prefix..|left| - suffix], prefix + 1);
    AddedRows(right[prefix..|right| - suffix], prefix + 1);
    ContextRows(left[|left| - suffix..ContextEnd(left, suffix)], |left| - suffix + 1, |right| - suffix + 1);
    hide Context, Deleted, Added;
  }

  /** Applying the hunk to the old lines gives the new lines. */
  lemma HunkPatches(left: seq<string>, right: seq<string>, prefix: nat, suffix: nat)
    requires Trimmed(left, right, prefix, suffix) && (left != [] || right != [])
    ensures Patch(left, Hunk(left, right, prefix, suffix)) == Some(right)
  {
    hide Hunk, Apply;
    var start := HunkStart(prefix);
    HunkNotEmpty(left, right, prefix, suffix);
    HunkFirst(left, right, prefix, suffix);
    ApplyHunk(left, right, prefix, suffix);
    Reassemble(left, right, start, prefix, suffix);
  }

  lemma Reassemble(left: seq<string>, right: seq<string>, start: nat, prefix: nat, suffix: nat)
    requires Trimmed(left, right, prefix, suffix) && start <= prefix
    ensures left[..start] + (left[start..prefix] + (right[prefix..|right| - suffix] + left[|left| - suffix..])) == right
  {
    assert left[..start] + left[start..prefix] == left[..prefix] == right[..prefix];
    var middle := right[prefix..|right| - suffix];
    assert right == right[..prefix] + middle + right[|right| - suffix..];
    assert left[..start] + (left[start..prefix] + (middle + left[|left| - suffix..])) ==
           left[..start] + left[start..prefix] + middle + left[|left| - suffix..];
  }

  lemma HunkNotEmpty(left: seq<string>, right: seq<string>, prefix: nat, suffix: nat)
    requires prefix + suffix <= |left| && prefix + suffix <= |right|
    requires left != [] || right != []
    ensures Hunk(left, right, prefix, suffix) != []
  {
    var start := HunkStart(prefix);
    ContextRows(left[start..prefix], start + 1, start + 1);
    DeletedRows(left[prefix..|left| - suffix], prefix + 1);
    AddedRows(right[prefix..|right| - suffix], prefix + 1);
    ContextRows(left[|left| - suffix..ContextEnd(left, suffix)], |left| - suffix + 1, |right| - suffix + 1);
    hide Context, Deleted, Added;
  }

  // ----- the printer -----

  function Prefixed(marker: string, lines: seq<string>): seq<string> {
    seq(|lines|, i requires 0 <= i < |lines| => marker + lines[i])
  }

  lemma PrintedContext(lines: seq<string>, oldNo: nat, newNo: nat)
    ensures PrintRows(Context(lines, oldNo, newNo)) == Prefixed(" ", lines)
  {
    ContextRows(lines, oldNo, newNo);
    PrintRowsAt(Context(lines, oldNo, newNo));
  }

  lemma PrintedDeleted(lines: seq<string>, oldNo: nat)
    ensures PrintRows(Deleted(lines, oldNo)) == Prefixed("-", lines)
  {
    DeletedRows(lines, oldNo);
    PrintRowsAt(Deleted(lines, oldNo));
  }

  lemma PrintedAdded(lines: seq<string>, newNo: nat)
    ensures PrintRows(Added(lines, newNo)) == Prefixed("+", lines)
  {
    AddedRows(lines, newNo);
    PrintRowsAt(Added(lines, newNo));
  }

  method CommonPrefix(left: seq<string>, right: seq<string>) returns (prefix: nat)
    ensures prefix <= |left| && prefix <= |right| && left[..prefix] == right[..prefix]
    ensures prefix < |left| && prefix < |right| ==> left[prefix] != right[prefix]
  {
    prefix := 0;
    while prefix < |left| && prefix < |right| && left[prefix] == right[prefix]
      invariant prefix <= |left| && prefix <= |right| && left[..prefix] == right[..prefix]
    {
      prefix := prefix + 1;
    }
  }

  method CommonSuffix(left: seq<string>, right: seq<string>, prefix: nat) returns (suffix: nat)
    requires prefix <= |left| && prefix <= |right|
    ensures prefix + suffix <= |left| && prefix + suffix <= |right|
    ensures left[|left| - suffix..] == right[|right| - suffix..]
    ensures prefix + suffix < |left| && prefix + suffix < |right| ==>
              left[|left| - 1 - suffix] != right[|right| - 1 - suffix]
  {
    suffix := 0;
    while suffix < |left| - prefix && suffix < |right| - prefix && left[|left| - 1 - suffix] == right[|right| - 1 - suffix]
      invariant prefix + suffix <= |left| && prefix + suffix <= |right|
      invariant left[|left| - suffix..] == right[|right| - suffix..]
    {
      suffix := suffix + 1;
      assert left[|left| - suffix..] == [left[|left| - suffix]] + left[|left| - suffix + 1..];
      assert right[|right| - suffix..] == [right[|right| - suffix]] + right[|right| - suffix + 1..];
    }
  }

  method PushRows(rows0: seq<string>, marker: string, lines: seq<string>) returns (rows: seq<string>)
    ensures rows == rows0 + Prefixed(marker, lines)
  {
    rows := rows0;
    for i := 0 to |lines|
      invariant rows == rows0 + Prefixed(marker, lines[..i])
    {
      rows := rows + [marker + lines[i]];
      assert Prefixed(marker, lines[..i + 1]) == Prefixed(marker, lines[..i]) + [marker + lines[i]];
    }
    assert lines[..|lines|] == lines;
  }

  lemma HunkPrinted(left: seq<string>, right: seq<string>, prefix: nat, suffix: nat)
    requires prefix + suffix <= |left| && prefix + suffix <= |right|
    ensures PrintRows(Hunk(left, right, prefix, suffix)) ==
            Prefixed(" ", left[HunkStart(prefix)..prefix]) + Prefixed("-", left[prefix..|left| - suffix]) +
            Prefixed("+", right[prefix..|right| - suffix]) +
            Prefixed(" ", left[|left| - suffix..ContextEnd(left, suffix)])
  {
    hide Context, Deleted, Added, PrintRows, Prefixed;
    var start, after := HunkStart(prefix), left[|left| - suffix..ContextEnd(left, suffix)];
    var a := Context(left[start..prefix], start + 1, start + 1);
    var b := Deleted(left[prefix..|left| - suffix], prefix + 1);
    var c := Added(right[prefix..|right| - suffix], prefix + 1);
    PrintedContext(left[start..prefix], start + 1, start + 1);
    PrintedDeleted(left[prefix..|left| - suffix], prefix + 1);
    PrintedAdded(right[prefix..|right| - suffix], prefix + 1);
    PrintedContext(after, |left| - suffix + 1, |right| - suffix + 1);
    PrintAppend(a, b);
    PrintAppend(a + b, c);
    PrintAppend(a + b + c, Context(after, |left| - suffix + 1, |right| - suffix + 1));
  }

  /** The counts the printer puts into the header are the numbers of old and of new rows in the hunk. */
  lemma HunkCounts(left: seq<string>, right: seq<string>, prefix: nat, suffix: nat)
    requires prefix + suffix <= |left| && prefix + suffix <= |right|
    ensures var rows := Hunk(left, right, prefix, suffix);
            var outside := prefix - HunkStart(prefix) + (ContextEnd(left, suffix) - (|left| - suffix));
            && CountOld(rows) == outside + (|left| - suffix - prefix)
            && CountNew(rows) == outside + (|right| - suffix - prefix)
  {
    hide Context, Deleted, Added, CountOld, CountNew;
    var start, after := HunkStart(prefix), left[|left| - suffix..ContextEnd(left, suffix)];
    var a := Context(left[start..prefix], start + 1, start + 1);
    var b := Deleted(left[prefix..|left| - suffix], prefix + 1);
    var c := Added(right[prefix..|right| - suffix], prefix + 1);
    PartCounts(left[start..prefix], start + 1, start + 1);
    PartCounts(left[prefix..|left| - suffix], prefix + 1, prefix + 1);
    PartCounts(right[prefix..|right| - suffix], prefix + 1, prefix + 1);
    PartCounts(after, |left| - suffix + 1, |right| - suffix + 1);
    CountAppend(a, b);
    CountAppend(a + b, c);
    CountAppend(a + b + c, Context(after, |left| - suffix + 1, |right| - suffix + 1));
  }

  // ----- the printed text, line by line -----

  function HeadLines(path: string): seq<string> {
    var p := Split(path, '\n');
    ["--- a/" + p[0]] + p[1..] + (["+++ b/" + p[0]] + p[1..])
  }

  lemma SplitHeader(path: string)
    ensures Split(FileHeader(path), '\n') == HeadLines(path)
  {
    var a, b := "--- a/" + path, "+++ b/" + path;
    assert FileHeader(path) == a + ['\n'] + b;
    SplitAppend(a, b, '\n');
    SplitPrefix("--- a/", path, '\n');
    SplitPrefix("+++ b/", path, '\n');
  }

  lemma PrintShape(path: string, header: string, printed: seq<string>)
    ensures Join([FileHeader(path), header] + printed, '\n') + "\n" ==
            FileHeader(path) + ['\n'] + (Join([header] + printed, '\n') + "\n")
  {
    hide FileHeader;
    assert ([FileHeader(path), header] + printed)[1..] == [header] + printed;
  }

  lemma NoNewline(digits: string)
    requires AllDigits(digits)
    ensures '\n' !in digits
  {
  }

  lemma PrintedText(path: string, header: string, printed: seq<string>)
    requires Free([header] + printed, '\n')
    ensures Split(Join([FileHeader(path), header] + printed, '\n') + "\n", '\n') ==
            HeadLines(path) + ([header] + printed + [""])
  {
    PrintShape(path, header, printed);
    SplitHeader(path);
    assert Split("", '\n') == [""];
    hide FileHeader, HeadLines, Split;
    var tail := Join([header] + printed, '\n');
    SplitAppend(FileHeader(path), tail + "\n", '\n');
    SplitJoin([header] + printed, '\n');
    assert tail + "\n" == tail + ['\n'] + "";
    SplitAppend(tail, "", '\n');
  }

  datatype Announcement = Announcement(oldStart: nat, oldCount: nat, newStart: nat, newCount: nat)

  /** Some text, and the numeral after it. */
  function ReadNumber(s: string, mark: string): Option<(nat, string)> {
    if !StartsWith(s, mark) || TakeDigits(s[|mark|..]).0 == "" then None
    else Some((Value(TakeDigits(s[|mark|..]).0), TakeDigits(s[|mark|..]).1))
  }

  /** Reads `@@ -a,b +c,d @@`. */
  function ReadHeader(line: string): Option<Announcement> {
    var a := ReadNumber(line, "@@ -");
    if a.None? then None
    else
      var b := ReadNumber(a.value.1, ",");
      if b.None? then None
      else
        var c := ReadNumber(b.value.1, " +");
        if c.None? then None
        else
          var d := ReadNumber(c.value.1, ",");
          if d.None? || d.value.1 != " @@" then None
          else Some(Announcement(a.value.0, b.value.0, c.value.0, d.value.0))
  }

  /** How many lines begin with one of the marks. */
  function Marked(lines: seq<string>, marks: string): nat {
    if lines == [] then 0
    else (if lines[0] != "" && lines[0][0] in marks then 1 else 0) + Marked(lines[1..], marks)
  }

  /** The lines of a hunk: up to three unchanged lines, the old lines, the new lines, up to three unchanged lines. */
  function HunkText(left: seq<string>, right: seq<string>, prefix: nat, suffix: nat): seq<string>
    requires prefix + suffix <= |left| && prefix + suffix <= |right|
  {
    Prefixed(" ", left[if prefix < 3 then 0 else prefix - 3..prefix]) +
    Prefixed("-", left[prefix..|left| - suffix]) +
    Prefixed("+", right[prefix..|right| - suffix]) +
    Prefixed(" ", left[|left| - suffix..if suffix < 3 then |left| else |left| - suffix + 3])
  }

  /** The text of a diff, after the file header: a line that announces how many old and how many new lines follow, and
      from where, and these lines. */
  ghost predicate Announces(head: nat, rows: seq<string>, prefix: nat, lines: seq<string>) {
    var start := if prefix < 3 then 1 else prefix - 2;
    && |lines| == head + 1 + |rows| + 1 && lines[head + 1..|lines| - 1] == rows && lines[|lines| - 1] == ""
    && ReadHeader(lines[head]) == Some(Announcement(start, Marked(rows, " -"), start, Marked(rows, " +")))
  }

  lemma {:induction false} MarkedAppend(a: seq<string>, b: seq<string>, marks: string)
    ensures Marked(a + b, marks) == Marked(a, marks) + Marked(b, marks)
  {
    if a == [] {
      assert a + b == b;
    } else {
      MarkedAppend(a[1..], b, marks);
      assert (a + b)[1..] == a[1..] + b;
    }
  }

  lemma {:induction false} MarkedPrefixed(marker: char, lines: seq<string>, marks: string)
    ensures Marked(Prefixed([marker], lines), marks) == if marker in marks then |lines| else 0
  {
    if lines != [] {
      MarkedPrefixed(marker, lines[1..], marks);
      assert Prefixed([marker], lines)[1..] == Prefixed([marker], lines[1..]);
      assert Prefixed([marker], lines)[0] == [marker] + lines[0];
    }
  }

  lemma FourMarked(a: seq<string>, b: seq<string>, c: seq<string>, d: seq<string>)
    ensures var rows := Prefixed(" ", a) + Prefixed("-", b) + Prefixed("+", c) + Prefixed(" ", d);
            && Marked(rows, " -") == |a| + |b| + |d|
            && Marked(rows, " +") == |a| + |c| + |d|
  {
    FourMarks(a, b, c, d, " -");
    FourMarks(a, b, c, d, " +");
  }

  lemma FourMarks(a: seq<string>, b: seq<string>, c: seq<string>, d: seq<string>, marks: string)
    ensures Marked(Prefixed(" ", a) + Prefixed("-", b) + Prefixed("+", c) + Prefixed(" ", d), marks) ==
            (if ' ' in marks then |a| + |d| else 0) + (if '-' in marks then |b| else 0) + (if '+' in marks then |c| else 0)
  {
    var w, x, y, z := Prefixed(" ", a), Prefixed("-", b), Prefixed("+", c), Prefixed(" ", d);
    MarkedAppend(w, x, marks);
    MarkedAppend(w + x, y, marks);
    MarkedAppend(w + x + y, z, marks);
    MarkedPrefixed(' ', a, marks);
    MarkedPrefixed('-', b, marks);
    MarkedPrefixed('+', c, marks);
    MarkedPrefixed(' ', d, marks);
    hide Prefixed, Marked;
  }

  lemma ReadDecimal(mark: string, n: nat, rest: string)
    requires rest != "" ==> !IsDigit(rest[0])
    ensures ReadNumber(mark + (Decimal(n) + rest), mark) == Some((n, rest))
  {
    hide Decimal, Value, TakeDigits;
    var s := mark + (Decimal(n) + rest);
    assert s[..|mark|] == mark && s[|mark|..] == Decimal(n) + rest;
    TakeDigitsOf(Decimal(n), rest);
    ValueDecimal(n);
  }

  lemma ReadNumbers(a: nat, b: nat, c: nat, d: nat)
    ensures ReadHeader("@@ -" + (Decimal(a) + ("," + (Decimal(b) + (" +" + (Decimal(c) + ("," + (Decimal(d) + " @@")))))))) ==
            Some(Announcement(a, b, c, d))
  {
    hide Decimal, ReadNumber;
    var r4 := "," + (Decimal(d) + " @@");
    var r3 := " +" + (Decimal(c) + r4);
    var r2 := "," + (Decimal(b) + r3);
    ReadDecimal("@@ -", a, r2);
    ReadDecimal(",", b, r3);
    ReadDecimal(" +", c, r4);
    ReadDecimal(",", d, " @@");
  }

  lemma HeaderRead(start: nat, oldCount: nat, newCount: nat)
    ensures ReadHeader(HunkHeader(start, oldCount, newCount)) == Some(Announcement(start + 1, oldCount, start + 1, newCount))
    ensures '\n' !in HunkHeader(start, oldCount, newCount)
  {
    hide Decimal, ReadHeader;
    var a, b, d := Decimal(start + 1), Decimal(oldCount), Decimal(newCount);
    assert "@@ -" + (a + ("," + (b + (" +" + (a + ("," + (d + " @@"))))))) == HunkHeader(start, oldCount, newCount);
    ReadNumbers(start + 1, oldCount, start + 1, newCount);
    NoNewline(a);
    NoNewline(b);
    NoNewline(d);
  }

  lemma PrefixedFree(marker: string, lines: seq<string>, from: nat, to: nat)
    requires '\n' !in marker && from <= to <= |lines| && Free(lines, '\n')
    ensures Free(Prefixed(marker, lines[from..to]), '\n')
  {
    forall i | 0 <= i < to - from
      ensures '\n' !in Prefixed(marker, lines[from..to])[i]
    {
      assert lines[from..to][i] == lines[from + i];
    }
  }

  lemma FreeAppend(a: seq<string>, b: seq<string>)
    requires Free(a, '\n') && Free(b, '\n')
    ensures Free(a + b, '\n')
  {
  }

  lemma PrintedFree(left: seq<string>, right: seq<string>, prefix: nat, suffix: nat)
    requires prefix + suffix <= |left| && prefix + suffix <= |right| && Free(left, '\n') && Free(right, '\n')
    ensures Free(PrintRows(Hunk(left, right, prefix, suffix)), '\n')
  {
    HunkPrinted(left, right, prefix, suffix);
    PrefixedFree(" ", left, HunkStart(prefix), prefix);
    PrefixedFree("-", left, prefix, |left| - suffix);
    PrefixedFree("+", right, prefix, |right| - suffix);
    PrefixedFree(" ", left, |left| - suffix, ContextEnd(left, suffix));
    hide Prefixed, Hunk, PrintRows, Free;
    var a, b := Prefixed(" ", left[HunkStart(prefix)..prefix]), Prefixed("-", left[prefix..|left| - suffix]);
    var c, d := Prefixed("+", right[prefix..|right| - suffix]), Prefixed(" ", left[|left| - suffix..ContextEnd(left, suffix)]);
    FreeAppend(a, b);
    FreeAppend(a + b, c);
    FreeAppend(a + b + c, d);
  }

  lemma HunkTextPrinted(left: seq<string>, right: seq<string>, prefix: nat, suffix: nat)
    requires prefix + suffix <= |left| && prefix + suffix <= |right|
    ensures PrintRows(Hunk(left, right, prefix, suffix)) == HunkText(left, right, prefix, suffix)
  {
    HunkPrinted(left, right, prefix, suffix);
    hide PrintRows, Hunk, Prefixed;
  }

  lemma HunkTextMarked(left: seq<string>, right: seq<string>, prefix: nat, suffix: nat)
    requires prefix + suffix <= |left| && prefix + suffix <= |right|
    ensures var hunk, rows := Hunk(left, right, prefix, suffix), HunkText(left, right, prefix, suffix);
            Marked(rows, " -") == CountOld(hunk) && Marked(rows, " +") == CountNew(hunk)
  {
    hide Hunk, CountOld, CountNew, Marked, Prefixed;
    HunkCounts(left, right, prefix, suffix);
    FourMarked(left[HunkStart(prefix)..prefix], left[prefix..|left| - suffix], right[prefix..|right| - suffix],
               left[|left| - suffix..ContextEnd(left, suffix)]);
  }

  /** The printed hunk of two texts announces what follows. */
  lemma PrintAnnounces(path: string, left: seq<string>, right: seq<string>, prefix: nat, suffix: nat)
    requires prefix + suffix <= |left| && prefix + suffix <= |right| && Free(left, '\n') && Free(right, '\n')
    ensures var diff := Print(path, HunkStart(prefix), Hunk(left, right, prefix, suffix));
            && StartsWith(diff, "--- a/" + path + "\n+++ b/" + path + "\n")
            && Announces(2 * |Split(path, '\n')|, HunkText(left, right, prefix, suffix), prefix, Split(diff, '\n'))
  {
    var hunk, rows := Hunk(left, right, prefix, suffix), HunkText(left, right, prefix, suffix);
    var header := HunkHeader(HunkStart(prefix), CountOld(hunk), CountNew(hunk));
    PrintedFree(left, right, prefix, suffix);
    HunkTextPrinted(left, right, prefix, suffix);
    assert Print(path, HunkStart(prefix), hunk) == Join([FileHeader(path), header] + rows, '\n') + "\n";
    hide *;
    HeaderAnnounces(left, right, prefix, suffix);
    TextAnnounces(path, header, rows, prefix);
  }

  lemma HeaderAnnounces(left: seq<string>, right: seq<string>, prefix: nat, suffix: nat)
    requires prefix + suffix <= |left| && prefix + suffix <= |right|
    ensures var hunk, rows := Hunk(left, right, prefix, suffix), HunkText(left, right, prefix, suffix);
            var header, start := HunkHeader(HunkStart(prefix), CountOld(hunk), CountNew(hunk)), HunkStart(prefix) + 1;
            '\n' !in header && ReadHeader(header) == Some(Announcement(start, Marked(rows, " -"), start, Marked(rows, " +")))
  {
    hide Hunk, HunkText, HunkHeader, ReadHeader, Marked, CountOld, CountNew;
    HunkTextMarked(left, right, prefix, suffix);
    HeaderRead(HunkStart(prefix), CountOld(Hunk(left, right, prefix, suffix)), CountNew(Hunk(left, right, prefix, suffix)));
  }

  lemma TextAnnounces(path: string, header: string, rows: seq<string>, prefix: nat)
    requires '\n' !in header && Free(rows, '\n')
    requires ReadHeader(header) == Some(Announcement(HunkStart(prefix) + 1, Marked(rows, " -"), HunkStart(prefix) + 1,
                                                     Marked(rows, " +")))
    ensures var diff := Join([FileHeader(path), header] + rows, '\n') + "\n";
            && StartsWith(diff, "--- a/" + path + "\n+++ b/" + path + "\n")
            && Announces(2 * |Split(path, '\n')|, rows, prefix, Split(diff, '\n'))
  {
    PrintedText(path, header, rows);
    hide ReadHeader, Announces, Split, Join, HeadLines, StartsWith, Marked;
    HeadShape(path);
    DiffStarts(path, header, rows);
    Assembled(HeadLines(path), header, rows, prefix);
  }

  lemma Assembled(head: seq<string>, header: string, rows: seq<string>, prefix: nat)
    requires ReadHeader(header) == Some(Announcement(HunkStart(prefix) + 1, Marked(rows, " -"), HunkStart(prefix) + 1,
                                                     Marked(rows, " +")))
    ensures Announces(|head|, rows, prefix, head + ([header] + rows + [""]))
  {
    AfterHead(head, header, rows);
    hide ReadHeader, Marked;
  }

  lemma DiffStarts(path: string, header: string, printed: seq<string>)
    ensures StartsWith(Join([FileHeader(path), header] + printed, '\n') + "\n", "--- a/" + path + "\n+++ b/" + path + "\n")
  {
    PrintShape(path, header, printed);
    HeadShape(path);
  }

  lemma HeadShape(path: string)
    ensures |HeadLines(path)| == 2 * |Split(path, '\n')|
    ensures FileHeader(path) + ['\n'] == "--- a/" + path + "\n+++ b/" + path + "\n"
  {
  }

  lemma AfterHead(head: seq<string>, header: string, printed: seq<string>)
    ensures var lines := head + ([header] + printed + [""]);
            && lines[|head|] == header && lines[|lines| - 1] == "" && lines[|head| + 1..|lines| - 1] == printed
  {
  }

  /** The header lines and the four blocks of rows. */
  method HunkLines(header: string, left: seq<string>, right: seq<string>, p: nat, s: nat) returns (rows: seq<string>)
    requires p + s <= |left| && p + s <= |right|
    ensures var hunk := Hunk(left, right, p, s);
            rows == [header, HunkHeader(HunkStart(p), CountOld(hunk), CountNew(hunk))] + PrintRows(hunk)
  {
    hide Hunk, PrintRows, Context, Deleted, Added, Decimal, Prefixed, CountOld, CountNew;
    var start := if p < CONTEXT then 0 else p - CONTEXT;
    var oldMiddle, newMiddle := left[p..|left| - s], right[p..|right| - s];
    var contextAfter := left[|left| - s..ContextEnd(left, s)];
    var contextBefore := left[start..p];
    var oldCount := |contextBefore| + |oldMiddle| + |contextAfter|;
    var newCount := |contextBefore| + |newMiddle| + |contextAfter|;
    rows := [header, "@@ -" + Decimal(start + 1) + "," + Decimal(oldCount) + " +" + Decimal(start + 1) + ","
                     + Decimal(newCount) + " @@"];
    ghost var top := rows;
    rows := PushRows(rows, " ", contextBefore);
    rows := PushRows(rows, "-", oldMiddle);
    rows := PushRows(rows, "+", newMiddle);
    rows := PushRows(rows, " ", contextAfter);
    HunkPrinted(left, right, p, s);
    HunkCounts(left, right, p, s);
    Regroup5(top, Prefixed(" ", contextBefore), Prefixed("-", oldMiddle), Prefixed("+", newMiddle),
             Prefixed(" ", contextAfter));
  }

  /** Equal texts give the file header alone; otherwise the hunk around the longest common prefix and suffix, with a header
      that announces it. */
  method UnifiedDiff(path: string, before: string, after: string)
    returns (diff: string, ghost prefix: nat, ghost suffix: nat)
    ensures before == after ==> diff == FileHeader(path) + "\n"
    ensures before != after ==>
              && Trimmed(SplitLines(before).lines, SplitLines(after).lines, prefix, suffix)
              && diff == Print(path, HunkStart(prefix),
                               Hunk(SplitLines(before).lines, SplitLines(after).lines, prefix, suffix))
              && StartsWith(diff, "--- a/" + path + "\n+++ b/" + path + "\n")
              && Announces(2 * |Split(path, '\n')|, HunkText(SplitLines(before).lines, SplitLines(after).lines, prefix, suffix),
                           prefix, Split(diff, '\n'))
  {
    hide Hunk, PrintRows, SplitLines, Join, CountOld, CountNew, HunkHeader, Announces, HunkText, StartsWith, Split;
    var left, right := SplitLines(before).lines, SplitLines(after).lines;
    var header := "--- a/" + path + "\n+++ b/" + path;
    prefix, suffix := 0, 0;
    if before == after {
      diff := header + "\n";
      return;
    }
    var p := CommonPrefix(left, right);
    var s := CommonSuffix(left, right, p);
    prefix, suffix := p, s;
    var rows := HunkLines(header, left, right, p, s);
    diff := Join(rows, '\n') + "\n";
    SplitLinesInvertible(before);
    SplitLinesInvertible(after);
    PrintAnnounces(path, left, right, p, s);
  }

  lemma Regroup5<T>(t: seq<T>, a: seq<T>, b: seq<T>, c: seq<T>, d: seq<T>)
    ensures t + a + b + c + d == t + (a + b + c + d)
  {
  }
}
