/** Replacing one value on one line of a text (packages/changeset/src/patch.ts, replaceLineValue). */
module LineReplacement {
  import opened Options
  import opened Text

  // ----- the string operations it is built from -----

  /** The leftmost occurrence. */
  function IndexOf(s: string, sub: string): Option<nat> {
    if StartsWith(s, sub) then Some(0)
    else if s == "" then None
    else
      var rest := IndexOf(s[1..], sub);
      if rest.Some? then Some(rest.value + 1) else None
  }

  /** `s.split(sub).length - 1`: occurrences from the left that do not overlap; an empty `sub` splits into characters. */
  function Occurrences(s: string, sub: string): int
    decreases |s|
  {
    if sub == "" then |s| - 1
    else
      var at := IndexOf(s, sub);
      if at.None? then 0
      else
        IndexBound(s, sub);
        1 + Occurrences(s[at.value + |sub|..], sub)
  }

  lemma {:induction false} IndexBound(s: string, sub: string)
    ensures var at := IndexOf(s, sub);
            at.Some? ==> at.value + |sub| <= |s| && s[at.value..at.value + |sub|] == sub
  {
    if !StartsWith(s, sub) && s != "" {
      IndexBound(s[1..], sub);
      var at := IndexOf(s[1..], sub);
      if at.Some? {
        assert s[1..][at.value..at.value + |sub|] == s[at.value + 1..at.value + 1 + |sub|];
      }
    }
  }

  /** The text has the other one at this place. */
  predicate OccursAt(s: string, sub: string, i: int) {
    0 <= i && i + |sub| <= |s| && s[i..i + |sub|] == sub
  }

  ghost predicate Never(s: string, sub: string) {
    forall i :: !OccursAt(s, sub, i)
  }

  /** It occurs, and not again after its first occurrence. */
  ghost predicate Once(s: string, sub: string) {
    exists i :: OccursAt(s, sub, i) && (forall j :: j < i || j >= i + |sub| ==> !OccursAt(s, sub, j))
  }

  lemma OccurAfter(s: string, sub: string, from: nat, j: int)
    requires from <= |s| && j >= from
    ensures OccursAt(s, sub, j) <==> OccursAt(s[from..], sub, j - from)
  {
    if j + |sub| <= |s| {
      assert s[j..j + |sub|] == s[from..][j - from..j - from + |sub|];
    }
  }

  lemma {:induction false} FirstIndex(s: string, sub: string)
    ensures IndexOf(s, sub).None? ==> Never(s, sub)
    ensures IndexOf(s, sub).Some? ==>
              OccursAt(s, sub, IndexOf(s, sub).value) && forall i :: i < IndexOf(s, sub).value ==> !OccursAt(s, sub, i)
  {
    if StartsWith(s, sub) {
      assert OccursAt(s, sub, 0);
    } else if s != "" {
      FirstIndex(s[1..], sub);
      assert !OccursAt(s, sub, 0) && forall i :: i < 0 ==> !OccursAt(s, sub, i);
      forall i | i > 0
        ensures OccursAt(s, sub, i) <==> OccursAt(s[1..], sub, i - 1)
      {
        OccurAfter(s, sub, 1, i);
      }
      hide OccursAt, StartsWith;
      if IndexOf(s[1..], sub).Some? {
        var k := IndexOf(s[1..], sub).value;
        assert OccursAt(s, sub, k + 1);
      }
    }
  }

  lemma NoneOccur(s: string, sub: string)
    requires sub != ""
    ensures Occurrences(s, sub) >= 0 && (Occurrences(s, sub) == 0 <==> IndexOf(s, sub).None?)
    decreases |s|
  {
    var at := IndexOf(s, sub);
    if at.Some? {
      IndexBound(s, sub);
      NoneOccur(s[at.value + |sub|..], sub);
    }
  }

  lemma OnlyTheFirst(s: string, sub: string, at: nat)
    requires sub != "" && OccursAt(s, sub, at) && forall i :: i < at ==> !OccursAt(s, sub, i)
    ensures Never(s[at + |sub|..], sub) <==> Once(s, sub)
  {
    var from := at + |sub|;
    var rest := s[from..];
    if Never(rest, sub) {
      forall j | j >= from
        ensures !OccursAt(s, sub, j)
      {
        OccurAfter(s, sub, from, j);
      }
    } else {
      var j :| OccursAt(rest, sub, j);
      assert j >= 0;
      OccurAfter(s, sub, from, j + from);
      hide OccursAt;
    }
  }

  /** The source is counted once exactly when it occurs, and not again after its first occurrence; of the empty source that
      is to say that the text has two characters. */
  lemma OccursOnce(s: string, sub: string)
    ensures if sub == "" then Occurrences(s, sub) == 1 <==> |s| == 2 else Occurrences(s, sub) == 1 <==> Once(s, sub)
  {
    if sub != "" {
      SomeOccursOnce(s, sub);
      hide Occurrences, Once;
    }
  }

  lemma SomeOccursOnce(s: string, sub: string)
    requires sub != ""
    ensures Occurrences(s, sub) == 1 <==> Once(s, sub)
  {
    hide OccursAt, Occurrences, IndexOf;
    FirstIndex(s, sub);
    NoneOccur(s, sub);
    if IndexOf(s, sub).Some? {
      hide Once, Never;
      RestOccurs(s, sub);
      OnlyTheFirst(s, sub, IndexOf(s, sub).value);
    }
  }

  lemma RestOccurs(s: string, sub: string)
    requires sub != "" && IndexOf(s, sub).Some?
    ensures var end := IndexOf(s, sub).value + |sub|;
            end <= |s| && (Occurrences(s, sub) == 1 <==> Never(s[end..], sub))
  {
    IndexBound(s, sub);
    var rest := s[IndexOf(s, sub).value + |sub|..];
    assert Occurrences(s, sub) == 1 + Occurrences(rest, sub);
    FirstIndex(rest, sub);
    NoneOccur(rest, sub);
    hide IndexOf, Occurrences, OccursAt;
  }

  /** The replacement patterns of `String.prototype.replace` with a plain string to search for. */
  function Expand(target: string, matched: string, before: string, after: string): string {
    if target == "" then ""
    else if |target| >= 2 && target[0] == '$' && target[1] in "$&`'" then
      (match target[1]
       case '$' => "$"
       case '&' => matched
       case '`' => before
       case _ => after) + Expand(target[2..], matched, before, after)
    else [target[0]] + Expand(target[1..], matched, before, after)
  }

  /** `s.replace(source, target)`. */
  function ReplaceFirst(s: string, source: string, target: string): string {
    var at := IndexOf(s, source);
    if at.None? then s
    else
      IndexBound(s, source);
      var before, after := s[..at.value], s[at.value + |source|..];
      before + Expand(target, source, before, after) + after
  }

  // ----- the operation -----

  function LineAt(text: string, lineNumber: int): Option<string> {
    var lines := Split(text, '\n');
    if 0 <= lineNumber - 1 < |lines| then Some(lines[lineNumber - 1]) else None
  }

  function ReplaceLineValue(text: string, lineNumber: int, source: string, target: string): Option<string> {
    var lines := Split(text, '\n');
    var line := LineAt(text, lineNumber);
    if line.None? || Occurrences(line.value, source) != 1 then None
    else Some(Join(lines[lineNumber - 1 := ReplaceFirst(line.value, source, target)], '\n'))
  }

  // ----- lines and line count -----

  function Newlines(s: string): nat {
    if s == "" then 0 else (if s[0] == '\n' then 1 else 0) + Newlines(s[1..])
  }

  lemma {:induction false} NewlinesAppend(a: string, b: string)
    ensures Newlines(a + b) == Newlines(a) + Newlines(b)
  {
    if a == "" {
      assert a + b == b;
    } else {
      NewlinesAppend(a[1..], b);
      assert (a + b)[1..] == a[1..] + b;
    }
  }

  lemma {:induction false} NewlinesZero(s: string)
    ensures Newlines(s) == 0 <==> '\n' !in s
  {
    if s != "" {
      NewlinesZero(s[1..]);
      assert s == [s[0]] + s[1..];
    }
  }

  lemma {:induction false} SplitCount(s: string)
    ensures |Split(s, '\n')| == Newlines(s) + 1
  {
    if s != "" {
      SplitCount(s[1..]);
    }
  }

  /** What is inserted has as many line breaks as the target: the inserted parts of the line have none. */
  lemma {:induction false} ExpandNewlines(target: string, matched: string, before: string, after: string)
    requires '\n' !in matched && '\n' !in before && '\n' !in after
    ensures Newlines(Expand(target, matched, before, after)) == Newlines(target)
    decreases |target|
  {
    if target == "" {
    } else if |target| >= 2 && target[0] == '$' && target[1] in "$&`'" {
      var piece := match target[1] case '$' => "$" case '&' => matched case '`' => before case _ => after;
      ExpandNewlines(target[2..], matched, before, after);
      NewlinesAppend(piece, Expand(target[2..], matched, before, after));
      NewlinesZero(piece);
      NewlinesZero(target[..2]);
      assert target == target[..2] + target[2..];
      NewlinesAppend(target[..2], target[2..]);
    } else {
      ExpandNewlines(target[1..], matched, before, after);
      assert ([target[0]] + Expand(target[1..], matched, before, after))[1..] == Expand(target[1..], matched, before, after);
    }
  }

  /** Free of replacement patterns: no dollar sign stands before one of the four characters that give it a meaning. */
  predicate Plain(target: string) {
    forall i :: 0 <= i < |target| - 1 && target[i] == '$' ==> target[i + 1] !in "$&`'"
  }

  lemma {:induction false} ExpandPlain(target: string, matched: string, before: string, after: string)
    requires Plain(target)
    ensures Expand(target, matched, before, after) == target
    decreases |target|
  {
    if target != "" {
      ExpandPlain(target[1..], matched, before, after);
    }
  }

  lemma LineNewlines(line: string, source: string, target: string)
    requires '\n' !in line && IndexOf(line, source).Some?
    ensures Newlines(ReplaceFirst(line, source, target)) == Newlines(target)
  {
    IndexBound(line, source);
    var at := IndexOf(line, source).value;
    var before, after := line[..at], line[at + |source|..];
    PartFree(line, 0, at);
    PartFree(line, at, at + |source|);
    PartFree(line, at + |source|, |line|);
    hide Expand, Newlines, IndexOf;
    ExpandNewlines(target, source, before, after);
    SurroundedNewlines(before, Expand(target, source, before, after), after);
  }

  lemma PartFree(line: string, from: nat, to: nat)
    requires '\n' !in line && from <= to <= |line|
    ensures '\n' !in line[from..to]
  {
  }

  lemma SurroundedNewlines(before: string, inserted: string, after: string)
    requires '\n' !in before && '\n' !in after
    ensures Newlines(before + inserted + after) == Newlines(inserted)
  {
    NewlinesAppend(before + inserted, after);
    NewlinesAppend(before, inserted);
    NewlinesZero(before);
    NewlinesZero(after);
  }

  lemma OnceOccurs(line: string, source: string)
    requires Occurrences(line, source) == 1
    ensures IndexOf(line, source).Some?
  {
  }

  lemma {:induction false} JoinNewlines(lines: seq<string>)
    requires lines != [] && Free(lines, '\n')
    ensures Newlines(Join(lines, '\n')) == |lines| - 1
  {
    NewlinesZero(lines[0]);
    if |lines| > 1 {
      JoinNewlines(lines[1..]);
      JoinStep(lines);
    }
  }

  lemma JoinStep(lines: seq<string>)
    requires |lines| > 1
    ensures Newlines(Join(lines, '\n')) == Newlines(lines[0]) + 1 + Newlines(Join(lines[1..], '\n'))
  {
    var rest := Join(lines[1..], '\n');
    assert Join(lines, '\n') == lines[0] + (['\n'] + rest);
    NewlinesAppend(lines[0], ['\n'] + rest);
    assert (['\n'] + rest)[1..] == rest;
  }

  lemma {:induction false} JoinUpdated(lines: seq<string>, i: nat, line: string)
    requires i < |lines| && Free(lines, '\n')
    ensures Newlines(Join(lines[i := line], '\n')) == Newlines(line) + |lines| - 1
  {
    var updated := lines[i := line];
    if |lines| > 1 {
      JoinStep(updated);
      NewlinesZero(lines[0]);
      if i == 0 {
        assert updated[1..] == lines[1..];
        JoinNewlines(lines[1..]);
      } else {
        assert updated[1..] == lines[1..][i - 1 := line];
        JoinUpdated(lines[1..], i - 1, line);
      }
    }
  }

  lemma UpdatedLines(text: string, i: nat, line: string)
    requires i < |Split(text, '\n')|
    ensures var lines, updated := Split(text, '\n'), Join(Split(text, '\n')[i := line], '\n');
            && |Split(updated, '\n')| == |lines| + Newlines(line)
            && ('\n' !in line ==> Split(updated, '\n') == lines[i := line])
  {
    var lines := Split(text, '\n');
    SplitFree(text, '\n');
    JoinUpdated(lines, i, line);
    SplitCount(Join(lines[i := line], '\n'));
    if '\n' !in line {
      SplitJoin(lines[i := line], '\n');
    }
  }

  /** The source stands between the two parts of the line, and nowhere before. */
  ghost predicate Parts(line: string, source: string, before: string, after: string) {
    line == before + source + after && forall i :: i < |before| ==> !OccursAt(line, source, i)
  }

  /** The call succeeds exactly when the line is there and has the source once, and then the target, if it has no pattern,
      stands where the source did. */
  lemma ReplacesExactly(text: string, lineNumber: int, source: string, target: string)
    ensures var lines, result := Split(text, '\n'), ReplaceLineValue(text, lineNumber, source, target);
            && (result.Some? <==>
                  && 1 <= lineNumber <= |lines|
                  && if source == "" then |lines[lineNumber - 1]| == 2 else Once(lines[lineNumber - 1], source))
            && (result.Some? && Plain(target) ==>
                  exists before, after ::
                    && Parts(lines[lineNumber - 1], source, before, after)
                    && result == Some(Join(lines[lineNumber - 1 := before + target + after], '\n')))
  {
    var lines := Split(text, '\n');
    if 1 <= lineNumber <= |lines| {
      var line := lines[lineNumber - 1];
      OccursOnce(line, source);
      if Occurrences(line, source) == 1 && Plain(target) {
        OnceOccurs(line, source);
        hide Occurrences, OccursAt, Once;
        ReplacedParts(line, source, target);
      }
    }
  }

  lemma ReplacedParts(line: string, source: string, target: string)
    requires IndexOf(line, source).Some? && Plain(target)
    ensures exists before, after ::
              Parts(line, source, before, after) && ReplaceFirst(line, source, target) == before + target + after
  {
    IndexBound(line, source);
    FirstIndex(line, source);
    hide IndexOf;
    var at := IndexOf(line, source).value;
    var before, after := line[..at], line[at + |source|..];
    ExpandPlain(target, source, before, after);
    assert line == before + source + after;
    assert Parts(line, source, before, after);
  }

  lemma ReplacedCount(text: string, lineNumber: int, source: string, target: string)
    requires ReplaceLineValue(text, lineNumber, source, target).Some?
    ensures var line := Split(text, '\n')[lineNumber - 1];
            Newlines(ReplaceFirst(line, source, target)) == Newlines(target)
  {
    var line := Split(text, '\n')[lineNumber - 1];
    SplitFree(text, '\n');
    OnceOccurs(line, source);
    LineNewlines(line, source, target);
  }

  /** A successful call changes one line only, and keeps the number of lines exactly when the target has no newline. */
  lemma KeepsOtherLines(text: string, lineNumber: int, source: string, target: string)
    requires ReplaceLineValue(text, lineNumber, source, target).Some?
    ensures var lines, result := Split(text, '\n'), ReplaceLineValue(text, lineNumber, source, target).value;
            && 1 <= lineNumber <= |lines|
            && (|Split(result, '\n')| == |lines| <==> '\n' !in target)
            && ('\n' !in target ==>
                  Split(result, '\n') == lines[lineNumber - 1 := ReplaceFirst(lines[lineNumber - 1], source, target)])
  {
    var line := Split(text, '\n')[lineNumber - 1];
    var newLine := ReplaceFirst(line, source, target);
    ReplacedCount(text, lineNumber, source, target);
    UpdatedLines(text, lineNumber - 1, newLine);
    NewlinesZero(target);
    NewlinesZero(newLine);
  }

  // ----- calls on different lines -----

  function Then(text: Option<string>, lineNumber: int, source: string, target: string): Option<string> {
    if text.None? then None else ReplaceLineValue(text.value, lineNumber, source, target)
  }

  lemma OtherLine(text: string, i: int, source: string, target: string, j: int)
    requires i != j && '\n' !in target && ReplaceLineValue(text, i, source, target).Some?
    ensures LineAt(ReplaceLineValue(text, i, source, target).value, j) == LineAt(text, j)
  {
    KeepsOtherLines(text, i, source, target);
  }

  lemma TwoLines(text: string, i: int, s: string, t: string, j: int, u: string, v: string)
    requires i != j && '\n' !in t && '\n' !in v
    requires ReplaceLineValue(text, i, s, t).Some? && ReplaceLineValue(text, j, u, v).Some?
    ensures var lines := Split(text, '\n');
            Then(ReplaceLineValue(text, i, s, t), j, u, v) ==
            Some(Join(lines[i - 1 := ReplaceFirst(lines[i - 1], s, t)][j - 1 := ReplaceFirst(lines[j - 1], u, v)], '\n'))
  {
    KeepsOtherLines(text, i, s, t);
    OtherLine(text, i, s, t, j);
    hide Split, Join, ReplaceFirst, Occurrences;
  }

  /** Calls on different lines commute, in what they return and in whether they succeed. */
  lemma Commutes(text: string, i: int, s: string, t: string, j: int, u: string, v: string)
    requires i != j && '\n' !in t && '\n' !in v
    ensures Then(ReplaceLineValue(text, i, s, t), j, u, v) == Then(ReplaceLineValue(text, j, u, v), i, s, t)
  {
    var first, second := ReplaceLineValue(text, i, s, t), ReplaceLineValue(text, j, u, v);
    if first.Some? {
      OtherLine(text, i, s, t, j);
    }
    if second.Some? {
      OtherLine(text, j, u, v, i);
    }
    if first.Some? && second.Some? {
      TwoLines(text, i, s, t, j, u, v);
      TwoLines(text, j, u, v, i, s, t);
      KeepsOtherLines(text, i, s, t);
      KeepsOtherLines(text, j, u, v);
      hide Split, Join, ReplaceFirst, Occurrences;
      var lines := Split(text, '\n');
      var a, b := ReplaceFirst(lines[i - 1], s, t), ReplaceFirst(lines[j - 1], u, v);
      var x: seq<string>, y: seq<string> := lines[i - 1 := a], lines[j - 1 := b];
      assert x[j - 1 := b] == y[i - 1 := a];
    }
  }

  // ----- undoing a replacement -----

  lemma {:induction false} Leftmost(s: string, sub: string, i: nat)
    requires i + |sub| <= |s| && s[i..i + |sub|] == sub
    ensures IndexOf(s, sub).Some? && IndexOf(s, sub).value <= i
  {
    if !StartsWith(s, sub) {
      assert i > 0;
      assert s[1..][i - 1..i - 1 + |sub|] == sub;
      Leftmost(s[1..], sub, i - 1);
    }
  }

  lemma ReplaceShape(line: string, source: string, target: string) returns (before: string, after: string)
    requires Plain(target) && IndexOf(line, source).Some?
    ensures IndexOf(line, source) == Some(|before|)
    ensures line == before + source + after && ReplaceFirst(line, source, target) == before + target + after
  {
    var p := IndexOf(line, source).value;
    IndexBound(line, source);
    before, after := line[..p], line[p + |source|..];
    ExpandPlain(target, source, before, after);
  }

  /** Putting the source back at the wrong place never gives the old line: the old line would contain the source
      before its leftmost occurrence. */
  lemma UndoLine(line: string, source: string, target: string)
    requires Plain(source) && Plain(target) && IndexOf(line, source).Some?
    requires IndexOf(ReplaceFirst(line, source, target), target).Some?
    ensures ReplaceFirst(ReplaceFirst(line, source, target), target, source) == line <==>
            IndexOf(ReplaceFirst(line, source, target), target) == IndexOf(line, source)
  {
    hide ReplaceFirst, IndexOf;
    var before, after := ReplaceShape(line, source, target);
    var newLine := ReplaceFirst(line, source, target);
    var newBefore, newAfter := ReplaceShape(newLine, target, source);
    var back := ReplaceFirst(newLine, target, source);
    assert newLine[|before|..|before| + |target|] == target;
    Leftmost(newLine, target, |before|);
    if |newBefore| == |before| {
      assert newBefore == newLine[..|before|] == before;
      assert newAfter == newLine[|before| + |target|..] == after;
    } else if back == line {
      assert back[|newBefore|..|newBefore| + |source|] == source;
      Leftmost(line, source, |newBefore|);
    }
  }

  lemma {:induction false} SameJoin(lines: seq<string>, i: nat, a: string, b: string)
    requires i < |lines| && Join(lines[i := a], '\n') == Join(lines[i := b], '\n')
    ensures a == b
  {
    var x, y := lines[i := a], lines[i := b];
    if |lines| > 1 {
      if i == 0 {
        assert x[1..] == y[1..];
        var rest := ['\n'] + Join(x[1..], '\n');
        assert Join(x, '\n') == a + rest && Join(y, '\n') == b + rest;
        assert |a| == |b|;
        assert a == (a + rest)[..|a|] && b == (b + rest)[..|b|];
      } else {
        assert x[1..] == lines[1..][i - 1 := a] && y[1..] == lines[1..][i - 1 := b];
        assert Join(x, '\n') == lines[0] + ['\n'] + Join(x[1..], '\n');
        assert Join(y, '\n') == lines[0] + ['\n'] + Join(y[1..], '\n');
        assert Join(x[1..], '\n') == Join(x, '\n')[|lines[0]| + 1..];
        assert Join(y[1..], '\n') == Join(y, '\n')[|lines[0]| + 1..];
        SameJoin(lines[1..], i - 1, a, b);
      }
    }
  }

  lemma BrokenOver(line: string, target: string)
    requires '\n' !in line && '\n' in target
    ensures Occurrences(line, target) == 0
  {
    IndexBound(line, target);
  }

  /** Swapping source and target restores the text exactly when the target occurs once in what is on the line then, at
      the place of the replacement. */
  lemma Undo(text: string, lineNumber: int, source: string, target: string)
    requires Plain(source) && Plain(target)
    requires ReplaceLineValue(text, lineNumber, source, target).Some?
    ensures var result := ReplaceLineValue(text, lineNumber, source, target);
            var line, newLine := LineAt(text, lineNumber), LineAt(result.value, lineNumber);
            && line.Some? && newLine.Some?
            && (Then(result, lineNumber, target, source) == Some(text) <==>
                  Occurrences(newLine.value, target) == 1 && IndexOf(newLine.value, target) == IndexOf(line.value, source))
  {
    var lines, result := Split(text, '\n'), ReplaceLineValue(text, lineNumber, source, target).value;
    var newLine := ReplaceFirst(lines[lineNumber - 1], source, target);
    if '\n' !in target {
      KeepsOtherLines(text, lineNumber, source, target);
      UndoPlain(text, lineNumber, source, target);
    } else {
      ReplacedCount(text, lineNumber, source, target);
      UpdatedLines(text, lineNumber - 1, newLine);
      SplitFree(result, '\n');
      BrokenOver(Split(result, '\n')[lineNumber - 1], target);
      hide Split, Join, Occurrences, ReplaceFirst;
    }
  }

  lemma UndoPlain(text: string, lineNumber: int, source: string, target: string)
    requires Plain(source) && Plain(target) && '\n' !in target
    requires ReplaceLineValue(text, lineNumber, source, target).Some?
    ensures var line := Split(text, '\n')[lineNumber - 1];
            var newLine := ReplaceFirst(line, source, target);
            Then(ReplaceLineValue(text, lineNumber, source, target), lineNumber, target, source) == Some(text) <==>
            Occurrences(newLine, target) == 1 && IndexOf(newLine, target) == IndexOf(line, source)
  {
    var lines := Split(text, '\n');
    var line := lines[lineNumber - 1];
    var newLine := ReplaceFirst(line, source, target);
    var result := ReplaceLineValue(text, lineNumber, source, target).value;
    KeepsOtherLines(text, lineNumber, source, target);
    OnceOccurs(line, source);
    JoinSplit(text, '\n');
    if Occurrences(newLine, target) == 1 {
      OnceOccurs(newLine, target);
      UndoLine(line, source, target);
      var back := ReplaceFirst(newLine, target, source);
      hide ReplaceFirst, Occurrences, Split, Join, IndexOf;
      assert lines[lineNumber - 1 := newLine][lineNumber - 1 := back] == lines[lineNumber - 1 := back];
      assert lines[lineNumber - 1 := line] == lines;
      if Join(lines[lineNumber - 1 := back], '\n') == text {
        SameJoin(lines, lineNumber - 1, back, line);
      }
    }
  }

  // ----- replacement patterns -----

  lemma OneLine(line: string)
    requires '\n' !in line
    ensures Split(line, '\n') == [line]
  {
    SplitJoin([line], '\n');
  }

  /** A line whose only occurrence of the source is at `at`. */
  lemma Alone(line: string, source: string, target: string, at: nat)
    requires '\n' !in line && source != "" && IndexOf(line, source) == Some(at) && at + |source| == |line|
    ensures Occurrences(line, source) == 1
    ensures ReplaceLineValue(line, 1, source, target) == Some(line[..at] + Expand(target, source, line[..at], ""))
  {
    OneLine(line);
    assert line[at + |source|..] == "";
    assert IndexOf("", source) == None;
    assert Occurrences("", source) == 0;
    var replaced := line[..at] + Expand(target, source, line[..at], "");
    assert replaced + "" == replaced;
    assert ReplaceFirst(line, source, target) == replaced;
    assert [line][0 := replaced] == [replaced];
  }

  /** With replacement patterns neither direction of `Undo` holds. The target is at the right place, and the source does
      not come back: */
  lemma PatternsKeepFromUndoing()
    ensures ReplaceLineValue("$$", 1, "$$", "x") == Some("x")
    ensures Occurrences("x", "x") == 1 && IndexOf("x", "x") == IndexOf("$$", "$$") == Some(0)
    ensures ReplaceLineValue("x", 1, "x", "$$") == Some("$")
  {
    Alone("$$", "$$", "x", 0);
    Alone("x", "x", "$$", 0);
    assert "x"[1..] == "" && "$$"[2..] == "";
    assert Expand("x", "$$", "", "") == "x" && Expand("$$", "x", "", "") == "$";
    hide *;
    assert "$$"[..0] == "" && "x"[..0] == "" && "" + "x" == "x" && "" + "$" == "$";
  }

  lemma PatternIndices()
    ensures IndexOf("$$&", "$$&") == Some(0) && IndexOf("$$&", "$&") == Some(1)
  {
    assert "$$&"[1..] == "$&" && "$$&"[..2] == "$$" && IndexOf("$&", "$&") == Some(0);
  }

  lemma PatternExpansions()
    ensures Expand("$$&", "$&", "$", "") == "$&" && Expand("$&", "$$&", "", "") == "$$&"
  {
    assert "$$&"[2..] == "&" && "$&"[2..] == "" && "&"[1..] == "";
    assert Expand("&", "$&", "$", "") == "&";
  }

  /** The target is at another place, and the source does come back. */
  lemma PatternsUndo()
    ensures ReplaceLineValue("$$&", 1, "$&", "$$&") == Some("$$&") == ReplaceLineValue("$$&", 1, "$$&", "$&")
    ensures IndexOf("$$&", "$$&") == Some(0) && IndexOf("$$&", "$&") == Some(1)
  {
    PatternIndices();
    PatternExpansions();
    hide Expand, IndexOf;
    Alone("$$&", "$&", "$$&", 1);
    Alone("$$&", "$$&", "$&", 0);
    hide *;
    assert "$$&"[..1] == "$" && "$$&"[..0] == "" && "$" + "$&" == "$$&" && "" + "$$&" == "$$&";
  }
}
