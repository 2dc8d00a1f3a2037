/** A reader of JSON texts without white space, after RFC 8259, and what it makes of canonical text: the printer of
    `CanonicalJson` writes JSON, and the JSON says what it should. */
module JsonReading {
  import opened CanonicalJson
  import opened Options
  import opened Text

  // ----- strings (section 7 of RFC 8259) -----

  function HexDigit(c: char): Option<nat> {
    if '0' <= c <= '9' then Some(c as int - '0' as int)
    else if 'a' <= c <= 'f' then Some(c as int - 'a' as int + 10)
    else if 'A' <= c <= 'F' then Some(c as int - 'A' as int + 10)
    else None
  }

  /** Four hexadecimal digits that do not name a surrogate. */
  function ReadUnit(s: string): Option<char>
    requires |s| >= 4
  {
    var a, b, c, d := HexDigit(s[0]), HexDigit(s[1]), HexDigit(s[2]), HexDigit(s[3]);
    if a.None? || b.None? || c.None? || d.None? then None
    else
      var code := 4096 * a.value + 256 * b.value + 16 * c.value + d.value;
      if code < 0xD800 || (0xE000 <= code <= 0xFFFF) then Some(code as char) else None
  }

  /** One character of a string, which is not its closing quotation mark. */
  function ReadChar(s: string): (r: Option<(char, string)>)
    ensures r.Some? ==> |r.value.1| < |s|
  {
    if s == "" || s[0] == '\"' || s[0] < ' ' then None
    else if s[0] != '\\' then Some((s[0], s[1..]))
    else if |s| < 2 then None
    else
      match s[1]
      case '\"' => Some(('\"', s[2..]))
      case '\\' => Some(('\\', s[2..]))
      case '/' => Some(('/', s[2..]))
      case 'b' => Some((8 as char, s[2..]))
      case 'f' => Some((12 as char, s[2..]))
      case 'n' => Some((10 as char, s[2..]))
      case 'r' => Some((13 as char, s[2..]))
      case 't' => Some((9 as char, s[2..]))
      case 'u' =>
        if |s| < 6 || ReadUnit(s[2..]).None? then None else Some((ReadUnit(s[2..]).value, s[6..]))
      case _ => None
  }

  /** The rest of a string, after its opening quotation mark. */
  function ReadString(s: string): (r: Option<(string, string)>)
    ensures r.Some? ==> |r.value.1| < |s|
    decreases |s|
  {
    if s != "" && s[0] == '\"' then Some(("", s[1..]))
    else
      var c := ReadChar(s);
      if c.None? then None
      else
        var more := ReadString(c.value.1);
        if more.None? then None else Some(([c.value.0] + more.value.0, more.value.1))
  }

  // ----- values (sections 3 to 6 of RFC 8259) -----

  /** The longest prefix of characters of numerals. */
  function TakeNumeral(s: string): (r: (string, string))
    ensures |r.0| + |r.1| == |s|
  {
    if s == "" || !IsNumeralChar(s[0]) then ("", s)
    else ([s[0]] + TakeNumeral(s[1..]).0, TakeNumeral(s[1..]).1)
  }

  function ReadValue(s: string): (r: Option<(Json, string)>)
    ensures r.Some? ==> |r.value.1| < |s|
    decreases |s|, 0
  {
    if StartsWith(s, "null") then Some((Null, s[4..]))
    else if StartsWith(s, "true") then Some((Bool(true), s[4..]))
    else if StartsWith(s, "false") then Some((Bool(false), s[5..]))
    else if StartsWith(s, "\"") then
      var text := ReadString(s[1..]);
      if text.None? then None else Some((Str(text.value.0), text.value.1))
    else if StartsWith(s, "[]") then Some((Arr([]), s[2..]))
    else if StartsWith(s, "[") then
      var items := ReadItems(s[1..]);
      if items.None? then None else Some((Arr(items.value.0), items.value.1))
    else if StartsWith(s, "{}") then Some((Obj([]), s[2..]))
    else if StartsWith(s, "{") then
      var entries := ReadEntries(s[1..]);
      if entries.None? then None else Some((Obj(entries.value.0), entries.value.1))
    else if IsNumeral(TakeNumeral(s).0) then Some((Num(TakeNumeral(s).0), TakeNumeral(s).1))
    else None
  }

  /** Items, and the bracket that closes them. */
  function ReadItems(s: string): (r: Option<(seq<Json>, string)>)
    ensures r.Some? ==> |r.value.1| < |s|
    decreases |s|, 1
  {
    var item := ReadValue(s);
    if item.None? then None
    else if StartsWith(item.value.1, "]") then Some(([item.value.0], item.value.1[1..]))
    else if !StartsWith(item.value.1, ",") then None
    else
      var more := ReadItems(item.value.1[1..]);
      if more.None? then None else Some(([item.value.0] + more.value.0, more.value.1))
  }

  /** Entries, and the bracket that closes them. */
  function ReadEntries(s: string): (r: Option<(seq<Entry>, string)>)
    ensures r.Some? ==> |r.value.1| < |s|
    decreases |s|, 1
  {
    var key := if StartsWith(s, "\"") then ReadString(s[1..]) else None;
    if key.None? || !StartsWith(key.value.1, ":") then None
    else
      var value := ReadValue(key.value.1[1..]);
      if value.None? then None
      else
        var entry := Entry(key.value.0, value.value.0);
        if StartsWith(value.value.1, "}") then Some(([entry], value.value.1[1..]))
        else if !StartsWith(value.value.1, ",") then None
        else
          var more := ReadEntries(value.value.1[1..]);
          if more.None? then None else Some(([entry] + more.value.0, more.value.1))
  }

  // ----- reading back what is printed -----

  lemma StartsWithSelf(p: string, rest: string)
    ensures StartsWith(p + rest, p) && (p + rest)[|p|..] == rest
  {
  }

  lemma HexRead(i: nat)
    requires i < 16
    ensures HexDigit(HEX[i]) == Some(i)
  {
  }

  lemma ReadEscaped(c: char, rest: string)
    ensures ReadChar(Escaped(c) + rest) == Some((c, rest))
  {
    var s := Escaped(c) + rest;
    assert s[|Escaped(c)|..] == rest;
    if |Escaped(c)| == 6 {
      ReadControl(c, rest);
    }
  }

  lemma ReadControl(c: char, rest: string)
    requires |Escaped(c)| == 6
    ensures ReadChar(Escaped(c) + rest) == Some((c, rest))
  {
    var s := Escaped(c) + rest;
    var n := c as int;
    assert n < 32 && s[2..6] == "00" + [HEX[n / 16], HEX[n % 16]] && s[6..] == rest;
    HexRead(n / 16);
    HexRead(n % 16);
    assert s[2..][0] == '0' && s[2..][1] == '0' && s[2..][2] == HEX[n / 16] && s[2..][3] == HEX[n % 16];
    assert ReadUnit(s[2..]) == Some(c);
  }

  lemma {:induction false} ReadQuoted(text: string, rest: string)
    ensures ReadString(EscapedAll(text) + "\"" + rest) == Some((text, rest))
  {
    QuotedHead(text, rest);
    QuotedStep(text, rest);
    hide Escaped, ReadChar;
    if text == "" {
      assert ("\"" + rest)[1..] == rest;
    } else {
      ReadEscaped(text[0], EscapedAll(text[1..]) + "\"" + rest);
      ReadQuoted(text[1..], rest);
      assert text == [text[0]] + text[1..];
    }
  }

  lemma {:induction false} ReadNumeral(n: string, rest: string)
    requires Stops(rest) && forall i :: 0 <= i < |n| ==> IsNumeralChar(n[i])
    ensures TakeNumeral(n + rest) == (n, rest)
  {
    if n == "" {
      assert n + rest == rest;
    } else {
      ReadNumeral(n[1..], rest);
      assert (n + rest)[1..] == n[1..] + rest && n == [n[0]] + n[1..];
    }
  }

  lemma ReadNumber(n: string, rest: string)
    requires IsNumeral(n) && Stops(rest)
    ensures ReadValue(n + rest) == Some((Num(n), rest))
  {
    ReadNumeral(n, rest);
    assert (n + rest)[0] == n[0];
    hide IsNumeral, TakeNumeral, ReadItems, ReadEntries, ReadString;
    assert IsNumeral(n);
    NoOther(n + rest);
  }

  lemma NoOther(s: string)
    requires s != "" && (IsDigit(s[0]) || s[0] == '-')
    ensures !StartsWith(s, "null") && !StartsWith(s, "true") && !StartsWith(s, "false") && !StartsWith(s, "\"")
    ensures !StartsWith(s, "[]") && !StartsWith(s, "[") && !StartsWith(s, "{}") && !StartsWith(s, "{")
  {
  }

  lemma ReadWord(v: Json, rest: string)
    requires v == Null || v.Bool?
    ensures ReadValue(Print(v) + rest) == Some((v, rest))
  {
    StartsWithSelf(Print(v), rest);
    var s := Print(v) + rest;
    assert s[0] == Print(v)[0];
    assert !v.Null? ==> !StartsWith(s, "null") by { assert "null"[0] == 'n' && "true"[0] == 't' && "false"[0] == 'f'; }
    assert v == Bool(false) ==> !StartsWith(s, "true") by { assert "true"[0] == 't' && "false"[0] == 'f'; }
  }

  /** What begins with one of these characters is none of the words. */
  lemma NoWord(s: string)
    requires s != "" && (s[0] == '\"' || s[0] == '[' || s[0] == '{')
    ensures !StartsWith(s, "null") && !StartsWith(s, "true") && !StartsWith(s, "false")
    ensures StartsWith(s, "\"") <==> s[0] == '\"'
    ensures StartsWith(s, "[") <==> s[0] == '['
    ensures StartsWith(s, "{") <==> s[0] == '{'
    ensures s[0] != '[' ==> !StartsWith(s, "[]")
    ensures s[0] != '{' ==> !StartsWith(s, "{}")
  {
    assert "null"[0] == 'n' && "true"[0] == 't' && "false"[0] == 'f';
    assert s[..1] == [s[0]];
    assert |s| >= 2 ==> s[..2][0] == s[0];
  }

  lemma ReadText(text: string, rest: string)
    ensures ReadValue("\"" + (EscapedAll(text) + "\"" + rest)) == Some((Str(text), rest))
  {
    var s := "\"" + (EscapedAll(text) + "\"" + rest);
    NoWord(s);
    StartsWithSelf("\"", EscapedAll(text) + "\"" + rest);
    ReadQuoted(text, rest);
    hide ReadString, EscapedAll, StartsWith;
  }

  lemma BracketStep(s: string, open: char, close: char)
    requires (open == '[' && close == ']') || (open == '{' && close == '}')
    ensures StartsWith([open] + s, [open, close]) <==> s != "" && s[0] == close
    ensures ([open] + s)[1..] == s
  {
    if s != "" {
      assert ([open] + s)[..2] == [open, s[0]];
    }
  }

  lemma ReadArray(s: string, items: seq<Json>, rest: string)
    requires s != "" && s[0] != ']' && ReadItems(s) == Some((items, rest))
    ensures ReadValue("[" + s) == Some((Arr(items), rest))
  {
    NoWord("[" + s);
    BracketStep(s, '[', ']');
    assert [ '[', ']' ] == "[]";
    hide ReadItems, StartsWith;
  }

  lemma ReadObject(s: string, entries: seq<Entry>, rest: string)
    requires s != "" && s[0] != '}' && ReadEntries(s) == Some((entries, rest))
    ensures ReadValue("{" + s) == Some((Obj(entries), rest))
  {
    NoWord("{" + s);
    BracketStep(s, '{', '}');
    assert [ '{', '}' ] == "{}";
    hide ReadEntries, StartsWith;
  }

  lemma ReadEmpty(rest: string)
    ensures ReadValue("[" + ("]" + rest)) == Some((Arr([]), rest))
    ensures ReadValue("{" + ("}" + rest)) == Some((Obj([]), rest))
  {
    NoWord("[" + ("]" + rest));
    NoWord("{" + ("}" + rest));
    BracketStep("]" + rest, '[', ']');
    BracketStep("}" + rest, '{', '}');
    assert [ '[', ']' ] == "[]" && [ '{', '}' ] == "{}";
    assert ("[" + ("]" + rest))[2..] == rest && ("{" + ("}" + rest))[2..] == rest;
    hide StartsWith;
  }

  lemma LastItem(s: string, item: Json, rest: string)
    requires ReadValue(s) == Some((item, "]" + rest))
    ensures ReadItems(s) == Some(([item], rest))
  {
    StartsWithSelf("]", rest);
    hide ReadValue, StartsWith;
  }

  lemma MoreItems(s: string, item: Json, tail: string, items: seq<Json>, rest: string)
    requires ReadValue(s) == Some((item, "," + tail)) && ReadItems(tail) == Some((items, rest))
    ensures ReadItems(s) == Some(([item] + items, rest))
  {
    StartsWithSelf(",", tail);
    assert !StartsWith("," + tail, "]") by { assert ("," + tail)[0] == ','; }
    hide ReadValue, StartsWith;
  }

  lemma KeyRead(e: Entry, rest: string)
    ensures var s := EntryText(e, rest);
            && StartsWith(s, "\"") && ReadString(s[1..]) == Some((e.key, ":" + (Print(e.value) + rest)))
            && StartsWith(":" + (Print(e.value) + rest), ":") && (":" + (Print(e.value) + rest))[1..] == Print(e.value) + rest
  {
    var after := ":" + (Print(e.value) + rest);
    StartsWithSelf("\"", EscapedAll(e.key) + "\"" + after);
    StartsWithSelf(":", Print(e.value) + rest);
    ReadQuoted(e.key, after);
    Associative3(EscapedAll(e.key), after);
    hide Print, EscapedAll, ReadString, StartsWith;
  }

  lemma Associative3(key: string, after: string)
    ensures key + ("\"" + after) == key + "\"" + after
  {
  }

  lemma LastEntry(e: Entry, rest: string)
    requires ReadValue(Print(e.value) + ("}" + rest)) == Some((e.value, "}" + rest))
    ensures ReadEntries(EntryText(e, "}" + rest)) == Some(([e], rest))
  {
    KeyRead(e, "}" + rest);
    StartsWithSelf("}", rest);
    hide Print, EntryText, ReadValue, ReadString, StartsWith;
  }

  lemma MoreEntries(e: Entry, tail: string, entries: seq<Entry>, rest: string)
    requires ReadValue(Print(e.value) + ("," + tail)) == Some((e.value, "," + tail))
    requires ReadEntries(tail) == Some((entries, rest))
    ensures ReadEntries(EntryText(e, "," + tail)) == Some(([e] + entries, rest))
  {
    KeyRead(e, "," + tail);
    StartsWithSelf(",", tail);
    assert !StartsWith("," + tail, "}") by { assert ("," + tail)[0] == ','; }
    hide Print, EntryText, ReadValue, ReadString, StartsWith;
  }

  lemma ItemRead(v: Json, i: nat, rest: string)
    requires Clean(v) && v.Arr? && i < |v.items|
    requires var tail := PrintItems(v, i + 1) + "]" + rest;
             ReadValue(Print(v.items[i]) + tail) == Some((v.items[i], tail))
    requires i + 1 < |v.items| ==>
               ReadItems(Print(v.items[i + 1]) + (PrintItems(v, i + 2) + "]" + rest)) == Some((v.items[i + 1..], rest))
    ensures ReadItems(Print(v.items[i]) + (PrintItems(v, i + 1) + "]" + rest)) == Some((v.items[i..], rest))
  {
    hide Print, PrintItems, ReadItems, ReadValue, Stops, Clean;
    ItemsStep(v, i + 1, rest);
    var read := Print(v.items[i]) + (PrintItems(v, i + 1) + "]" + rest);
    if i + 1 == |v.items| {
      LastItem(read, v.items[i], rest);
      assert v.items[i..] == [v.items[i]];
    } else {
      var next := Print(v.items[i + 1]) + (PrintItems(v, i + 2) + "]" + rest);
      MoreItems(read, v.items[i], next, v.items[i + 1..], rest);
      assert v.items[i..] == [v.items[i]] + v.items[i + 1..];
    }
  }

  lemma {:induction false} ItemsRead(v: Json, i: nat, rest: string)
    requires Clean(v) && v.Arr? && i < |v.items|
    ensures ReadItems(Print(v.items[i]) + (PrintItems(v, i + 1) + "]" + rest)) == Some((v.items[i..], rest))
    decreases v, 0, |v.items| - i
  {
    hide Print, PrintItems, ReadItems, ReadValue, Stops;
    ItemsStep(v, i + 1, rest);
    ValueRead(v.items[i], PrintItems(v, i + 1) + "]" + rest);
    if i + 1 < |v.items| {
      ItemsRead(v, i + 1, rest);
    }
    ItemRead(v, i, rest);
  }

  lemma EntriesTail(v: Json, i: nat, rest: string)
    requires Clean(v) && v.Obj? && 0 < i <= |v.entries|
    ensures var tail := PrintEntries(v, i) + "}" + rest;
            && Stops(tail)
            && (i == |v.entries| ==> tail == "}" + rest)
            && (i < |v.entries| ==> tail == "," + EntryText(v.entries[i], PrintEntries(v, i + 1) + "}" + rest))
  {
    EntriesStep(v, i, rest);
    hide PrintEntries, EntryText, Stops;
  }

  lemma EntryRead(v: Json, i: nat, rest: string)
    requires Clean(v) && v.Obj? && i < |v.entries|
    requires var tail := PrintEntries(v, i + 1) + "}" + rest;
             ReadValue(Print(v.entries[i].value) + tail) == Some((v.entries[i].value, tail))
    requires i + 1 < |v.entries| ==>
               ReadEntries(EntryText(v.entries[i + 1], PrintEntries(v, i + 2) + "}" + rest)) == Some((v.entries[i + 1..], rest))
    ensures ReadEntries(EntryText(v.entries[i], PrintEntries(v, i + 1) + "}" + rest)) == Some((v.entries[i..], rest))
  {
    EntriesTail(v, i + 1, rest);
    FromPlace(v.entries, i);
    hide *;
    if i + 1 == |v.entries| {
      LastEntry(v.entries[i], rest);
    } else {
      MoreEntries(v.entries[i], EntryText(v.entries[i + 1], PrintEntries(v, i + 2) + "}" + rest), v.entries[i + 1..], rest);
    }
  }

  lemma FromPlace<T>(s: seq<T>, i: nat)
    requires i < |s|
    ensures s[i..] == [s[i]] + s[i + 1..] && (i + 1 == |s| ==> s[i..] == [s[i]])
  {
  }

  lemma {:induction false} EntriesRead(v: Json, i: nat, rest: string)
    requires Clean(v) && v.Obj? && i < |v.entries|
    ensures ReadEntries(EntryText(v.entries[i], PrintEntries(v, i + 1) + "}" + rest)) == Some((v.entries[i..], rest))
    decreases v, 0, |v.entries| - i
  {
    hide *;
    EntriesTail(v, i + 1, rest);
    CleanEntry(v, i);
    ValueRead(v.entries[i].value, PrintEntries(v, i + 1) + "}" + rest);
    if i + 1 < |v.entries| {
      EntriesRead(v, i + 1, rest);
    }
    EntryRead(v, i, rest);
  }

  lemma ArrayRead(v: Json, rest: string)
    requires Clean(v) && v.Arr?
    requires v.items != [] ==> ReadItems(Print(v.items[0]) + (PrintItems(v, 1) + "]" + rest)) == Some((v.items[0..], rest))
    ensures ReadValue(Print(v) + rest) == Some((v, rest))
  {
    hide Print, PrintItems, ReadValue, ReadItems, Clean, Stops;
    PrintBrackets(v, rest);
    ItemsStep(v, 0, rest);
    if v.items == [] {
      ReadEmpty(rest);
    } else {
      assert v.items[0..] == v.items;
      NoSeparator(Print(v.items[0]) + (PrintItems(v, 1) + "]" + rest));
      ReadArray(PrintItems(v, 0) + "]" + rest, v.items, rest);
    }
  }

  lemma EntriesStart(v: Json, rest: string)
    requires Clean(v) && v.Obj? && v.entries != []
    ensures PrintEntries(v, 0) + "}" + rest == EntryText(v.entries[0], PrintEntries(v, 1) + "}" + rest)
    ensures PrintEntries(v, 0) + "}" + rest != "" && (PrintEntries(v, 0) + "}" + rest)[0] != '}'
  {
    EntriesStep(v, 0, rest);
    NoSeparator(EntryText(v.entries[0], PrintEntries(v, 1) + "}" + rest));
    hide *;
  }

  lemma ObjectRead(v: Json, rest: string)
    requires Clean(v) && v.Obj?
    requires v.entries != [] ==> ReadEntries(EntryText(v.entries[0], PrintEntries(v, 1) + "}" + rest)) == Some((v.entries[0..], rest))
    ensures ReadValue(Print(v) + rest) == Some((v, rest))
  {
    PrintBrackets(v, rest);
    EntriesStep(v, 0, rest);
    hide *;
    assert v.entries[0..] == v.entries;
    if v.entries == [] {
      ReadEmpty(rest);
    } else {
      EntriesStart(v, rest);
      ReadObject(PrintEntries(v, 0) + "}" + rest, v.entries, rest);
    }
  }

  /** Reading gives back what was printed, and what follows it. */
  lemma {:induction false} ValueRead(v: Json, rest: string)
    requires Clean(v) && Stops(rest)
    ensures ReadValue(Print(v) + rest) == Some((v, rest))
    decreases v, 1, 0
  {
    hide *;
    if v.Arr? {
      if v.items != [] { ItemsRead(v, 0, rest); }
      ArrayRead(v, rest);
    } else if v.Obj? {
      if v.entries != [] { EntriesRead(v, 0, rest); }
      ObjectRead(v, rest);
    } else {
      SimpleRead(v, rest);
    }
  }

  lemma SimpleRead(v: Json, rest: string)
    requires Clean(v) && Stops(rest) && !v.Arr? && !v.Obj?
    ensures ReadValue(Print(v) + rest) == Some((v, rest))
  {
    match v
    case Null => ReadWord(v, rest);
    case Bool(_) => ReadWord(v, rest);
    case Num(numeral) => ReadNumber(numeral, rest);
    case Str(_) => TextRead(v, rest);
  }

  lemma TextRead(v: Json, rest: string)
    requires v.Str?
    ensures ReadValue(Print(v) + rest) == Some((v, rest))
  {
    PrintBrackets(v, rest);
    hide Print, ReadValue, EscapedAll;
    ReadText(v.text, rest);
  }

  lemma NoSeparator(s: string)
    ensures Separator(0) + s == s
  {
  }

  /** Canonical text is JSON: read back, it is the sorted value, with `null` for undefined items. */
  lemma CanonicalReadsBack(v: Json)
    requires Proper(v) && v != Undefined
    ensures ReadValue(Canonicalized(v).value) == Some((Erase(Sorted(v)), ""))
  {
    SortedIdempotent(v);
    ErasedPrint(Sorted(v));
    ErasedClean(Sorted(v));
    hide Print, Sorted, Erase, Proper, Clean, ReadValue;
    ValueRead(Erase(Sorted(v)), "");
    assert Print(Erase(Sorted(v))) + "" == Print(Erase(Sorted(v)));
  }
}
