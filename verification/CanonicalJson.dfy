/** Canonical JSON text (packages/chain-registry/src/canonicalize.ts): values with the order of their object keys,
    sorting them, and printing them. */
module CanonicalJson {
  import opened Options
  import opened Sequences
  import opened Text

  // ----- values -----

  /** A JavaScript value that JSON can express, or `undefined`. Entries are in enumeration order; `Num` holds the numeral
      the engine prints. */
  datatype Json =
    | Undefined
    | Null
    | Bool(value: bool)
    | Num(numeral: string)
    | Str(text: string)
    | Arr(items: seq<Json>)
    | Obj(entries: seq<Entry>)

  datatype Entry = Entry(key: string, value: Json)

  function Keys(entries: seq<Entry>): seq<string> {
    seq(|entries|, i requires 0 <= i < |entries| => entries[i].key)
  }

  predicate IsNumeralChar(c: char) {
    IsDigit(c) || c == '-' || c == '+' || c == '.' || c == 'e'
  }

  predicate IsNumeral(s: string) {
    s != "" && (IsDigit(s[0]) || s[0] == '-') && forall i :: 0 <= i < |s| ==> IsNumeralChar(s[i])
  }

  /** What the engine prints for an integer, and for a negative one. */
  lemma IntegersHaveNumerals(n: nat)
    ensures IsNumeral(Decimal(n)) && IsNumeral("-" + Decimal(n))
  {
  }

  /** Numbers have numerals, and the keys of an object are distinct. */
  predicate Proper(v: Json) {
    match v
    case Num(numeral) => IsNumeral(numeral)
    case Arr(items) => forall i :: 0 <= i < |items| ==> Proper(items[i])
    case Obj(entries) => Distinct(Keys(entries)) && forall i :: 0 <= i < |entries| ==> Proper(entries[i].value)
    case _ => true
  }

  /** Where the key is. */
  function Place(entries: seq<Entry>, k: string): (i: nat)
    requires k in Keys(entries)
    ensures i < |entries| && entries[i].key == k
  {
    if entries[0].key == k then 0
    else
      assert Keys(entries) == [entries[0].key] + Keys(entries[1..]);
      1 + Place(entries[1..], k)
  }

  function Lookup(entries: seq<Entry>, k: string): Json {
    if k in Keys(entries) then entries[Place(entries, k)].value else Undefined
  }

  // ----- the order of keys -----

  /** An array index: a canonical numeral below 2^32 - 1. */
  predicate IsIndex(k: string) {
    AllDigits(k) && Decimal(Value(k)) == k && Value(k) < 4_294_967_295
  }

  /** The largest index is 4294967294. */
  lemma IndicesAre(n: nat)
    ensures IsIndex(Decimal(n)) <==> n <= 4_294_967_294
  {
    ValueDecimal(n);
  }

  /** The order in which an object enumerates keys that were added in the order of `LexLe`: indices first, by value. */
  predicate KeyLe(a: string, b: string) {
    if IsIndex(a) && IsIndex(b) then Value(a) <= Value(b)
    else if IsIndex(a) then true
    else if IsIndex(b) then false
    else LexLe(a, b)
  }

  lemma KeyOrder()
    ensures TotalPreorder(KeyLe) && Antisymmetric(KeyLe)
  {
    LexOrder();
    hide LexLe;
  }

  // ----- sorting -----

  /** A key that survives: its value is defined, and assigning to it creates a property. */
  predicate Live(entries: seq<Entry>, k: string) {
    k != "__proto__" && Lookup(entries, k) != Undefined
  }

  function LiveKeys(entries: seq<Entry>, keys: seq<string>): seq<string> {
    Filter((k: string) => Live(entries, k), keys)
  }

  function SortedKeys(entries: seq<Entry>): seq<string> {
    Sort(KeyLe, LiveKeys(entries, Keys(entries)))
  }

  lemma SortedKeysAre(entries: seq<Entry>)
    ensures forall k :: k in SortedKeys(entries) <==> Live(entries, k)
    ensures SortedBy(KeyLe, SortedKeys(entries))
    ensures multiset(SortedKeys(entries)) == multiset(LiveKeys(entries, Keys(entries)))
  {
    var live := LiveKeys(entries, Keys(entries));
    KeyOrder();
    SortSorted(KeyLe, live);
    forall k
      ensures k in SortedKeys(entries) <==> Live(entries, k)
    {
      FilterMembers((k: string) => Live(entries, k), Keys(entries), k);
      assert k in SortedKeys(entries) <==> k in multiset(live);
    }
  }

  /** The value with the keys of every object in canonical order. */
  function Sorted(v: Json): Json {
    match v
    case Arr(items) => Arr(seq(|items|, i requires 0 <= i < |items| => Sorted(items[i])))
    case Obj(entries) =>
      SortedKeysAre(entries);
      var keys := SortedKeys(entries);
      Obj(seq(|keys|, i requires 0 <= i < |keys| =>
        assert keys[i] in keys; Entry(keys[i], Sorted(entries[Place(entries, keys[i])].value))))
    case _ => v
  }

  lemma SortedDefined(v: Json)
    ensures Sorted(v) == Undefined <==> v == Undefined
    ensures Sorted(v) == Null <==> v == Null
  {
  }

  lemma {:induction false} FilterDistinct<T>(p: T -> bool, s: seq<T>)
    requires Distinct(s)
    ensures Distinct(Filter(p, s))
  {
    if s != [] {
      assert forall i, j :: 0 <= i < j < |s| - 1 ==> s[1..][i] == s[i + 1] && s[1..][j] == s[j + 1];
      FilterDistinct(p, s[1..]);
      FilterMembers(p, s[1..], s[0]);
      assert s[0] !in s[1..];
    }
  }

  lemma SortedKeysDistinct(entries: seq<Entry>)
    requires Distinct(Keys(entries))
    ensures Distinct(SortedKeys(entries))
  {
    SortedKeysAre(entries);
    FilterDistinct((k: string) => Live(entries, k), Keys(entries));
    hide SortedBy, KeyLe, Sort;
    DistinctPermutation(LiveKeys(entries, Keys(entries)), SortedKeys(entries));
  }

  lemma SortedEntries(entries: seq<Entry>, i: nat)
    requires i < |SortedKeys(entries)|
    ensures Sorted(Obj(entries)).Obj? && |Sorted(Obj(entries)).entries| == |SortedKeys(entries)|
    ensures Keys(Sorted(Obj(entries)).entries) == SortedKeys(entries)
    ensures var k := SortedKeys(entries)[i];
            && k != "__proto__" && k in Keys(entries) && Lookup(entries, k) != Undefined
            && Sorted(Obj(entries)).entries[i] == Entry(k, Sorted(Lookup(entries, k)))
  {
    SortedKeysAre(entries);
    assert SortedKeys(entries)[i] in SortedKeys(entries);
    hide SortedKeys, SortedBy, KeyLe;
  }

  lemma KeysOfSorted(entries: seq<Entry>)
    ensures Keys(Sorted(Obj(entries)).entries) == SortedKeys(entries)
  {
    if SortedKeys(entries) != [] {
      SortedEntries(entries, 0);
    }
  }

  lemma {:induction false} PlaceOf(entries: seq<Entry>, i: nat)
    requires Distinct(Keys(entries)) && i < |entries|
    ensures entries[i].key in Keys(entries) && Place(entries, entries[i].key) == i
  {
    assert Keys(entries)[i] == entries[i].key;
    if i > 0 {
      assert Keys(entries) == [entries[0].key] + Keys(entries[1..]);
      assert forall j :: 0 <= j < |entries| - 1 ==> Keys(entries[1..])[j] == Keys(entries)[j + 1];
      PlaceOf(entries[1..], i - 1);
      assert Keys(entries)[0] != Keys(entries)[i];
    }
  }

  /** Sorting keeps what is found under every key, but for `__proto__`, whose assignment creates no property. */
  lemma LookupSorted(entries: seq<Entry>, k: string)
    requires Distinct(Keys(entries))
    ensures Lookup(Sorted(Obj(entries)).entries, k) == if k == "__proto__" then Undefined else Sorted(Lookup(entries, k))
  {
    KeysOfSorted(entries);
    SortedKeysAre(entries);
    SortedKeysDistinct(entries);
    hide SortedKeys, SortedBy, Distinct;
    if k in SortedKeys(entries) {
      var i := Place(Sorted(Obj(entries)).entries, k);
      SortedEntries(entries, i);
    } else {
      SortedDefined(Lookup(entries, k));
    }
  }

  /** Sorting a sorted value changes nothing. */
  lemma {:induction false} SortedIdempotent(v: Json)
    requires Proper(v)
    ensures Proper(Sorted(v)) && Sorted(Sorted(v)) == Sorted(v)
  {
    match v
    case Arr(items) =>
      forall i | 0 <= i < |items|
        ensures Proper(Sorted(items[i])) && Sorted(Sorted(items[i])) == Sorted(items[i])
      {
        SortedIdempotent(items[i]);
      }
    case Obj(entries) =>
      forall i | 0 <= i < |entries|
        ensures Proper(Sorted(entries[i].value)) && Sorted(Sorted(entries[i].value)) == Sorted(entries[i].value)
      {
        SortedIdempotent(entries[i].value);
      }
      ObjectIdempotent(entries);
    case _ =>
  }

  lemma ObjectIdempotent(entries: seq<Entry>)
    requires Distinct(Keys(entries))
    requires forall i :: 0 <= i < |entries| ==>
               Proper(Sorted(entries[i].value)) && Sorted(Sorted(entries[i].value)) == Sorted(entries[i].value)
    ensures Proper(Sorted(Obj(entries))) && Sorted(Sorted(Obj(entries))) == Sorted(Obj(entries))
  {
    var sorted := Sorted(Obj(entries)).entries;
    KeysOfSorted(entries);
    SortedKeysDistinct(entries);
    SameKeys(entries);
    forall i | 0 <= i < |sorted|
      ensures Proper(sorted[i].value) && Sorted(sorted[i].value) == sorted[i].value
      ensures Sorted(Obj(sorted)).entries[i] == sorted[i]
    {
      SortedEntries(entries, i);
      SortedEntries(sorted, i);
      PlaceOf(sorted, i);
    }
    KeysOfSorted(sorted);
  }

  lemma SameKeys(entries: seq<Entry>)
    requires Distinct(Keys(entries))
    ensures SortedKeys(Sorted(Obj(entries)).entries) == SortedKeys(entries)
  {
    var sorted := Sorted(Obj(entries)).entries;
    KeysOfSorted(entries);
    SortedKeysAre(entries);
    SortedKeysAre(sorted);
    SortedKeysDistinct(entries);
    SortedKeysDistinct(sorted);
    forall k
      ensures k in SortedKeys(sorted) <==> k in SortedKeys(entries)
    {
      LookupSorted(entries, k);
      SortedDefined(Lookup(entries, k));
    }
    SameSortedKeys(SortedKeys(sorted), SortedKeys(entries));
  }

  /** Two sorted lists of the same distinct keys are equal. */
  lemma SameSortedKeys(a: seq<string>, b: seq<string>)
    requires SortedBy(KeyLe, a) && SortedBy(KeyLe, b) && Distinct(a) && Distinct(b)
    requires forall k :: k in a <==> k in b
    ensures a == b
  {
    KeyOrder();
    hide KeyLe;
    DistinctWithin(a, b);
    DistinctWithin(b, a);
    SortedUnique(KeyLe, a, b);
  }

  // ----- printing -----

  const HEX := "0123456789abcdef"

  /** A character in a string literal of `JSON.stringify`. */
  function Escaped(c: char): string {
    if c == '\"' then "\\\""
    else if c == '\\' then "\\\\"
    else if c as int == 8 then "\\b"
    else if c as int == 12 then "\\f"
    else if c == '\n' then "\\n"
    else if c == '\r' then "\\r"
    else if c == '\t' then "\\t"
    else if c < ' ' then "\\u00" + [HEX[c as int / 16], HEX[c as int % 16]]
    else [c]
  }

  function EscapedAll(s: string): string {
    if s == "" then "" else Escaped(s[0]) + EscapedAll(s[1..])
  }

  function Quoted(s: string): string {
    "\"" + EscapedAll(s) + "\""
  }

  /** `JSON.stringify`; an undefined item of an array is printed as `null`. */
  function Print(v: Json): string
    decreases v, 1, 0
  {
    match v
    case Undefined => "null"
    case Null => "null"
    case Bool(b) => if b then "true" else "false"
    case Num(numeral) => numeral
    case Str(text) => Quoted(text)
    case Arr(items) => "[" + PrintItems(v, 0) + "]"
    case Obj(entries) => "{" + PrintEntries(v, 0) + "}"
  }

  function PrintItems(v: Json, i: nat): string
    requires v.Arr? && i <= |v.items|
    decreases v, 0, |v.items| - i
  {
    if i == |v.items| then "" else (if i > 0 then "," else "") + Print(v.items[i]) + PrintItems(v, i + 1)
  }

  function PrintEntries(v: Json, i: nat): string
    requires v.Obj? && i <= |v.entries|
    decreases v, 0, |v.entries| - i
  {
    if i == |v.entries| then ""
    else
      (if i > 0 then "," else "") + Quoted(v.entries[i].key) + ":" + Print(v.entries[i].value) + PrintEntries(v, i + 1)
  }

  /** `canonicalizeJson`; of `undefined` there is no text. */
  function Canonicalized(v: Json): Option<string> {
    if v == Undefined then None else Some(Print(Sorted(v)))
  }

  // ----- the text determines the value -----

  lemma SamePrefix(p: string, x: string, y: string)
    requires p + x == p + y
    ensures x == y
  {
    assert x == (p + x)[|p|..] && y == (p + y)[|p|..];
  }

  lemma HexInjective(i: nat, j: nat)
    requires i < 16 && j < 16 && HEX[i] == HEX[j]
    ensures i == j
  {
  }

  lemma EscapedHead(c: char)
    ensures |Escaped(c)| >= 1 && Escaped(c)[0] != '\"'
    ensures Escaped(c)[0] == '\\' <==> |Escaped(c)| > 1
    ensures |Escaped(c)| > 1 ==> Escaped(c)[1] in "\"\\bfnrtu" && (Escaped(c)[1] == 'u' <==> |Escaped(c)| == 6)
  {
  }

  lemma EscapedControl(c: char, d: char)
    requires |Escaped(c)| == 6 && |Escaped(d)| == 6 && Escaped(c) == Escaped(d)
    ensures c == d
  {
    assert Escaped(c)[4] == HEX[c as int / 16] && Escaped(c)[5] == HEX[c as int % 16];
    assert Escaped(d)[4] == HEX[d as int / 16] && Escaped(d)[5] == HEX[d as int % 16];
    HexInjective(c as int / 16, d as int / 16);
    HexInjective(c as int % 16, d as int % 16);
  }

  lemma EscapedShort(c: char, d: char)
    requires |Escaped(c)| < 6 && Escaped(c) == Escaped(d)
    ensures c == d
  {
  }

  lemma EscapedCode(c: char, d: char, x: string, y: string)
    requires Escaped(c) + x == Escaped(d) + y
    ensures c == d && x == y
  {
    EscapedHead(c);
    EscapedHead(d);
    var left, right := Escaped(c) + x, Escaped(d) + y;
    assert left[0] == Escaped(c)[0] && right[0] == Escaped(d)[0];
    if |Escaped(c)| > 1 {
      assert left[1] == Escaped(c)[1] && right[1] == Escaped(d)[1];
    }
    assert |Escaped(c)| == |Escaped(d)|;
    assert Escaped(c) == left[..|Escaped(c)|] == right[..|Escaped(d)|] == Escaped(d);
    hide Escaped;
    if |Escaped(c)| == 6 { EscapedControl(c, d); } else { EscapedShort(c, d); }
    SamePrefix(Escaped(c), x, y);
  }

  lemma QuotedHead(s: string, x: string)
    ensures var text := EscapedAll(s) + "\"" + x; text != "" && (text[0] == '\"' <==> s == "")
  {
    if s != "" {
      EscapedHead(s[0]);
      assert (EscapedAll(s) + "\"" + x)[0] == Escaped(s[0])[0];
    }
  }

  lemma QuotedStep(s: string, x: string)
    ensures s != "" ==> EscapedAll(s) + "\"" + x == Escaped(s[0]) + (EscapedAll(s[1..]) + "\"" + x)
    ensures s == "" ==> EscapedAll(s) + "\"" + x == "\"" + x
  {
    hide Escaped;
    if s != "" {
      Regrouped(Escaped(s[0]), EscapedAll(s[1..]), x);
    }
  }

  lemma Regrouped(a: string, b: string, x: string)
    ensures (a + b) + "\"" + x == a + (b + "\"" + x)
  {
  }

  lemma {:induction false} QuotedCode(s: string, t: string, x: string, y: string)
    requires EscapedAll(s) + "\"" + x == EscapedAll(t) + "\"" + y
    ensures s == t && x == y
  {
    QuotedHead(s, x);
    QuotedHead(t, y);
    QuotedStep(s, x);
    QuotedStep(t, y);
    hide Escaped, EscapedAll;
    if s != "" {
      EscapedCode(s[0], t[0], EscapedAll(s[1..]) + "\"" + x, EscapedAll(t[1..]) + "\"" + y);
      QuotedCode(s[1..], t[1..], x, y);
      assert s == [s[0]] + s[1..] && t == [t[0]] + t[1..];
    } else {
      SamePrefix("\"", x, y);
    }
  }

  /** What may follow a value: nothing that could continue a numeral. */
  predicate Stops(rest: string) {
    rest == "" || !IsNumeralChar(rest[0])
  }

  lemma NotShorter(n: string, m: string, r: string, s: string)
    requires IsNumeral(m) && Stops(r) && n + r == m + s
    ensures |m| <= |n|
  {
    var text := m + s;
    assert forall i :: 0 <= i < |m| ==> text[i] == m[i];
    assert r != "" ==> text[|n|] == r[0];
  }

  lemma NumeralCode(n: string, m: string, r: string, s: string)
    requires IsNumeral(n) && IsNumeral(m) && Stops(r) && Stops(s) && n + r == m + s
    ensures n == m && r == s
  {
    NotShorter(n, m, r, s);
    NotShorter(m, n, s, r);
    assert n == (n + r)[..|n|] && m == (m + s)[..|m|];
    SamePrefix(n, r, s);
  }

  /** No part of the value is undefined. */
  predicate Clean(v: Json) {
    match v
    case Undefined => false
    case Num(numeral) => IsNumeral(numeral)
    case Arr(items) => forall i :: 0 <= i < |items| ==> Clean(items[i])
    case Obj(entries) => forall i :: 0 <= i < |entries| ==> Clean(entries[i].value)
    case _ => true
  }

  /** The kind of a value shows in the first character of its text. */
  function Kind(c: char): nat {
    if c == 'n' then 0 else if c == 't' then 1 else if c == 'f' then 2 else if IsDigit(c) || c == '-' then 3
    else if c == '\"' then 4 else if c == '[' then 5 else if c == '{' then 6 else 7
  }

  function KindOf(v: Json): nat {
    match v
    case Undefined => 0
    case Null => 0
    case Bool(b) => if b then 1 else 2
    case Num(_) => 3
    case Str(_) => 4
    case Arr(_) => 5
    case Obj(_) => 6
  }

  lemma PrintHead(v: Json, rest: string)
    requires Clean(v)
    ensures Print(v) + rest != "" && Kind((Print(v) + rest)[0]) == KindOf(v)
  {
    assert Print(v) != "" && (Print(v) + rest)[0] == Print(v)[0];
  }

  function Separator(i: nat): string {
    if i > 0 then "," else ""
  }

  lemma ItemsStep(v: Json, i: nat, rest: string)
    requires Clean(v) && v.Arr? && i <= |v.items|
    ensures i < |v.items| ==>
              PrintItems(v, i) + "]" + rest == Separator(i) + (Print(v.items[i]) + (PrintItems(v, i + 1) + "]" + rest))
    ensures i == |v.items| ==> PrintItems(v, i) + "]" + rest == "]" + rest
    ensures Stops(PrintItems(v, i) + "]" + rest) || i == 0
    ensures var text := PrintItems(v, i) + "]" + rest; text != "" && (text[0] == ']' <==> i == |v.items|)
  {
    if i < |v.items| {
      var tail := PrintItems(v, i + 1) + "]" + rest;
      PrintHead(v.items[i], tail);
      hide Print, Kind;
      assert PrintItems(v, i) + "]" + rest == Separator(i) + (Print(v.items[i]) + tail);
    }
  }

  /** An entry, followed by `rest`. */
  function EntryText(e: Entry, rest: string): string {
    "\"" + (EscapedAll(e.key) + "\"" + (":" + (Print(e.value) + rest)))
  }

  lemma Nest(sep: string, key: string, value: string, tail: string, rest: string)
    ensures (sep + ("\"" + key + "\"") + ":" + value + tail) + "}" + rest ==
            sep + ("\"" + (key + "\"" + (":" + (value + (tail + "}" + rest)))))
  {
    var end := tail + "}" + rest;
    var quoted := "\"" + key + "\"";
    assert (sep + quoted + ":" + value + tail) + "}" + rest == (sep + quoted + ":" + value) + end;
    Associative(sep + quoted + ":", value, end);
    Associative(sep + quoted, ":", value + end);
    Associative(sep, quoted, ":" + (value + end));
    assert quoted + (":" + (value + end)) == "\"" + (key + "\"" + (":" + (value + end)));
  }

  lemma EntriesStep(v: Json, i: nat, rest: string)
    requires Clean(v) && v.Obj? && i <= |v.entries|
    ensures i < |v.entries| ==>
              PrintEntries(v, i) + "}" + rest == Separator(i) + EntryText(v.entries[i], PrintEntries(v, i + 1) + "}" + rest)
    ensures i == |v.entries| ==> PrintEntries(v, i) + "}" + rest == "}" + rest
    ensures Stops(PrintEntries(v, i) + "}" + rest) || i == 0
    ensures var text := PrintEntries(v, i) + "}" + rest; text != "" && (text[0] == '}' <==> i == |v.entries|)
  {
    if i < |v.entries| {
      var e := v.entries[i];
      Nest(Separator(i), EscapedAll(e.key), Print(e.value), PrintEntries(v, i + 1), rest);
      hide Print, EscapedAll;
      assert PrintEntries(v, i) == Separator(i) + Quoted(e.key) + ":" + Print(e.value) + PrintEntries(v, i + 1);
      hide PrintEntries;
    }
  }

  lemma EntryKeyCode(e: Entry, f: Entry, x: string, y: string)
    requires EntryText(e, x) == EntryText(f, y)
    ensures e.key == f.key && Print(e.value) + x == Print(f.value) + y
  {
    hide Print, EscapedAll;
    var after, after' := ":" + (Print(e.value) + x), ":" + (Print(f.value) + y);
    SamePrefix("\"", EscapedAll(e.key) + "\"" + after, EscapedAll(f.key) + "\"" + after');
    QuotedCode(e.key, f.key, after, after');
    SamePrefix(":", Print(e.value) + x, Print(f.value) + y);
  }

  lemma {:induction false} ItemsCode(u: Json, v: Json, i: nat, r: string, s: string)
    requires Clean(u) && Clean(v) && u.Arr? && v.Arr? && i <= |u.items| && i <= |v.items| && u.items[..i] == v.items[..i]
    requires PrintItems(u, i) + "]" + r == PrintItems(v, i) + "]" + s
    ensures u == v && r == s
    decreases u, 0, |u.items| - i
  {
    ItemsStep(u, i, r);
    ItemsStep(v, i, s);
    if i < |u.items| {
      ItemsStep(u, i + 1, r);
      ItemsStep(v, i + 1, s);
      hide Print, PrintItems, Stops;
      var left, right := PrintItems(u, i + 1) + "]" + r, PrintItems(v, i + 1) + "]" + s;
      SamePrefix(Separator(i), Print(u.items[i]) + left, Print(v.items[i]) + right);
      PrintCode(u.items[i], v.items[i], left, right);
      ItemsCode(u, v, i + 1, r, s);
    } else {
      hide Print, PrintItems;
      SamePrefix("]", r, s);
      assert u.items == u.items[..i] && v.items == v.items[..i];
    }
  }

  lemma TailStops(v: Json, i: nat, rest: string)
    requires Clean(v) && v.Obj? && 0 < i <= |v.entries|
    ensures Stops(PrintEntries(v, i) + "}" + rest)
  {
    EntriesStep(v, i, rest);
  }

  lemma OneMore<T>(a: seq<T>, b: seq<T>, i: nat)
    requires i < |a| && i < |b| && a[..i] == b[..i] && a[i] == b[i]
    ensures a[..i + 1] == b[..i + 1]
  {
    assert a[..i + 1] == a[..i] + [a[i]] && b[..i + 1] == b[..i] + [b[i]];
  }

  /** Two texts of entries are both at their end, or both have an entry to compare. */
  lemma EntriesHead(u: Json, v: Json, i: nat, r: string, s: string)
    requires Clean(u) && Clean(v) && u.Obj? && v.Obj? && i <= |u.entries| && i <= |v.entries|
    requires PrintEntries(u, i) + "}" + r == PrintEntries(v, i) + "}" + s
    ensures i == |u.entries| <==> i == |v.entries|
    ensures i == |u.entries| ==> r == s
    ensures i < |u.entries| && i < |v.entries| ==>
              var left, right := PrintEntries(u, i + 1) + "}" + r, PrintEntries(v, i + 1) + "}" + s;
              EntryText(u.entries[i], left) == EntryText(v.entries[i], right) && Stops(left) && Stops(right)
  {
    EntriesStep(u, i, r);
    EntriesStep(v, i, s);
    hide Print, PrintEntries, EntryText, Stops;
    if i < |u.entries| {
      TailStops(u, i + 1, r);
      TailStops(v, i + 1, s);
      SamePrefix(Separator(i), EntryText(u.entries[i], PrintEntries(u, i + 1) + "}" + r),
                 EntryText(v.entries[i], PrintEntries(v, i + 1) + "}" + s));
    } else {
      SamePrefix("}", r, s);
    }
  }

  lemma CleanEntry(v: Json, i: nat)
    requires Clean(v) && v.Obj? && i < |v.entries|
    ensures Clean(v.entries[i].value)
  {
  }

  lemma {:induction false} EntriesCode(u: Json, v: Json, i: nat, r: string, s: string)
    requires Clean(u) && Clean(v) && u.Obj? && v.Obj? && i <= |u.entries| && i <= |v.entries|
    requires u.entries[..i] == v.entries[..i]
    requires PrintEntries(u, i) + "}" + r == PrintEntries(v, i) + "}" + s
    ensures u == v && r == s
    decreases u, 0, |u.entries| - i
  {
    hide *;
    EntriesHead(u, v, i, r, s);
    if i < |u.entries| {
      var e, f := u.entries[i], v.entries[i];
      var left, right := PrintEntries(u, i + 1) + "}" + r, PrintEntries(v, i + 1) + "}" + s;
      CleanEntry(u, i);
      CleanEntry(v, i);
      EntryKeyCode(e, f, left, right);
      PrintCode(e.value, f.value, left, right);
      OneMore(u.entries, v.entries, i);
      EntriesCode(u, v, i + 1, r, s);
    } else {
      assert u.entries == u.entries[..i] && v.entries == v.entries[..i];
    }
  }

  lemma PrintBrackets(v: Json, rest: string)
    ensures v.Arr? ==> Print(v) + rest == "[" + (PrintItems(v, 0) + "]" + rest)
    ensures v.Obj? ==> Print(v) + rest == "{" + (PrintEntries(v, 0) + "}" + rest)
    ensures v.Str? ==> Print(v) + rest == "\"" + (EscapedAll(v.text) + "\"" + rest)
  {
    hide PrintItems, PrintEntries, EscapedAll;
  }

  /** The text of a value, followed by anything that cannot continue it, determines the value. */
  lemma {:induction false} PrintCode(u: Json, v: Json, r: string, s: string)
    requires Clean(u) && Clean(v) && Stops(r) && Stops(s) && Print(u) + r == Print(v) + s
    ensures u == v && r == s
    decreases u, 1, 0
  {
    PrintHead(u, r);
    PrintHead(v, s);
    PrintBrackets(u, r);
    PrintBrackets(v, s);
    if u.Num? {
      NumeralCode(u.numeral, v.numeral, r, s);
    } else if u.Str? {
      hide Print, EscapedAll;
      SamePrefix("\"", EscapedAll(u.text) + "\"" + r, EscapedAll(v.text) + "\"" + s);
      QuotedCode(u.text, v.text, r, s);
    } else if u.Arr? {
      hide Print, PrintItems;
      SamePrefix("[", PrintItems(u, 0) + "]" + r, PrintItems(v, 0) + "]" + s);
      ItemsCode(u, v, 0, r, s);
    } else if u.Obj? {
      hide Print, PrintEntries;
      SamePrefix("{", PrintEntries(u, 0) + "}" + r, PrintEntries(v, 0) + "}" + s);
      EntriesCode(u, v, 0, r, s);
    } else {
      SamePrefix(Print(u), r, s);
    }
  }

  // ----- when two values have the same text -----

  /** As it is printed: an undefined item is `null`. */
  function Erase(v: Json): Json {
    match v
    case Undefined => Null
    case Arr(items) => Arr(seq(|items|, i requires 0 <= i < |items| => Erase(items[i])))
    case Obj(entries) => Obj(seq(|entries|, i requires 0 <= i < |entries| => Entry(entries[i].key, Erase(entries[i].value))))
    case _ => v
  }

  lemma {:induction false} ErasedItems(v: Json, i: nat)
    requires v.Arr? && i <= |v.items|
    ensures PrintItems(Erase(v), i) == PrintItems(v, i)
    decreases v, 0, |v.items| - i
  {
    if i < |v.items| {
      ErasedPrint(v.items[i]);
      ErasedItems(v, i + 1);
      hide Print;
    }
  }

  lemma {:induction false} ErasedEntries(v: Json, i: nat)
    requires v.Obj? && i <= |v.entries|
    ensures PrintEntries(Erase(v), i) == PrintEntries(v, i)
    decreases v, 0, |v.entries| - i
  {
    if i < |v.entries| {
      ErasedPrint(v.entries[i].value);
      ErasedEntries(v, i + 1);
      hide Print, Quoted;
    }
  }

  lemma {:induction false} ErasedPrint(v: Json)
    ensures Print(Erase(v)) == Print(v)
    decreases v, 1, 0
  {
    match v
    case Arr(_) => ErasedItems(v, 0);
    case Obj(_) => ErasedEntries(v, 0);
    case _ =>
  }

  lemma {:induction false} ErasedClean(v: Json)
    requires Proper(v)
    ensures Clean(Erase(v))
  {
    match v
    case Arr(items) => forall i | 0 <= i < |items| ensures Clean(Erase(items[i])) { ErasedClean(items[i]); }
    case Obj(entries) =>
      forall i | 0 <= i < |entries| ensures Clean(Erase(entries[i].value)) { ErasedClean(entries[i].value); }
    case _ =>
  }

  predicate Nullish(v: Json) {
    v == Undefined || v == Null
  }

  /** Entries with the same key. */
  predicate Shared(a: seq<Entry>, b: seq<Entry>, i: int, j: int) {
    0 <= i < |a| && 0 <= j < |b| && a[i].key == b[j].key != "__proto__"
  }

  /** Equal up to the order of object keys, undefined entries, and undefined items in place of `null`. */
  ghost predicate Equivalent(u: Json, v: Json) {
    if Nullish(u) || Nullish(v) then Nullish(u) && Nullish(v)
    else if u.Arr? && v.Arr? then
      |u.items| == |v.items| && forall i :: 0 <= i < |u.items| ==> Equivalent(u.items[i], v.items[i])
    else if u.Obj? && v.Obj? then
      && (forall k :: Live(u.entries, k) <==> Live(v.entries, k))
      && forall i, j :: Shared(u.entries, v.entries, i, j) ==> Equivalent(u.entries[i].value, v.entries[j].value)
    else u == v
  }

  /** The printed form of the two values is the same. */
  ghost predicate SameForm(u: Json, v: Json) {
    Erase(Sorted(u)) == Erase(Sorted(v))
  }

  lemma LookupAt(entries: seq<Entry>, i: nat)
    requires Distinct(Keys(entries)) && i < |entries|
    ensures Lookup(entries, entries[i].key) == entries[i].value
  {
    PlaceOf(entries, i);
  }

  lemma ErasedKeys(entries: seq<Entry>)
    ensures Keys(Erase(Obj(entries)).entries) == Keys(entries)
  {
  }

  /** Objects of the same form: the same live keys, with values of the same form. */
  lemma ObjectForm(a: seq<Entry>, b: seq<Entry>)
    requires Distinct(Keys(a)) && Distinct(Keys(b))
    ensures SameForm(Obj(a), Obj(b)) <==>
              SortedKeys(a) == SortedKeys(b) && forall k :: k in SortedKeys(a) ==> SameForm(Lookup(a, k), Lookup(b, k))
  {
    var sa, sb := Sorted(Obj(a)).entries, Sorted(Obj(b)).entries;
    KeysOfSorted(a);
    KeysOfSorted(b);
    ErasedKeys(sa);
    ErasedKeys(sb);
    assert |sa| == |SortedKeys(a)| && |sb| == |SortedKeys(b)|;
    if SortedKeys(a) == SortedKeys(b) {
      forall i | 0 <= i < |sa|
        ensures Erase(Obj(sa)).entries[i] == Erase(Obj(sb)).entries[i] <==>
                SameForm(Lookup(a, SortedKeys(a)[i]), Lookup(b, SortedKeys(a)[i]))
      {
        SortedEntries(a, i);
        SortedEntries(b, i);
      }
    }
  }

  lemma {:induction false} FormIsEquivalence(u: Json, v: Json)
    requires Proper(u) && Proper(v)
    ensures SameForm(u, v) <==> Equivalent(u, v)
  {
    if u.Arr? && v.Arr? {
      forall i | 0 <= i < |u.items| && i < |v.items|
        ensures SameForm(u.items[i], v.items[i]) <==> Equivalent(u.items[i], v.items[i])
      {
        FormIsEquivalence(u.items[i], v.items[i]);
      }
      ArrayForm(u.items, v.items);
    } else if u.Obj? && v.Obj? {
      forall i, j | 0 <= i < |u.entries| && 0 <= j < |v.entries|
        ensures SameForm(u.entries[i].value, v.entries[j].value) <==> Equivalent(u.entries[i].value, v.entries[j].value)
      {
        FormIsEquivalence(u.entries[i].value, v.entries[j].value);
      }
      ObjectEquivalence(u, v);
    }
  }

  lemma ArrayForm(a: seq<Json>, b: seq<Json>)
    ensures SameForm(Arr(a), Arr(b)) <==> |a| == |b| && forall i :: 0 <= i < |a| ==> SameForm(a[i], b[i])
  {
    var sa, sb := Erase(Sorted(Arr(a))).items, Erase(Sorted(Arr(b))).items;
    assert forall i :: 0 <= i < |a| ==> sa[i] == Erase(Sorted(a[i]));
    assert forall i :: 0 <= i < |b| ==> sb[i] == Erase(Sorted(b[i]));
  }

  lemma UnfoldObject(u: Json, v: Json)
    requires u.Obj? && v.Obj?
    ensures Equivalent(u, v) <==>
              && (forall k :: Live(u.entries, k) <==> Live(v.entries, k))
              && forall i, j :: Shared(u.entries, v.entries, i, j) ==> Equivalent(u.entries[i].value, v.entries[j].value)
  {
    hide Live, Shared;
  }

  lemma ObjectEquivalence(u: Json, v: Json)
    requires u.Obj? && v.Obj? && Distinct(Keys(u.entries)) && Distinct(Keys(v.entries))
    requires forall i, j :: Shared(u.entries, v.entries, i, j) ==>
               (SameForm(u.entries[i].value, v.entries[j].value) <==> Equivalent(u.entries[i].value, v.entries[j].value))
    ensures SameForm(u, v) <==> Equivalent(u, v)
  {
    ObjectForm(u.entries, v.entries);
    SameLiveKeys(u.entries, v.entries);
    EntriesForm(u.entries, v.entries);
    UnfoldObject(u, v);
    hide SameForm, SortedKeys, Lookup, Live, Keys, Equivalent, Distinct;
  }

  /** Looking values up under the live keys, or going through the entries: the same comparison. */
  lemma EntriesForm(a: seq<Entry>, b: seq<Entry>)
    requires Distinct(Keys(a)) && Distinct(Keys(b))
    ensures (forall k :: Live(a, k) <==> Live(b, k)) ==>
              ((forall k :: Live(a, k) ==> SameForm(Lookup(a, k), Lookup(b, k))) <==>
               (forall i, j :: Shared(a, b, i, j) ==> SameForm(a[i].value, b[j].value)))
  {
    forall i, j | Shared(a, b, i, j)
      ensures Lookup(a, a[i].key) == a[i].value && Lookup(b, a[i].key) == b[j].value
    {
      LookupAt(a, i);
      LookupAt(b, j);
    }
    forall k | Live(a, k) && Live(b, k)
      ensures exists i, j :: Shared(a, b, i, j) && a[i].key == k
    {
      assert Shared(a, b, Place(a, k), Place(b, k));
    }
    hide Lookup, Distinct, SameForm;
    assert forall i, j :: Shared(a, b, i, j) && !Live(a, a[i].key) && !Live(b, a[i].key) ==> a[i].value == b[j].value;
  }

  lemma SameLiveKeys(a: seq<Entry>, b: seq<Entry>)
    requires Distinct(Keys(a)) && Distinct(Keys(b))
    ensures SortedKeys(a) == SortedKeys(b) <==> forall k :: Live(a, k) <==> Live(b, k)
    ensures forall k :: k in SortedKeys(a) <==> Live(a, k)
  {
    SortedKeysAre(a);
    SortedKeysAre(b);
    SortedKeysDistinct(a);
    SortedKeysDistinct(b);
    hide SortedKeys, KeyLe, SortedBy, Distinct, Lookup;
    if forall k :: Live(a, k) <==> Live(b, k) {
      SameSortedKeys(SortedKeys(a), SortedKeys(b));
    }
  }

  /** Two values have the same canonical text exactly when they are equal up to the order of object keys, undefined
      entries, and undefined items in place of `null`. */
  lemma SameText(u: Json, v: Json)
    requires Proper(u) && Proper(v)
    ensures Canonicalized(u) == Canonicalized(v) <==> (u == Undefined <==> v == Undefined) && Equivalent(u, v)
  {
    FormIsEquivalence(u, v);
    SortedIdempotent(u);
    SortedIdempotent(v);
    ErasedPrint(Sorted(u));
    ErasedPrint(Sorted(v));
    ErasedClean(Sorted(u));
    ErasedClean(Sorted(v));
    hide Print, Sorted, Erase, Equivalent, Proper, Clean;
    if Canonicalized(u) == Canonicalized(v) && u != Undefined {
      PrintCode(Erase(Sorted(u)), Erase(Sorted(v)), "", "");
    }
  }

  /** An own `__proto__` entry, which JSON can hold, leaves no trace in the text. */
  lemma PrototypeEntryLost(value: Json)
    requires Proper(value)
    ensures Canonicalized(Obj([Entry("__proto__", value)])) == Canonicalized(Obj([]))
  {
    var u, v := Obj([Entry("__proto__", value)]), Obj([]);
    assert Proper(u) && Proper(v);
    assert Keys(v.entries) == [];
    forall k
      ensures !Live(u.entries, k) && !Live(v.entries, k)
    {
      assert k in Keys(u.entries) ==> k == Keys(u.entries)[0];
    }
    assert Equivalent(u, v);
    SameText(u, v);
  }

  // ----- the computation -----

  /** Assigning to a property of a plain object: what is new goes behind the smaller indices if it is an index, and to the
      end otherwise. */
  function Assign(entries: seq<Entry>, k: string, value: Json): seq<Entry> {
    if k == "__proto__" then entries
    else if IsIndex(k) then InsertEntry(entries, Entry(k, value))
    else entries + [Entry(k, value)]
  }

  function InsertEntry(entries: seq<Entry>, e: Entry): seq<Entry> {
    if entries == [] || KeyLe(e.key, entries[0].key) then [e] + entries
    else [entries[0]] + InsertEntry(entries[1..], e)
  }

  lemma {:induction false} InsertEntryKeys(entries: seq<Entry>, e: Entry)
    ensures Keys(InsertEntry(entries, e)) == Insert(KeyLe, e.key, Keys(entries))
    ensures forall x :: x in InsertEntry(entries, e) ==> x == e || x in entries
  {
    hide KeyLe;
    if entries == [] {
      assert Keys([e]) == [e.key];
    } else {
      assert Keys(entries) == [entries[0].key] + Keys(entries[1..]);
      assert Keys(entries)[1..] == Keys(entries[1..]);
      if KeyLe(e.key, entries[0].key) {
        assert Keys([e] + entries) == [e.key] + Keys(entries);
      } else {
        InsertEntryKeys(entries[1..], e);
        assert entries == [entries[0]] + entries[1..];
      }
    }
  }

  /** Assigning in the order of `sort` keeps the enumeration in canonical order. */
  lemma AssignSorted(entries: seq<Entry>, k: string, value: Json)
    requires SortedBy(KeyLe, Keys(entries)) && k != "__proto__"
    requires forall x :: x in Keys(entries) ==> LexLe(x, k)
    ensures SortedBy(KeyLe, Keys(Assign(entries, k, value)))
    ensures multiset(Keys(Assign(entries, k, value))) == multiset(Keys(entries)) + multiset{k}
    ensures forall e :: e in Assign(entries, k, value) ==> e == Entry(k, value) || e in entries
  {
    KeyOrder();
    if IsIndex(k) {
      hide KeyLe, IsIndex;
      InsertEntryKeys(entries, Entry(k, value));
      InsertSorted(KeyLe, k, Keys(entries));
    } else {
      var keys := Keys(entries);
      assert Keys(entries + [Entry(k, value)]) == keys + [k];
      forall i | 0 <= i < |keys|
        ensures KeyLe(keys[i], k)
      {
        assert keys[i] in keys;
      }
    }
  }

  /** What the loop has built from the first keys. */
  ghost predicate Built(entries: seq<Entry>, keys: seq<string>, built: seq<Entry>) {
    && SortedBy(KeyLe, Keys(built))
    && multiset(Keys(built)) == multiset(LiveKeys(entries, keys))
    && forall e :: e in built ==> e.value == Sorted(Lookup(entries, e.key))
  }

  lemma BuiltNext(entries: seq<Entry>, keys: seq<string>, i: nat, built: seq<Entry>)
    requires i < |keys| && SortedBy(LexLe, keys) && Built(entries, keys[..i], built)
    ensures var value := Lookup(entries, keys[i]);
            Built(entries, keys[..i + 1], if value == Undefined then built else Assign(built, keys[i], Sorted(value)))
  {
    hide KeyLe, LexLe, Sorted;
    var k := keys[i];
    assert keys[..i + 1] == keys[..i] + [k];
    FilterAppend((x: string) => Live(entries, x), keys[..i], [k]);
    forall x | x in Keys(built)
      ensures LexLe(x, k)
    {
      assert x in multiset(LiveKeys(entries, keys[..i]));
      FilterMembers((x: string) => Live(entries, x), keys[..i], x);
    }
    if Live(entries, k) {
      hide Lookup;
      AssignSorted(built, k, Sorted(Lookup(entries, k)));
    }
  }

  lemma {:induction false} FilterMultiset<T>(p: T -> bool, s: seq<T>, x: T)
    ensures multiset(Filter(p, s))[x] == if p(x) then multiset(s)[x] else 0
  {
    if s != [] {
      FilterMultiset(p, s[1..], x);
      assert s == [s[0]] + s[1..];
    }
  }

  lemma SameLive(entries: seq<Entry>, a: seq<string>, b: seq<string>)
    requires multiset(a) == multiset(b)
    ensures multiset(LiveKeys(entries, a)) == multiset(LiveKeys(entries, b))
  {
    forall k
      ensures multiset(LiveKeys(entries, a))[k] == multiset(LiveKeys(entries, b))[k]
    {
      FilterMultiset((x: string) => Live(entries, x), a, k);
      FilterMultiset((x: string) => Live(entries, x), b, k);
    }
  }

  lemma BuiltKeys(entries: seq<Entry>, keys: seq<string>, built: seq<Entry>)
    requires multiset(keys) == multiset(Keys(entries)) && Built(entries, keys, built)
    ensures Keys(built) == SortedKeys(entries)
  {
    hide KeyLe, LiveKeys, SortedKeys, Keys, Live, SortedBy;
    SameLive(entries, keys, Keys(entries));
    SortedKeysAre(entries);
    KeyOrder();
    SortedUnique(KeyLe, Keys(built), SortedKeys(entries));
  }

  lemma BuiltIsSorted(entries: seq<Entry>, keys: seq<string>, built: seq<Entry>)
    requires multiset(keys) == multiset(Keys(entries)) && Built(entries, keys, built)
    ensures Obj(built) == Sorted(Obj(entries))
  {
    BuiltKeys(entries, keys, built);
    KeysOfSorted(entries);
    hide SortedKeys, LiveKeys, SortedBy;
    var sorted := Sorted(Obj(entries)).entries;
    assert |built| == |Keys(built)| == |Keys(sorted)| == |sorted|;
    forall i | 0 <= i < |built|
      ensures built[i] == sorted[i]
    {
      SortedEntries(entries, i);
      assert Keys(built)[i] == built[i].key && built[i] in built;
    }
  }

  method SortValue(v: Json) returns (sorted: Json)
    ensures sorted == Sorted(v)
  {
    match v
    case Arr(items) =>
      var mapped: seq<Json> := [];
      for i := 0 to |items|
        invariant |mapped| == i && forall k :: 0 <= k < i ==> mapped[k] == Sorted(items[k])
      {
        var item := SortValue(items[i]);
        mapped := mapped + [item];
      }
      return Arr(mapped);
    case Obj(entries) =>
      var keys := Sort(LexLe, Keys(entries));
      LexOrder();
      SortSorted(LexLe, Keys(entries));
      var built: seq<Entry> := [];
      for i := 0 to |keys|
        invariant Built(entries, keys[..i], built)
      {
        assert keys[i] in multiset(Keys(entries));
        BuiltNext(entries, keys, i, built);
        var entry := entries[Place(entries, keys[i])].value;
        if entry != Undefined {
          var value := SortValue(entry);
          built := Assign(built, keys[i], value);
        }
      }
      assert keys[..|keys|] == keys;
      BuiltIsSorted(entries, keys, built);
      return Obj(built);
    case _ => return v;
  }

  method CanonicalizeJson(v: Json) returns (text: Option<string>)
    ensures text == Canonicalized(v)
  {
    var sorted := SortValue(v);
    text := if v == Undefined then None else Some(Print(sorted));
  }
}
