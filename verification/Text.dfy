/** Splitting and joining text at a separator, and decimal numerals. */
module Text {
  import opened Sequences

  // ----- split and join -----

  function Split(s: string, sep: char): (parts: seq<string>)
    ensures |parts| >= 1
  {
    if s == "" then [""]
    else if s[0] == sep then [""] + Split(s[1..], sep)
    else
      var rest := Split(s[1..], sep);
      [[s[0]] + rest[0]] + rest[1..]
  }

  function Join(parts: seq<string>, sep: char): string {
    if parts == [] then ""
    else if |parts| == 1 then parts[0]
    else parts[0] + [sep] + Join(parts[1..], sep)
  }

  predicate Free(parts: seq<string>, sep: char) {
    forall i :: 0 <= i < |parts| ==> sep !in parts[i]
  }

  lemma {:induction false} SplitFree(s: string, sep: char)
    ensures Free(Split(s, sep), sep)
  {
    if s != "" {
      SplitFree(s[1..], sep);
    }
  }

  lemma {:induction false} JoinSplit(s: string, sep: char)
    ensures Join(Split(s, sep), sep) == s
  {
    if s != "" {
      JoinSplit(s[1..], sep);
      var rest := Split(s[1..], sep);
      if s[0] == sep {
        assert ([""] + rest)[1..] == rest;
      } else {
        assert ([[s[0]] + rest[0]] + rest[1..])[1..] == rest[1..];
        assert s == [s[0]] + s[1..];
      }
    }
  }

  lemma {:induction false} SplitJoin(parts: seq<string>, sep: char)
    requires |parts| >= 1 && Free(parts, sep)
    ensures Split(Join(parts, sep), sep) == parts
  {
    if |parts| == 1 {
      SplitOne(parts[0], sep);
    } else {
      SplitJoin(parts[1..], sep);
      SplitFirst(parts[0], Join(parts[1..], sep), sep);
      assert parts == [parts[0]] + parts[1..];
    }
  }

  lemma {:induction false} SplitOne(s: string, sep: char)
    requires sep !in s
    ensures Split(s, sep) == [s]
  {
    if s != "" {
      SplitOne(s[1..], sep);
      assert s == [s[0]] + s[1..];
    }
  }

  lemma {:induction false} SplitFirst(s: string, rest: string, sep: char)
    requires sep !in s
    ensures Split(s + [sep] + rest, sep) == [s] + Split(rest, sep)
  {
    if s == "" {
      assert s + [sep] + rest == [sep] + rest;
    } else {
      SplitFirst(s[1..], rest, sep);
      assert (s + [sep] + rest)[1..] == s[1..] + [sep] + rest;
      assert s == [s[0]] + s[1..];
    }
  }

  lemma PrependFirst(c: char, parts: seq<string>, more: seq<string>)
    requires |parts| >= 1
    ensures [[c] + (parts + more)[0]] + (parts + more)[1..] == [[c] + parts[0]] + parts[1..] + more
  {
    assert (parts + more)[1..] == parts[1..] + more;
    Associative([[c] + parts[0]], parts[1..], more);
  }

  lemma {:induction false} SplitAppend(s: string, rest: string, sep: char)
    ensures Split(s + [sep] + rest, sep) == Split(s, sep) + Split(rest, sep)
  {
    if s == "" {
      assert s + [sep] + rest == [sep] + rest;
    } else {
      var t := s + [sep] + rest;
      assert t[1..] == s[1..] + [sep] + rest && t[0] == s[0];
      SplitAppend(s[1..], rest, sep);
      SplitStep(t, sep);
      SplitStep(s, sep);
      hide Split;
      var parts, more := Split(s[1..], sep), Split(rest, sep);
      if s[0] == sep {
        Associative([""], parts, more);
      } else {
        PrependFirst(s[0], parts, more);
      }
    }
  }

  lemma SplitStep(s: string, sep: char)
    requires s != ""
    ensures var rest := Split(s[1..], sep);
            Split(s, sep) == if s[0] == sep then [""] + rest else [[s[0]] + rest[0]] + rest[1..]
  {
  }

  lemma {:induction false} SplitPrefix(prefix: string, s: string, sep: char)
    requires sep !in prefix
    ensures Split(prefix + s, sep) == [prefix + Split(s, sep)[0]] + Split(s, sep)[1..]
  {
    if prefix == "" {
      assert prefix + s == s && prefix + Split(s, sep)[0] == Split(s, sep)[0];
    } else {
      SplitPrefix(prefix[1..], s, sep);
      SplitStep(prefix + s, sep);
      hide Split;
      assert (prefix + s)[1..] == prefix[1..] + s;
      Uncons(prefix, Split(s, sep)[0]);
    }
  }

  lemma Uncons(a: string, b: string)
    requires a != ""
    ensures [a[0]] + (a[1..] + b) == a + b
  {
  }

  /** The part in front of the first separator, and the rest, are determined by the whole. */
  lemma FirstField(x: string, xs: string, y: string, ys: string, sep: char)
    requires sep !in x && sep !in y && x + [sep] + xs == y + [sep] + ys
    ensures x == y && xs == ys
  {
    var s := x + [sep] + xs;
    assert s[|x|] == sep && s[|y|] == sep;
    assert forall i :: 0 <= i < |x| ==> s[i] == x[i];
    assert forall i :: 0 <= i < |y| ==> s[i] == y[i];
    assert |x| == |y|;
    assert x == s[..|x|] && y == s[..|y|];
    assert xs == s[|x| + 1..] && ys == s[|y| + 1..];
  }

  // ----- decimal numerals -----

  predicate IsDigit(c: char) {
    '0' <= c <= '9'
  }

  predicate AllDigits(s: string) {
    forall i :: 0 <= i < |s| ==> IsDigit(s[i])
  }

  function Decimal(n: nat): (s: string)
    ensures |s| >= 1 && AllDigits(s)
  {
    var digit := ['0' + (n % 10) as char];
    if n < 10 then digit else Decimal(n / 10) + digit
  }

  function Value(s: string): nat
    requires AllDigits(s)
  {
    if s == "" then 0 else 10 * Value(s[..|s| - 1]) + (s[|s| - 1] - '0') as nat
  }

  lemma {:induction false} ValueDecimal(n: nat)
    ensures Value(Decimal(n)) == n
  {
    var digit := ['0' + (n % 10) as char];
    if n < 10 {
      assert Decimal(n) == digit && digit[..0] == "";
    } else {
      ValueDecimal(n / 10);
      assert (Decimal(n / 10) + digit)[..|Decimal(n / 10) + digit| - 1] == Decimal(n / 10);
    }
  }

  /** The longest prefix of digits, and what follows it. */
  function TakeDigits(s: string): (r: (string, string))
    ensures s == r.0 + r.1 && AllDigits(r.0) && (r.1 != "" ==> !IsDigit(r.1[0]))
  {
    if s == "" || !IsDigit(s[0]) then ("", s)
    else
      var rest := TakeDigits(s[1..]);
      ([s[0]] + rest.0, rest.1)
  }

  lemma {:induction false} TakeDigitsOf(d: string, rest: string)
    requires AllDigits(d) && (rest != "" ==> !IsDigit(rest[0]))
    ensures TakeDigits(d + rest) == (d, rest)
  {
    if d == "" {
      assert d + rest == rest;
    } else {
      TakeDigitsOf(d[1..], rest);
      assert (d + rest)[1..] == d[1..] + rest && (d + rest)[0] == d[0];
      assert d == [d[0]] + d[1..];
      hide AllDigits;
    }
  }

  // ----- prefixes -----

  predicate StartsWith(s: string, prefix: string) {
    |prefix| <= |s| && s[..|prefix|] == prefix
  }

  lemma StartsWithStep(c: char, s: string, d: char, prefix: string)
    ensures StartsWith([c] + s, [d] + prefix) <==> c == d && StartsWith(s, prefix)
  {
    if |prefix| <= |s| {
      assert ([c] + s)[..|[d] + prefix|] == [c] + s[..|prefix|];
      assert ([d] + prefix)[1..] == prefix && ([c] + s[..|prefix|])[1..] == s[..|prefix|];
    }
  }

  // ----- the order of strings -----

  /** One or two UTF-16 units. */
  function CharUnits(c: char): seq<int> {
    if c < '\U{10000}' then [c as int] else [0xD7C0 + c as int / 0x400, 0xDC00 + c as int % 0x400]
  }

  function Units(s: string): seq<int> {
    if s == "" then [] else CharUnits(s[0]) + Units(s[1..])
  }

  predicate UnitsLe(a: seq<int>, b: seq<int>) {
    if a == [] then true
    else if b == [] then false
    else a[0] < b[0] || (a[0] == b[0] && UnitsLe(a[1..], b[1..]))
  }

  /** The order of `<` and of `Array.prototype.sort` on strings: by UTF-16 units. */
  predicate LexLe(a: string, b: string) {
    UnitsLe(Units(a), Units(b))
  }

  lemma {:induction false} UnitsTotal(a: seq<int>, b: seq<int>)
    ensures UnitsLe(a, b) || UnitsLe(b, a)
    ensures UnitsLe(a, b) && UnitsLe(b, a) ==> a == b
  {
    if a != [] && b != [] {
      UnitsTotal(a[1..], b[1..]);
      assert a == [a[0]] + a[1..] && b == [b[0]] + b[1..];
    }
  }

  lemma {:induction false} UnitsTransitive(a: seq<int>, b: seq<int>, c: seq<int>)
    requires UnitsLe(a, b) && UnitsLe(b, c)
    ensures UnitsLe(a, c)
  {
    if a != [] && b != [] && c != [] && a[0] == b[0] == c[0] {
      UnitsTransitive(a[1..], b[1..], c[1..]);
    }
  }

  /** The first units tell the first characters apart. */
  lemma FirstChar(c: char, x: seq<int>, d: char, y: seq<int>)
    requires CharUnits(c) + x == CharUnits(d) + y
    ensures c == d && x == y
  {
    var u, v := CharUnits(c) + x, CharUnits(d) + y;
    assert u[0] == v[0] && u[0] == CharUnits(c)[0] && v[0] == CharUnits(d)[0];
    assert |CharUnits(c)| == |CharUnits(d)|;
    assert u[|CharUnits(c)|..] == x && v[|CharUnits(c)|..] == y;
    assert u[..|CharUnits(c)|] == CharUnits(c) && v[..|CharUnits(c)|] == CharUnits(d);
  }

  lemma {:induction false} UnitsInjective(a: string, b: string)
    requires Units(a) == Units(b)
    ensures a == b
  {
    if a != "" && b != "" {
      FirstChar(a[0], Units(a[1..]), b[0], Units(b[1..]));
      UnitsInjective(a[1..], b[1..]);
      assert a == [a[0]] + a[1..] && b == [b[0]] + b[1..];
    }
  }

  lemma LexOrder()
    ensures TotalPreorder(LexLe) && Antisymmetric(LexLe)
  {
    forall a, b
      ensures LexLe(a, b) || LexLe(b, a)
      ensures LexLe(a, b) && LexLe(b, a) ==> a == b
    {
      UnitsTotal(Units(a), Units(b));
      if Units(a) == Units(b) {
        UnitsInjective(a, b);
      }
    }
    forall a, b, c | LexLe(a, b) && LexLe(b, c)
      ensures LexLe(a, c)
    {
      UnitsTransitive(Units(a), Units(b), Units(c));
    }
  }

  // ----- the order of UTF-8 -----

  /** By code point, which is also the order of the UTF-8 bytes. */
  predicate PointsLe(a: string, b: string) {
    if a == "" then true
    else if b == "" then false
    else a[0] < b[0] || (a[0] == b[0] && PointsLe(a[1..], b[1..]))
  }

  /** One character beyond U+FFFF and one from U+E000 on: the surrogates of the first come before the second. */
  predicate Straddle(c: char, d: char) {
    (c >= '\U{10000}' && '\U{E000}' <= d < '\U{10000}') || (d >= '\U{10000}' && '\U{E000}' <= c < '\U{10000}')
  }

  /** The strings first differ in such a pair. */
  predicate Straddling(a: string, b: string) {
    a != "" && b != "" && if a[0] == b[0] then Straddling(a[1..], b[1..]) else Straddle(a[0], b[0])
  }

  lemma {:induction false} UnitsLeAppend(p: seq<int>, x: seq<int>, y: seq<int>)
    ensures UnitsLe(p + x, p + y) <==> UnitsLe(x, y)
  {
    if p == [] {
      assert p + x == x && p + y == y;
    } else {
      assert (p + x)[1..] == p[1..] + x && (p + y)[1..] == p[1..] + y;
      UnitsLeAppend(p[1..], x, y);
    }
  }

  lemma DifferentChars(c: char, x: seq<int>, d: char, y: seq<int>)
    requires c != d
    ensures UnitsLe(CharUnits(c) + x, CharUnits(d) + y) <==> (c < d) != Straddle(c, d)
  {
    var u, v := CharUnits(c), CharUnits(d);
    assert (u + x)[0] == u[0] && (v + y)[0] == v[0];
    if u[0] == v[0] {
      assert (u + x)[1..] == [u[1]] + x && (v + y)[1..] == [v[1]] + y;
      assert u[1] != v[1];
    }
  }

  /** The two orders agree on two strings exactly when these do not first differ in a straddling pair. */
  lemma {:induction false} OrdersAgreeExactly(a: string, b: string)
    ensures (LexLe(a, b) <==> PointsLe(a, b)) <==> !Straddling(a, b)
  {
    if a != "" && b != "" {
      if a[0] == b[0] {
        UnitsLeAppend(CharUnits(a[0]), Units(a[1..]), Units(b[1..]));
        OrdersAgreeExactly(a[1..], b[1..]);
      } else {
        DifferentChars(a[0], Units(a[1..]), b[0], Units(b[1..]));
      }
    }
  }

  // ----- collation -----

  /** What `localeCompare` is assumed to be: the sign of a total preorder. */
  ghost predicate Collation(collate: (string, string) -> int) {
    && (forall x, y :: collate(x, y) < 0 <==> collate(y, x) > 0)
    && (forall x, y, z :: collate(x, y) <= 0 && collate(y, z) <= 0 ==> collate(x, z) <= 0)
  }
}
