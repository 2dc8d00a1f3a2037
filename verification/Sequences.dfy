/** Facts about sequences that several components share: distinctness, first occurrences and stable sorting. */
module Sequences {
  predicate Distinct<T(==)>(s: seq<T>) {
    forall i, j :: 0 <= i < j < |s| ==> s[i] != s[j]
  }

  ghost function Elements<T>(s: seq<T>): set<T> {
    set x | x in s
  }

  lemma {:induction false} DistinctOnce<T>(s: seq<T>, x: T)
    requires Distinct(s)
    ensures multiset(s)[x] == if x in s then 1 else 0
  {
    if s != [] {
      DistinctOnce(s[1..], x);
      assert s == [s[0]] + s[1..];
    }
  }

  lemma DistinctWithin<T>(s: seq<T>, t: seq<T>)
    requires Distinct(s) && (forall x :: x in s ==> x in t)
    ensures multiset(s) <= multiset(t) && |s| <= |t|
    ensures |s| == |t| ==> multiset(s) == multiset(t)
  {
    forall x
      ensures multiset(s)[x] <= multiset(t)[x]
    {
      DistinctOnce(s, x);
      if x in s {
        assert x in t;
      }
    }
    assert |multiset(t) - multiset(s)| == |t| - |s|;
    if |s| == |t| {
      assert multiset(t) == multiset(s) + (multiset(t) - multiset(s));
    }
  }

  lemma {:induction false} Pigeonhole<T>(s: seq<T>, holes: set<T>)
    requires |s| > |holes| && forall x :: x in s ==> x in holes
    ensures !Distinct(s)
  {
    if Distinct(s) {
      if s != [] {
        assert forall y :: y in s[1..] ==> y in holes - {s[0]};
        Pigeonhole(s[1..], holes - {s[0]});
      }
    }
  }

  lemma {:induction false} First<T>(s: seq<T>, x: T) returns (i: nat)
    requires x in s
    ensures i < |s| && s[i] == x && x !in s[..i]
  {
    if s[0] == x {
      i := 0;
    } else {
      i := First(s[1..], x);
      i := i + 1;
    }
  }

  lemma RepeatedTwice<T>(s: seq<T>, i: nat, j: nat)
    requires i < j < |s| && s[i] == s[j]
    ensures multiset(s)[s[i]] >= 2
  {
    assert s == s[..i] + [s[i]] + s[i + 1..j] + [s[j]] + s[j + 1..];
  }

  lemma DistinctPermutation<T>(s: seq<T>, t: seq<T>)
    requires Distinct(s) && multiset(s) == multiset(t)
    ensures Distinct(t)
  {
    forall i, j | 0 <= i < j < |t|
      ensures t[i] != t[j]
    {
      DistinctOnce(s, t[i]);
      if t[i] == t[j] {
        RepeatedTwice(t, i, j);
      }
    }
  }

  // ----- first occurrences -----

  predicate Occurs<T, K(==)>(f: T -> K, s: seq<T>, k: K) {
    exists i :: 0 <= i < |s| && f(s[i]) == k
  }

  /** The elements of `s` whose image under `f` has not occurred before. */
  function UniqueBy<T, K(==)>(f: T -> K, s: seq<T>): seq<T> {
    if s == [] then []
    else
      var s', x := s[..|s| - 1], s[|s| - 1];
      UniqueBy(f, s') + if Occurs(f, s', f(x)) then [] else [x]
  }

  lemma OccursAppend<T, K>(f: T -> K, a: seq<T>, b: seq<T>, k: K)
    ensures Occurs(f, a + b, k) <==> Occurs(f, a, k) || Occurs(f, b, k)
  {
    if i :| 0 <= i < |a| && f(a[i]) == k {
      assert f((a + b)[i]) == k;
    }
    if i :| 0 <= i < |b| && f(b[i]) == k {
      assert f((a + b)[|a| + i]) == k;
    }
  }

  lemma {:induction false} OccursUnique<T, K>(f: T -> K, s: seq<T>, k: K)
    ensures Occurs(f, UniqueBy(f, s), k) <==> Occurs(f, s, k)
  {
    if s != [] {
      var s', x := s[..|s| - 1], s[|s| - 1];
      OccursUnique(f, s', k);
      assert s == s' + [x];
      OccursAppend(f, s', [x], k);
      assert f([x][0]) == f(x);
      if !Occurs(f, s', f(x)) {
        OccursAppend(f, UniqueBy(f, s'), [x], k);
      } else {
        assert UniqueBy(f, s) == UniqueBy(f, s');
      }
    }
  }

  lemma {:induction false} UniqueByFrom<T, K>(f: T -> K, s: seq<T>)
    ensures forall x :: x in UniqueBy(f, s) ==> x in s
  {
    if s != [] {
      UniqueByFrom(f, s[..|s| - 1]);
      assert s == s[..|s| - 1] + [s[|s| - 1]];
    }
  }

  lemma {:induction false} UniqueByDistinct<T, K>(f: T -> K, s: seq<T>)
    ensures forall i, j :: 0 <= i < j < |UniqueBy(f, s)| ==> f(UniqueBy(f, s)[i]) != f(UniqueBy(f, s)[j])
  {
    if s != [] {
      var s', x := s[..|s| - 1], s[|s| - 1];
      UniqueByDistinct(f, s');
      OccursUnique(f, s', f(x));
    }
  }

  /** Removing repetitions early does not matter. */
  lemma {:induction false} UniqueByAppend<T, K>(f: T -> K, a: seq<T>, b: seq<T>)
    ensures UniqueBy(f, UniqueBy(f, a) + b) == UniqueBy(f, a + b)
  {
    if b == [] {
      assert a + b == a && UniqueBy(f, a) + b == UniqueBy(f, a);
      UniqueByIdempotent(f, a);
    } else {
      var b', x := b[..|b| - 1], b[|b| - 1];
      UniqueByAppend(f, a, b');
      OccursUnique(f, a, f(x));
      OccursAppend(f, a, b', f(x));
      OccursAppend(f, UniqueBy(f, a), b', f(x));
      assert (UniqueBy(f, a) + b)[..|UniqueBy(f, a) + b| - 1] == UniqueBy(f, a) + b';
      assert (a + b)[..|a + b| - 1] == a + b';
    }
  }

  lemma {:induction false} UniqueByIdempotent<T, K>(f: T -> K, a: seq<T>)
    ensures UniqueBy(f, UniqueBy(f, a)) == UniqueBy(f, a)
  {
    UniqueByDistinct(f, a);
    UniqueByAll(f, UniqueBy(f, a));
  }

  lemma {:induction false} UniqueByAll<T, K>(f: T -> K, a: seq<T>)
    requires forall i, j :: 0 <= i < j < |a| ==> f(a[i]) != f(a[j])
    ensures UniqueBy(f, a) == a
  {
    if a != [] {
      var rest := a[..|a| - 1];
      UniqueByAll(f, rest);
      assert a == rest + [a[|a| - 1]];
      assert forall i :: 0 <= i < |rest| ==> f(rest[i]) != f(a[|a| - 1]);
    }
  }

  /** No element is dropped exactly when equal images mean equal elements. */
  lemma UniqueByLossless<T, K>(f: T -> K, s: seq<T>)
    ensures (forall x :: x in s ==> x in UniqueBy(f, s)) <==> (forall x, y :: x in s && y in s && f(x) == f(y) ==> x == y)
  {
    var u := UniqueBy(f, s);
    UniqueByFrom(f, s);
    UniqueByDistinct(f, s);
    hide UniqueBy;
    if forall x :: x in s ==> x in u {
      forall x, y | x in s && y in s && f(x) == f(y)
        ensures x == y
      {
        var i :| 0 <= i < |u| && u[i] == x;
        var j :| 0 <= j < |u| && u[j] == y;
      }
    }
    if forall x, y :: x in s && y in s && f(x) == f(y) ==> x == y {
      forall x | x in s
        ensures x in u
      {
        var h :| 0 <= h < |s| && s[h] == x;
        assert Occurs(f, s, f(x));
        OccursUnique(f, s, f(x));
        var i :| 0 <= i < |u| && f(u[i]) == f(x);
        assert u[i] in s;
      }
    }
  }

  // ----- stable sorting -----

  ghost predicate TotalPreorder<T(!new)>(le: (T, T) -> bool) {
    && (forall x, y :: le(x, y) || le(y, x))
    && (forall x, y, z :: le(x, y) && le(y, z) ==> le(x, z))
  }

  ghost predicate Antisymmetric<T(!new)>(le: (T, T) -> bool) {
    forall x, y :: le(x, y) && le(y, x) ==> x == y
  }

  predicate SortedBy<T>(le: (T, T) -> bool, s: seq<T>) {
    forall i, j :: 0 <= i < j < |s| ==> le(s[i], s[j])
  }

  /** Puts `x` in front of the first element that does not have to come before it. */
  function Insert<T>(le: (T, T) -> bool, x: T, s: seq<T>): seq<T> {
    if s == [] || le(x, s[0]) then [x] + s else [s[0]] + Insert(le, x, s[1..])
  }

  function Sort<T>(le: (T, T) -> bool, s: seq<T>): seq<T> {
    if s == [] then [] else Insert(le, s[0], Sort(le, s[1..]))
  }

  function Filter<T>(p: T -> bool, s: seq<T>): seq<T> {
    if s == [] then [] else (if p(s[0]) then [s[0]] else []) + Filter(p, s[1..])
  }

  lemma {:induction false} FilterAppend<T>(p: T -> bool, a: seq<T>, b: seq<T>)
    ensures Filter(p, a + b) == Filter(p, a) + Filter(p, b)
  {
    if a == [] {
      assert a + b == b;
    } else {
      FilterAppend(p, a[1..], b);
      assert (a + b)[1..] == a[1..] + b && (a + b)[0] == a[0];
      var first := if p(a[0]) then [a[0]] else [];
      assert Filter(p, a + b) == first + (Filter(p, a[1..]) + Filter(p, b));
      Associative(first, Filter(p, a[1..]), Filter(p, b));
    }
  }

  lemma {:induction false} FilterMembers<T>(p: T -> bool, s: seq<T>, x: T)
    ensures x in Filter(p, s) <==> x in s && p(x)
  {
    if s != [] {
      FilterMembers(p, s[1..], x);
      assert s == [s[0]] + s[1..];
    }
  }

  lemma Associative<T>(a: seq<T>, b: seq<T>, c: seq<T>)
    ensures a + (b + c) == a + b + c
  {
  }

  lemma {:induction false} InsertSorted<T(!new)>(le: (T, T) -> bool, x: T, s: seq<T>)
    requires TotalPreorder(le) && SortedBy(le, s)
    ensures multiset(Insert(le, x, s)) == multiset(s) + multiset{x}
    ensures SortedBy(le, Insert(le, x, s))
  {
    if s == [] || le(x, s[0]) {
    } else {
      InsertSorted(le, x, s[1..]);
      var t := Insert(le, x, s[1..]);
      assert s == [s[0]] + s[1..];
      forall j | 0 <= j < |t|
        ensures le(s[0], t[j])
      {
        assert t[j] in multiset(t);
        assert t[j] == x || t[j] in s[1..];
      }
    }
  }

  lemma {:induction false} SortSorted<T(!new)>(le: (T, T) -> bool, s: seq<T>)
    requires TotalPreorder(le)
    ensures multiset(Sort(le, s)) == multiset(s)
    ensures SortedBy(le, Sort(le, s))
    ensures |Sort(le, s)| == |s|
  {
    if s != [] {
      SortSorted(le, s[1..]);
      InsertSorted(le, s[0], Sort(le, s[1..]));
      assert s == [s[0]] + s[1..];
    }
    assert |multiset(Sort(le, s))| == |multiset(s)|;
  }

  lemma {:induction false} InsertStable<T(!new)>(le: (T, T) -> bool, x: T, s: seq<T>, p: T -> bool)
    requires TotalPreorder(le)
    requires forall y, z :: p(y) && p(z) ==> le(y, z)
    ensures Filter(p, Insert(le, x, s)) == (if p(x) then [x] else []) + Filter(p, s)
  {
    if s == [] || le(x, s[0]) {
      assert ([x] + s)[1..] == s;
    } else {
      InsertStable(le, x, s[1..], p);
    }
  }

  /** Elements that tie keep their order. */
  lemma {:induction false} SortStable<T(!new)>(le: (T, T) -> bool, s: seq<T>, p: T -> bool)
    requires TotalPreorder(le)
    requires forall y, z :: p(y) && p(z) ==> le(y, z)
    ensures Filter(p, Sort(le, s)) == Filter(p, s)
  {
    if s != [] {
      SortStable(le, s[1..], p);
      InsertStable(le, s[0], Sort(le, s[1..]), p);
    }
  }

  lemma RemoveAt<T>(s: seq<T>, i: nat)
    requires i < |s|
    ensures multiset(s[..i] + s[i + 1..]) == multiset(s) - multiset{s[i]}
  {
    assert s == s[..i] + [s[i]] + s[i + 1..];
  }

  lemma FilterWithout<T>(p: T -> bool, s: seq<T>, i: nat)
    requires i < |s|
    ensures |Filter(p, s)| == |Filter(p, s[..i] + s[i + 1..])| + if p(s[i]) then 1 else 0
  {
    assert s == s[..i] + ([s[i]] + s[i + 1..]);
    FilterAppend(p, s[..i], [s[i]] + s[i + 1..]);
    FilterAppend(p, [s[i]], s[i + 1..]);
    FilterAppend(p, s[..i], s[i + 1..]);
    assert [s[i]][1..] == [];
  }

  lemma PermutedTail<T>(s: seq<T>, t: seq<T>) returns (i: nat)
    requires s != [] && multiset(s) == multiset(t)
    ensures i < |t| && t[i] == s[0] && multiset(s[1..]) == multiset(t[..i] + t[i + 1..])
  {
    assert s[0] in multiset(t);
    i :| 0 <= i < |t| && t[i] == s[0];
    TailMultiset(s);
    RemoveAt(t, i);
  }

  /** As many elements are kept of a permutation. */
  lemma {:induction false} SameFiltered<T>(p: T -> bool, s: seq<T>, t: seq<T>)
    requires multiset(s) == multiset(t)
    ensures |Filter(p, s)| == |Filter(p, t)|
  {
    if s == [] {
      assert |multiset(t)| == 0;
    } else {
      var i := PermutedTail(s, t);
      SameFiltered(p, s[1..], t[..i] + t[i + 1..]);
      FilterWithout(p, t, i);
    }
  }

  lemma {:induction false} FilterAll<T>(p: T -> bool, s: seq<T>)
    requires forall i :: 0 <= i < |s| ==> p(s[i])
    ensures Filter(p, s) == s
  {
    if s != [] {
      FilterAll(p, s[1..]);
    }
  }

  lemma {:induction false} FilterNone<T>(p: T -> bool, s: seq<T>)
    requires forall i :: 0 <= i < |s| ==> !p(s[i])
    ensures Filter(p, s) == []
  {
    if s != [] {
      FilterNone(p, s[1..]);
    }
  }

  /** The first element that is kept. */
  lemma {:induction false} FilterFirst<T>(p: T -> bool, s: seq<T>) returns (k: nat)
    requires Filter(p, s) != []
    ensures k < |s| && p(s[k]) && s[k] == Filter(p, s)[0] && forall j :: 0 <= j < k ==> !p(s[j])
  {
    if p(s[0]) {
      k := 0;
    } else {
      k := FilterFirst(p, s[1..]);
      k := k + 1;
    }
  }

  /** Sorted permutations of each other tie place by place. */
  lemma SortedTie<T(!new)>(le: (T, T) -> bool, s: seq<T>, t: seq<T>, i: nat)
    requires TotalPreorder(le) && SortedBy(le, s) && SortedBy(le, t) && multiset(s) == multiset(t) && i < |s|
    ensures |s| == |t| && le(s[i], t[i])
  {
    assert |multiset(s)| == |multiset(t)|;
    if !le(s[i], t[i]) {
      var p := Below(le, t[i]);
      UpTo(le, t, i);
      Before(le, s, i, t[i]);
      hide SortedBy, Filter;
      SameFiltered(p, s, t);
    }
  }

  function Below<T>(le: (T, T) -> bool, x: T): T -> bool {
    y => le(y, x)
  }

  lemma UpTo<T(!new)>(le: (T, T) -> bool, t: seq<T>, i: nat)
    requires TotalPreorder(le) && SortedBy(le, t) && i < |t|
    ensures |Filter(Below(le, t[i]), t)| >= i + 1
  {
    assert le(t[i], t[i]);
    hide Filter;
    assert t == t[..i + 1] + t[i + 1..];
    AllOfFirst(Below(le, t[i]), t[..i + 1], t[i + 1..]);
  }

  lemma Before<T(!new)>(le: (T, T) -> bool, s: seq<T>, i: nat, x: T)
    requires TotalPreorder(le) && SortedBy(le, s) && i < |s| && !le(s[i], x)
    ensures |Filter(Below(le, x), s)| <= i
  {
    hide Filter;
    assert s == s[..i] + s[i..];
    forall j | i <= j < |s|
      ensures !le(s[j], x)
    {
      assert le(s[i], s[i]) && le(s[i], s[j]);
    }
    KeptOfFirst(Below(le, x), s[..i], s[i..]);
  }

  lemma KeptOfFirst<T>(p: T -> bool, a: seq<T>, b: seq<T>)
    requires forall i :: 0 <= i < |b| ==> !p(b[i])
    ensures |Filter(p, a + b)| <= |a|
  {
    FilterAppend(p, a, b);
    FilterNone(p, b);
    FilterShorter(p, a);
    hide Filter;
    assert Filter(p, a) + [] == Filter(p, a);
  }

  lemma AllOfFirst<T>(p: T -> bool, a: seq<T>, b: seq<T>)
    requires forall i :: 0 <= i < |a| ==> p(a[i])
    ensures |Filter(p, a + b)| >= |a|
  {
    FilterAppend(p, a, b);
    FilterAll(p, a);
    hide Filter;
  }

  lemma {:induction false} FilterShorter<T>(p: T -> bool, s: seq<T>)
    ensures |Filter(p, s)| <= |s|
  {
    if s != [] {
      FilterShorter(p, s[1..]);
    }
  }

  lemma {:induction false} SortOfSorted<T>(le: (T, T) -> bool, s: seq<T>)
    requires SortedBy(le, s)
    ensures Sort(le, s) == s
  {
    if s != [] {
      SortOfSorted(le, s[1..]);
      assert |s| > 1 ==> le(s[0], s[1]);
    }
  }

  /** Where ties mean equality, there is only one way to sort. */
  lemma {:induction false} SortedUnique<T(!new)>(le: (T, T) -> bool, s: seq<T>, t: seq<T>)
    requires SortedBy(le, s) && SortedBy(le, t) && multiset(s) == multiset(t)
    requires forall x, y :: x in s && y in s && le(x, y) && le(y, x) ==> x == y
    ensures s == t
  {
    if s == [] {
      assert |multiset(t)| == 0;
    } else {
      assert |multiset(t)| == |multiset(s)|;
      SameHead(le, s, t);
      TailMultiset(s);
      TailMultiset(t);
      SortedUnique(le, s[1..], t[1..]);
    }
  }

  lemma TailMultiset<T>(s: seq<T>)
    requires s != []
    ensures multiset(s[1..]) == multiset(s) - multiset{s[0]}
  {
    assert s == [s[0]] + s[1..];
  }

  lemma SameHead<T(!new)>(le: (T, T) -> bool, s: seq<T>, t: seq<T>)
    requires s != [] && t != [] && SortedBy(le, s) && SortedBy(le, t) && multiset(s) == multiset(t)
    requires forall x, y :: x in s && y in s && le(x, y) && le(y, x) ==> x == y
    ensures s[0] == t[0]
  {
    assert s[0] in multiset(t) && t[0] in multiset(s);
    var i :| 0 <= i < |t| && t[i] == s[0];
    var j :| 0 <= j < |s| && s[j] == t[0];
    if i > 0 && j > 0 {
      assert le(t[0], t[i]) && le(s[0], s[j]);
    }
  }

  lemma SortPermutation<T(!new)>(le: (T, T) -> bool, s: seq<T>, t: seq<T>)
    requires TotalPreorder(le) && multiset(s) == multiset(t)
    requires forall x, y :: x in s && y in s && le(x, y) && le(y, x) ==> x == y
    ensures Sort(le, s) == Sort(le, t)
  {
    SortSorted(le, s);
    SortSorted(le, t);
    forall x | x in Sort(le, s)
      ensures x in s
    {
      assert x in multiset(Sort(le, s));
    }
    SortedUnique(le, Sort(le, s), Sort(le, t));
  }
}
