/** The text a target capability snapshot is hashed from (packages/chain-registry/src/snapshot.ts:59-80). */
module TargetSnapshot {
  import opened CanonicalJson
  import opened Options
  import opened Sequences
  import opened Text

  /** An item of a list: the field it is sorted by, and the item. */
  datatype Listed = Listed(sortKey: string, json: Json)

  datatype Snapshot = Snapshot(registryVersion: string, chainKey: string, chainId: string, family: string, evmVersion: Json,
                               rpcUrls: seq<string>, tokens: seq<Listed>, rpcMethods: seq<Listed>,
                               protocols: seq<Listed>, feeds: seq<Listed>)

  function ByKey(collate: (string, string) -> int): (Listed, Listed) -> bool {
    (a: Listed, b: Listed) => collate(a.sortKey, b.sortKey) <= 0
  }

  function Texts(strings: seq<string>): seq<Json> {
    seq(|strings|, i requires 0 <= i < |strings| => Str(strings[i]))
  }

  function Jsons(list: seq<Listed>): seq<Json> {
    seq(|list|, i requires 0 <= i < |list| => list[i].json)
  }

  function SortedList(collate: (string, string) -> int, list: seq<Listed>): Json {
    Arr(Jsons(Sort(ByKey(collate), list)))
  }

  function Canonical(collate: (string, string) -> int, s: Snapshot): Json {
    Obj([Entry("registryVersion", Str(s.registryVersion)),
         Entry("chainKey", Str(s.chainKey)),
         Entry("chainId", Num(s.chainId)),
         Entry("family", Str(s.family)),
         Entry("evmVersion", s.evmVersion),
         Entry("rpcUrls", Arr(Texts(Sort(LexLe, s.rpcUrls)))),
         Entry("tokens", SortedList(collate, s.tokens)),
         Entry("rpcMethods", SortedList(collate, s.rpcMethods)),
         Entry("protocols", SortedList(collate, s.protocols)),
         Entry("feeds", SortedList(collate, s.feeds))])
  }

  function SnapshotText(collate: (string, string) -> int, s: Snapshot): Option<string> {
    Canonicalized(Canonical(collate, s))
  }

  lemma ByKeyIsPreorder(collate: (string, string) -> int)
    requires Collation(collate)
    ensures TotalPreorder(ByKey(collate))
  {
    var le := ByKey(collate);
    forall x, y, z | le(x, y) && le(y, z)
      ensures le(x, z)
    {
      assert collate(x.sortKey, y.sortKey) <= 0 && collate(y.sortKey, z.sortKey) <= 0;
    }
    forall x, y
      ensures le(x, y) || le(y, x)
    {
      assert collate(x.sortKey, y.sortKey) < 0 <==> collate(y.sortKey, x.sortKey) > 0;
      assert collate(y.sortKey, x.sortKey) < 0 <==> collate(x.sortKey, y.sortKey) > 0;
    }
  }

  // ----- nothing else does not matter -----

  predicate ProperList(list: seq<Listed>) {
    forall i :: 0 <= i < |list| ==> Proper(list[i].json)
  }

  predicate ProperSnapshot(s: Snapshot) {
    && IsNumeral(s.chainId) && Proper(s.evmVersion) && ProperList(s.tokens) && ProperList(s.rpcMethods)
    && ProperList(s.protocols) && ProperList(s.feeds)
  }

  lemma SortedListProper(collate: (string, string) -> int, list: seq<Listed>)
    requires Collation(collate) && ProperList(list)
    ensures Proper(SortedList(collate, list))
  {
    ByKeyIsPreorder(collate);
    SortSorted(ByKey(collate), list);
    var sorted := Sort(ByKey(collate), list);
    forall i | 0 <= i < |sorted|
      ensures Proper(sorted[i].json)
    {
      assert sorted[i] in multiset(list);
    }
  }

  const FIELDS := ["registryVersion", "chainKey", "chainId", "family", "evmVersion", "rpcUrls", "tokens", "rpcMethods",
                   "protocols", "feeds"]

  lemma FieldsOf(collate: (string, string) -> int, s: Snapshot)
    ensures Keys(Canonical(collate, s).entries) == FIELDS && Distinct(FIELDS)
  {
    hide SortedList, Texts, Sort;
    assert "registryVersion"[0] == 'r' && "rpcUrls"[3] == 'U' && "rpcMethods"[3] == 'M';
    assert "chainKey"[5] == 'K' && "chainId"[5] == 'I';
  }

  lemma TextsProper(strings: seq<string>)
    ensures Proper(Arr(Texts(strings)))
  {
  }

  lemma Fields(collate: (string, string) -> int, s: Snapshot)
    ensures var e := Canonical(collate, s).entries;
            && |e| == 10
            && e[0].value == Str(s.registryVersion) && e[1].value == Str(s.chainKey) && e[2].value == Num(s.chainId)
            && e[3].value == Str(s.family) && e[4].value == s.evmVersion && e[5].value == Arr(Texts(Sort(LexLe, s.rpcUrls)))
            && e[6].value == SortedList(collate, s.tokens) && e[7].value == SortedList(collate, s.rpcMethods)
            && e[8].value == SortedList(collate, s.protocols) && e[9].value == SortedList(collate, s.feeds)
  {
    hide Texts, Sort, SortedList;
  }

  lemma ObjectProper(entries: seq<Entry>)
    requires Distinct(Keys(entries)) && forall i :: 0 <= i < |entries| ==> Proper(entries[i].value)
    ensures Proper(Obj(entries))
  {
  }

  lemma CanonicalProper(collate: (string, string) -> int, s: Snapshot)
    requires Collation(collate) && ProperSnapshot(s)
    ensures Proper(Canonical(collate, s))
  {
    FieldsOf(collate, s);
    Fields(collate, s);
    TextsProper(Sort(LexLe, s.rpcUrls));
    SortedListProper(collate, s.tokens);
    SortedListProper(collate, s.rpcMethods);
    SortedListProper(collate, s.protocols);
    SortedListProper(collate, s.feeds);
    assert Proper(Str(s.registryVersion)) && Proper(Str(s.chainKey)) && Proper(Num(s.chainId)) && Proper(Str(s.family));
    hide Collation, ProperList, SortedList, Sort, Distinct, Keys, Texts, Canonical, Proper;
    ObjectProper(Canonical(collate, s).entries);
  }

  /** Field by field. */
  lemma SameFields(collate: (string, string) -> int, s: Snapshot, t: Snapshot, i: nat)
    requires Equivalent(Canonical(collate, s), Canonical(collate, t)) && i < 10
    ensures Equivalent(Canonical(collate, s).entries[i].value, Canonical(collate, t).entries[i].value)
  {
    var a, b := Canonical(collate, s).entries, Canonical(collate, t).entries;
    FieldsOf(collate, s);
    FieldsOf(collate, t);
    assert a[i].key == Keys(a)[i] && b[i].key == Keys(b)[i];
    assert FIELDS[i] != "__proto__" by { assert "__proto__"[0] == '_' && FIELDS[i][0] != '_'; }
    hide Canonical;
    assert Shared(a, b, i, i);
  }

  lemma EquivalentTexts(a: seq<string>, b: seq<string>)
    requires Equivalent(Arr(Texts(a)), Arr(Texts(b)))
    ensures a == b
  {
    assert |Texts(a)| == |a| && |Texts(b)| == |b|;
    forall i | 0 <= i < |a|
      ensures a[i] == b[i]
    {
      assert Equivalent(Texts(a)[i], Texts(b)[i]);
    }
  }

  /** Snapshots with the same text agree in every field, and in every item of every list. */
  lemma TextDeterminesSnapshot(collate: (string, string) -> int, s: Snapshot, t: Snapshot)
    requires Collation(collate) && ProperSnapshot(s) && ProperSnapshot(t)
    requires SnapshotText(collate, s) == SnapshotText(collate, t)
    ensures s.registryVersion == t.registryVersion && s.chainKey == t.chainKey && s.chainId == t.chainId && s.family == t.family
    ensures Equivalent(s.evmVersion, t.evmVersion)
    ensures multiset(s.rpcUrls) == multiset(t.rpcUrls)
    ensures Equivalent(SortedList(collate, s.tokens), SortedList(collate, t.tokens))
    ensures Equivalent(SortedList(collate, s.rpcMethods), SortedList(collate, t.rpcMethods))
    ensures Equivalent(SortedList(collate, s.protocols), SortedList(collate, t.protocols))
    ensures Equivalent(SortedList(collate, s.feeds), SortedList(collate, t.feeds))
  {
    CanonicalProper(collate, s);
    CanonicalProper(collate, t);
    SameText(Canonical(collate, s), Canonical(collate, t));
    Fields(collate, s);
    Fields(collate, t);
    SortSorted(LexLe, s.rpcUrls) by { LexOrder(); }
    SortSorted(LexLe, t.rpcUrls) by { LexOrder(); }
    hide *;
    forall i | 0 <= i < 10
      ensures Equivalent(Canonical(collate, s).entries[i].value, Canonical(collate, t).entries[i].value)
    {
      SameFields(collate, s, t, i);
    }
    Scalars(s.registryVersion, t.registryVersion);
    Scalars(s.chainKey, t.chainKey);
    Scalars(s.chainId, t.chainId);
    Scalars(s.family, t.family);
    EquivalentTexts(Sort(LexLe, s.rpcUrls), Sort(LexLe, t.rpcUrls));
  }

  lemma Scalars(a: string, b: string)
    ensures Equivalent(Str(a), Str(b)) ==> a == b
    ensures Equivalent(Num(a), Num(b)) ==> a == b
  {
  }

  // ----- when the order of the lists does not matter -----

  /** Items that the collation does not tell apart are printed alike. */
  ghost predicate TiesAgree(collate: (string, string) -> int, list: seq<Listed>) {
    forall x, y :: x in list && y in list && collate(x.sortKey, y.sortKey) == 0 ==> Equivalent(x.json, y.json)
  }

  lemma TiedEverywhere(collate: (string, string) -> int, a: seq<Listed>, b: seq<Listed>, i: nat)
    requires Collation(collate) && multiset(a) == multiset(b) && i < |a|
    ensures var sa, sb := Sort(ByKey(collate), a), Sort(ByKey(collate), b);
            && |sa| == |sb| == |a| && sa[i] in a && sb[i] in a
            && collate(sa[i].sortKey, sb[i].sortKey) == 0
  {
    var le := ByKey(collate);
    var sa, sb := Sort(le, a), Sort(le, b);
    ByKeyIsPreorder(collate);
    SortSorted(le, a);
    SortSorted(le, b);
    SortedTie(le, sa, sb, i);
    SortedTie(le, sb, sa, i);
    assert sa[i] in multiset(a) && sb[i] in multiset(a);
    assert collate(sb[i].sortKey, sa[i].sortKey) <= 0;
  }

  lemma SortedLength(collate: (string, string) -> int, list: seq<Listed>)
    requires Collation(collate)
    ensures |Sort(ByKey(collate), list)| == |list|
  {
    ByKeyIsPreorder(collate);
    SortSorted(ByKey(collate), list);
  }

  lemma ListsAgree(collate: (string, string) -> int, a: seq<Listed>, b: seq<Listed>)
    requires Collation(collate) && multiset(a) == multiset(b) && TiesAgree(collate, a)
    ensures Equivalent(SortedList(collate, a), SortedList(collate, b))
  {
    var sa, sb := Sort(ByKey(collate), a), Sort(ByKey(collate), b);
    SortedLength(collate, a);
    SortedLength(collate, b);
    assert |multiset(a)| == |multiset(b)|;
    hide Collation, Sort;
    forall i | 0 <= i < |a|
      ensures Equivalent(sa[i].json, sb[i].json)
    {
      TiedEverywhere(collate, a, b, i);
    }
  }

  function TiedWith(collate: (string, string) -> int, x: Listed): Listed -> bool {
    (y: Listed) => collate(x.sortKey, y.sortKey) == 0
  }

  /** The first of the items that tie with `x` keeps its lead. */
  lemma FirstOfTies(collate: (string, string) -> int, list: seq<Listed>, x: Listed) returns (k: nat)
    requires Collation(collate) && list != [] && collate(x.sortKey, list[0].sortKey) == 0
    ensures var s := Sort(ByKey(collate), list);
            && |s| == |list| && k < |s| && s[k] == list[0]
            && TiedWith(collate, x)(s[k]) && forall j :: 0 <= j < k ==> !TiedWith(collate, x)(s[j])
  {
    var le, p := ByKey(collate), TiedWith(collate, x);
    ByKeyIsPreorder(collate);
    TiedTogether(collate, x);
    SortStable(le, list, p);
    SortedLength(collate, list);
    assert Filter(p, list)[0] == list[0];
    hide Filter, Sort;
    k := FilterFirst(p, Sort(le, list));
  }

  lemma TiedTogether(collate: (string, string) -> int, x: Listed)
    requires Collation(collate)
    ensures forall y, z :: TiedWith(collate, x)(y) && TiedWith(collate, x)(z) ==> ByKey(collate)(y, z)
  {
    forall y, z | TiedWith(collate, x)(y) && TiedWith(collate, x)(z)
      ensures ByKey(collate)(y, z)
    {
      assert collate(y.sortKey, x.sortKey) <= 0 && collate(x.sortKey, z.sortKey) <= 0;
    }
  }

  lemma PlaceShows(a: seq<Listed>, b: seq<Listed>, k: nat)
    requires k < |a| && k < |b| && !Equivalent(a[k].json, b[k].json)
    ensures !Equivalent(Arr(Jsons(a)), Arr(Jsons(b)))
  {
    assert Jsons(a)[k] == a[k].json && Jsons(b)[k] == b[k].json;
  }

  /** Of two items that tie, the one given first comes first. */
  lemma OrderShows(collate: (string, string) -> int, x: Listed, y: Listed, rest: seq<Listed>)
    requires Collation(collate) && collate(x.sortKey, y.sortKey) == 0 == collate(x.sortKey, x.sortKey)
    requires !Equivalent(x.json, y.json)
    ensures !Equivalent(SortedList(collate, [x, y] + rest), SortedList(collate, [y, x] + rest))
  {
    var a, b := [x, y] + rest, [y, x] + rest;
    var sa, sb := Sort(ByKey(collate), a), Sort(ByKey(collate), b);
    assert multiset(a) == multiset(b);
    var k := FirstOfTies(collate, a, x);
    var m := FirstOfTies(collate, b, x);
    TiedEverywhere(collate, a, b, k);
    TiedEverywhere(collate, a, b, m);
    SameTies(collate, x, sa[k], sb[k]);
    SameTies(collate, x, sa[m], sb[m]);
    hide Sort, Collation, TiedWith;
    assert k == m;
    PlaceShows(sa, sb, k);
  }

  lemma SameTies(collate: (string, string) -> int, x: Listed, y: Listed, z: Listed)
    requires Collation(collate) && collate(y.sortKey, z.sortKey) == 0
    ensures TiedWith(collate, x)(y) <==> TiedWith(collate, x)(z)
  {
    var a, b, c := x.sortKey, y.sortKey, z.sortKey;
    assert collate(a, b) <= 0 <==> collate(a, c) <= 0 by {
      assert collate(c, b) <= 0;
    }
    assert collate(b, a) <= 0 <==> collate(c, a) <= 0 by {
      assert collate(c, b) <= 0;
    }
  }

  lemma EquivalentItself(u: Json)
    requires Proper(u)
    ensures Equivalent(u, u)
  {
    FormIsEquivalence(u, u);
  }

  lemma Gathered(a: seq<Listed>, x: Listed, b: seq<Listed>, y: Listed, c: seq<Listed>)
    ensures multiset(a + [x] + b + [y] + c) == multiset([x, y] + (a + b + c)) == multiset([y, x] + (a + b + c))
  {
  }

  lemma TakeTwo(list: seq<Listed>, i: nat, j: nat) returns (rest: seq<Listed>)
    requires i < j < |list|
    ensures multiset(list) == multiset([list[i], list[j]] + rest) == multiset([list[j], list[i]] + rest)
    ensures forall h :: 0 <= h < |rest| ==> rest[h] in list
  {
    var a, b, c := list[..i], list[i + 1..j], list[j + 1..];
    rest := a + b + c;
    assert list == a + [list[i]] + b + [list[j]] + c;
    Gathered(a, list[i], b, list[j], c);
  }

  lemma ListsDiffer(collate: (string, string) -> int, list: seq<Listed>) returns (a: seq<Listed>, b: seq<Listed>)
    requires Collation(collate) && ProperList(list) && !TiesAgree(collate, list)
    ensures multiset(a) == multiset(b) == multiset(list)
    ensures !Equivalent(SortedList(collate, a), SortedList(collate, b))
  {
    var x, y :| x in list && y in list && collate(x.sortKey, y.sortKey) == 0 && !Equivalent(x.json, y.json);
    var i :| 0 <= i < |list| && list[i] == x;
    var j :| 0 <= j < |list| && list[j] == y;
    EquivalentItself(x.json);
    assert collate(x.sortKey, x.sortKey) == 0;
    var rest := TakeTwo(list, if i < j then i else j, if i < j then j else i);
    hide SortedList, Equivalent;
    OrderShows(collate, x, y, rest);
    a, b := [x, y] + rest, [y, x] + rest;
  }

  ghost predicate Permuted(s: Snapshot, t: Snapshot) {
    && t == s.(rpcUrls := t.rpcUrls, tokens := t.tokens, rpcMethods := t.rpcMethods, protocols := t.protocols, feeds := t.feeds)
    && multiset(s.rpcUrls) == multiset(t.rpcUrls) && multiset(s.tokens) == multiset(t.tokens)
    && multiset(s.rpcMethods) == multiset(t.rpcMethods) && multiset(s.protocols) == multiset(t.protocols)
    && multiset(s.feeds) == multiset(t.feeds)
  }

  ghost predicate AllTiesAgree(collate: (string, string) -> int, s: Snapshot) {
    && TiesAgree(collate, s.tokens) && TiesAgree(collate, s.rpcMethods)
    && TiesAgree(collate, s.protocols) && TiesAgree(collate, s.feeds)
  }

  lemma ProperPermuted(s: Snapshot, t: Snapshot)
    requires ProperSnapshot(s) && Permuted(s, t)
    ensures ProperSnapshot(t)
  {
    ProperPermutedList(s.tokens, t.tokens);
    ProperPermutedList(s.rpcMethods, t.rpcMethods);
    ProperPermutedList(s.protocols, t.protocols);
    ProperPermutedList(s.feeds, t.feeds);
  }

  lemma ProperPermutedList(a: seq<Listed>, b: seq<Listed>)
    requires ProperList(a) && multiset(a) == multiset(b)
    ensures ProperList(b)
  {
    forall i | 0 <= i < |b|
      ensures Proper(b[i].json)
    {
      assert b[i] in multiset(a);
    }
  }

  lemma LiveAlike(a: seq<Entry>, b: seq<Entry>, k: string)
    requires Keys(a) == Keys(b) && Distinct(Keys(a))
    requires forall i :: 0 <= i < |a| && i < |b| ==> (a[i].value == Undefined <==> b[i].value == Undefined)
    ensures Live(a, k) <==> Live(b, k)
  {
    assert |Keys(a)| == |a| && |Keys(b)| == |b|;
    if k in Keys(a) {
      var i :| 0 <= i < |a| && Keys(a)[i] == k;
      assert a[i].key == k == b[i].key;
      LookupAt(a, i);
      LookupAt(b, i);
    }
  }

  /** Objects with the same keys in the same order, and equivalent values. */
  lemma ValuesAgree(a: seq<Entry>, b: seq<Entry>)
    requires Keys(a) == Keys(b) && Distinct(Keys(a))
    requires forall i :: 0 <= i < |a| && i < |b| ==>
               Equivalent(a[i].value, b[i].value) && (a[i].value == Undefined <==> b[i].value == Undefined)
    ensures Equivalent(Obj(a), Obj(b))
  {
    assert |Keys(a)| == |a| && |Keys(b)| == |b|;
    assert forall i :: 0 <= i < |a| ==> a[i].key == Keys(a)[i] == Keys(b)[i] == b[i].key;
    forall k
      ensures Live(a, k) <==> Live(b, k)
    {
      LiveAlike(a, b, k);
    }
    forall i, j | Shared(a, b, i, j)
      ensures Equivalent(a[i].value, b[j].value)
    {
      assert Keys(a)[i] == Keys(a)[j];
    }
  }

  /** Permuting the lists of a snapshot keeps its text when tied items agree. */
  lemma PermutedLists(collate: (string, string) -> int, s: Snapshot, t: Snapshot)
    requires Collation(collate) && ProperSnapshot(s) && Permuted(s, t) && AllTiesAgree(collate, s)
    ensures SnapshotText(collate, s) == SnapshotText(collate, t)
  {
    LexOrder();
    SortPermutation(LexLe, s.rpcUrls, t.rpcUrls);
    ListsAgree(collate, s.tokens, t.tokens);
    ListsAgree(collate, s.rpcMethods, t.rpcMethods);
    ListsAgree(collate, s.protocols, t.protocols);
    ListsAgree(collate, s.feeds, t.feeds);
    ProperPermuted(s, t);
    CanonicalProper(collate, s);
    CanonicalProper(collate, t);
    hide *;
    FieldsAgree(collate, s, t);
  }

  lemma ListsAreArrays(collate: (string, string) -> int, s: Snapshot)
    ensures Canonical(collate, s).Obj? && forall i :: 6 <= i < 10 ==> Canonical(collate, s).entries[i].value.Arr?
  {
    hide Sort, Jsons, Texts;
  }

  lemma FieldsAgree(collate: (string, string) -> int, s: Snapshot, t: Snapshot)
    requires Permuted(s, t) && Proper(Canonical(collate, s)) && Proper(Canonical(collate, t))
    requires Sort(LexLe, s.rpcUrls) == Sort(LexLe, t.rpcUrls)
    requires Equivalent(SortedList(collate, s.tokens), SortedList(collate, t.tokens))
    requires Equivalent(SortedList(collate, s.rpcMethods), SortedList(collate, t.rpcMethods))
    requires Equivalent(SortedList(collate, s.protocols), SortedList(collate, t.protocols))
    requires Equivalent(SortedList(collate, s.feeds), SortedList(collate, t.feeds))
    ensures SnapshotText(collate, s) == SnapshotText(collate, t)
  {
    FieldsOf(collate, s);
    FieldsOf(collate, t);
    Fields(collate, s);
    Fields(collate, t);
    ListsAreArrays(collate, s);
    ListsAreArrays(collate, t);
    hide SortedList, Canonical, Proper, Equivalent, Distinct, Keys, Texts, LexLe, Sort, FIELDS, Canonicalized;
    ObjectsAgree(Canonical(collate, s), Canonical(collate, t));
  }

  /** Objects with the same ten fields, of which the first six are equal. */
  lemma ObjectsAgree(u: Json, v: Json)
    requires Proper(u) && Proper(v) && u.Obj? && v.Obj? && |u.entries| == |v.entries| == 10
    requires Keys(u.entries) == Keys(v.entries) && Distinct(Keys(u.entries))
    requires forall i :: 0 <= i < 6 ==> u.entries[i].value == v.entries[i].value
    requires forall i :: 6 <= i < 10 ==>
               Equivalent(u.entries[i].value, v.entries[i].value) && u.entries[i].value.Arr? && v.entries[i].value.Arr?
    ensures Canonicalized(u) == Canonicalized(v)
  {
    forall i | 0 <= i < 6
      ensures Equivalent(u.entries[i].value, v.entries[i].value)
    {
      assert Proper(u.entries[i].value);
      EquivalentItself(u.entries[i].value);
    }
    SameText(u, v);
    hide Equivalent, Canonicalized, Proper, Distinct, Keys;
    ValuesAgree(u.entries, v.entries);
  }

  /** Every permutation of the lists keeps the text of a snapshot exactly when items of a list that the collation does
      not tell apart are printed alike. */
  lemma PermutedListsExactly(collate: (string, string) -> int, s: Snapshot)
    requires Collation(collate) && ProperSnapshot(s)
    ensures (forall t :: Permuted(s, t) ==> SnapshotText(collate, t) == SnapshotText(collate, s)) <==> AllTiesAgree(collate, s)
  {
    hide Collation, ProperSnapshot, SnapshotText, SortedList, Equivalent;
    if AllTiesAgree(collate, s) {
      forall t | Permuted(s, t)
        ensures SnapshotText(collate, t) == SnapshotText(collate, s)
      {
        PermutedLists(collate, s, t);
      }
    } else {
      var t, u := TextsDiffer(collate, s);
    }
  }

  lemma TextsDiffer(collate: (string, string) -> int, s: Snapshot) returns (t: Snapshot, u: Snapshot)
    requires Collation(collate) && ProperSnapshot(s) && !AllTiesAgree(collate, s)
    ensures Permuted(s, t) && Permuted(s, u) && SnapshotText(collate, t) != SnapshotText(collate, u)
  {
    hide Collation, SnapshotText, SortedList, Equivalent, TiesAgree, ProperList;
    if !TiesAgree(collate, s.tokens) {
      var a, b := ListsDiffer(collate, s.tokens);
      t, u := s.(tokens := a), s.(tokens := b);
    } else if !TiesAgree(collate, s.rpcMethods) {
      var a, b := ListsDiffer(collate, s.rpcMethods);
      t, u := s.(rpcMethods := a), s.(rpcMethods := b);
    } else if !TiesAgree(collate, s.protocols) {
      var a, b := ListsDiffer(collate, s.protocols);
      t, u := s.(protocols := a), s.(protocols := b);
    } else {
      var a, b := ListsDiffer(collate, s.feeds);
      t, u := s.(feeds := a), s.(feeds := b);
    }
    hide ProperSnapshot;
    ProperPermuted(s, t);
    ProperPermuted(s, u);
    if SnapshotText(collate, t) == SnapshotText(collate, u) {
      TextDeterminesSnapshot(collate, t, u);
    }
  }
}
