/** Merging the drafts of the migration rules into one action per key (packages/migration/src/dedupe.ts). */
module DraftMerging {
  import opened Dependencies
  import opened Sequences
  import opened Text

  // ----- data -----

  datatype AutomationLevel = BLOCKED | UNKNOWN | MANUAL | REVIEW_REQUIRED | SAFE_AUTOMATIC

  datatype Stage =
    | NETWORK_CONFIGURATION | RPC_AND_EXPLORER | TOKEN_MAPPINGS | INFRASTRUCTURE_CONTRACTS | ORACLES
    | CROSS_CHAIN | CONTRACT_CONFIGURATION | FRONTEND_CONFIGURATION | DEPLOYMENT_CONFIGURATION | MANUAL_REVIEW

  datatype Evidence = Evidence(findingId: string, evidenceId: string, filePath: string, startLine: nat, excerpt: string)

  /** `details` stands for the remaining fields, which the planner only copies. */
  datatype Draft = Draft(key: Key, title: string, stage: Stage, automationLevel: AutomationLevel,
                         findingIds: seq<string>, evidence: seq<Evidence>, dependsOnKeys: seq<Key>, details: string)

  function Keys(drafts: seq<Draft>): seq<Key> {
    seq(|drafts|, i requires 0 <= i < |drafts| => drafts[i].key)
  }

  // ----- merging drafts with the same key -----

  function Identity<T>(x: T): T { x }

  function EvidenceKey(e: Evidence): string {
    e.findingId + ":" + e.filePath + ":" + Decimal(e.startLine) + ":" + e.excerpt
  }

  /** The drafts with key `k`, in order. */
  function Group(drafts: seq<Draft>, k: Key): seq<Draft> {
    if drafts == [] then []
    else Group(drafts[..|drafts| - 1], k) + if drafts[|drafts| - 1].key == k then [drafts[|drafts| - 1]] else []
  }

  function AllFindingIds(group: seq<Draft>): seq<string> {
    if group == [] then [] else AllFindingIds(group[..|group| - 1]) + group[|group| - 1].findingIds
  }

  function AllEvidence(group: seq<Draft>): seq<Evidence> {
    if group == [] then [] else AllEvidence(group[..|group| - 1]) + group[|group| - 1].evidence
  }

  function AllDependencies(group: seq<Draft>): seq<Key> {
    if group == [] then [] else AllDependencies(group[..|group| - 1]) + group[|group| - 1].dependsOnKeys
  }

  /** A lone draft is kept as it is; several become the first one with the lists of all, without repetitions. */
  function Merged(group: seq<Draft>): Draft
    requires group != []
  {
    if |group| == 1 then group[0]
    else group[0].(findingIds := UniqueBy(Identity, AllFindingIds(group)),
                   evidence := UniqueBy(EvidenceKey, AllEvidence(group)),
                   dependsOnKeys := UniqueBy(Identity, AllDependencies(group)))
  }

  lemma MergedStep(group: seq<Draft>, d: Draft)
    requires group != []
    ensures var m := Merged(group);
            Merged(group + [d]) ==
            m.(findingIds := UniqueBy(Identity, m.findingIds + d.findingIds),
               evidence := UniqueBy(EvidenceKey, m.evidence + d.evidence),
               dependsOnKeys := UniqueBy(Identity, m.dependsOnKeys + d.dependsOnKeys))
  {
    assert (group + [d])[..|group + [d]| - 1] == group;
    if |group| == 1 {
      assert group[..0] == [];
      assert AllFindingIds(group) == group[0].findingIds;
      assert AllEvidence(group) == group[0].evidence;
      assert AllDependencies(group) == group[0].dependsOnKeys;
    } else {
      UniqueByAppend(Identity, AllFindingIds(group), d.findingIds);
      UniqueByAppend(EvidenceKey, AllEvidence(group), d.evidence);
      UniqueByAppend(Identity, AllDependencies(group), d.dependsOnKeys);
    }
  }

  method UniqueEvidence(evidence: seq<Evidence>) returns (result: seq<Evidence>)
    ensures result == UniqueBy(EvidenceKey, evidence)
  {
    var seen: set<string> := {};
    result := [];
    for i := 0 to |evidence|
      invariant result == UniqueBy(EvidenceKey, evidence[..i])
      invariant forall k :: k in seen <==> Occurs(EvidenceKey, evidence[..i], k)
    {
      var key := EvidenceKey(evidence[i]);
      assert evidence[..i + 1] == evidence[..i] + [evidence[i]];
      forall k
        ensures Occurs(EvidenceKey, evidence[..i + 1], k) <==> k in seen || k == key
      {
        OccursAppend(EvidenceKey, evidence[..i], [evidence[i]], k);
        assert EvidenceKey([evidence[i]][0]) == key;
      }
      if key !in seen {
        seen, result := seen + {key}, result + [evidence[i]];
      }
    }
    assert evidence[..|evidence|] == evidence;
  }

  lemma {:induction false} GroupEmpty(drafts: seq<Draft>, k: Key)
    ensures Group(drafts, k) == [] <==> k !in Keys(drafts)
    ensures forall d :: d in Group(drafts, k) <==> d in drafts && d.key == k
  {
    if drafts != [] {
      GroupEmpty(drafts[..|drafts| - 1], k);
      assert drafts == drafts[..|drafts| - 1] + [drafts[|drafts| - 1]];
      assert Keys(drafts) == Keys(drafts[..|drafts| - 1]) + [drafts[|drafts| - 1].key];
    }
  }

  /** Every entry of the map is the merge of the drafts with its key. */
  ghost predicate Grouped(drafts: seq<Draft>, byKey: map<Key, Draft>) {
    forall k :: k in byKey ==>
      Group(drafts, k) != [] && byKey[k].key == k && byKey[k] == Merged(Group(drafts, k))
  }

  /** The entries of the map, and its keys in insertion order, once `drafts` have been merged. */
  ghost predicate MergedSoFar(drafts: seq<Draft>, byKey: map<Key, Draft>, order: seq<Key>) {
    && byKey.Keys == Elements(order)
    && order == UniqueBy(Identity, Keys(drafts))
    && Grouped(drafts, byKey)
  }

  lemma AppendDraft(drafts: seq<Draft>, d: Draft)
    ensures Keys(drafts + [d]) == Keys(drafts) + [d.key]
    ensures UniqueBy(Identity, Keys(drafts + [d])) ==
            if d.key in Keys(drafts) then UniqueBy(Identity, Keys(drafts)) else UniqueBy(Identity, Keys(drafts)) + [d.key]
    ensures forall k :: Group(drafts + [d], k) == if d.key == k then Group(drafts, k) + [d] else Group(drafts, k)
  {
    assert (drafts + [d])[..|drafts|] == drafts && Keys(drafts + [d]) == Keys(drafts) + [d.key];
    assert Keys(drafts + [d])[..|drafts|] == Keys(drafts);
    UniqueKeys(drafts, d.key);
  }

  lemma GroupedStep(drafts: seq<Draft>, d: Draft, byKey: map<Key, Draft>, m: Draft)
    requires Grouped(drafts, byKey) && m.key == d.key && m == Merged(Group(drafts, d.key) + [d])
    ensures Grouped(drafts + [d], byKey[d.key := m])
  {
    AppendDraft(drafts, d);
    hide Merged, Group, UniqueBy, Keys;
  }

  lemma MergeNew(drafts: seq<Draft>, d: Draft, byKey: map<Key, Draft>, order: seq<Key>)
    requires MergedSoFar(drafts, byKey, order) && d.key !in byKey
    ensures MergedSoFar(drafts + [d], byKey[d.key := d], order + [d.key])
  {
    hide Merged, Group, UniqueBy, Keys, Grouped;
    UniqueKeys(drafts, d.key);
    GroupEmpty(drafts, d.key);
    assert d.key !in order;
    MergedAlone(d);
    GroupedStep(drafts, d, byKey, d);
    AppendDraft(drafts, d);
  }

  lemma MergedAlone(d: Draft)
    ensures Merged([] + [d]) == d
  {
  }

  lemma MergeExisting(drafts: seq<Draft>, d: Draft, byKey: map<Key, Draft>, order: seq<Key>, m: Draft)
    requires MergedSoFar(drafts, byKey, order) && d.key in byKey
    requires m == Merged(Group(drafts, d.key) + [d]) && m.key == d.key
    ensures MergedSoFar(drafts + [d], byKey[d.key := m], order)
  {
    UniqueKeys(drafts, d.key);
    assert d.key in order;
    GroupedStep(drafts, d, byKey, m);
    AppendDraft(drafts, d);
    hide Merged, Group, UniqueBy, Keys, Grouped;
  }

  /** One draft per key, in the order in which the keys first appear. */
  ghost predicate MergeOf(drafts: seq<Draft>, merged: seq<Draft>) {
    && Keys(merged) == UniqueBy(Identity, Keys(drafts))
    && Distinct(Keys(merged))
    && forall m :: m in merged ==> Group(drafts, m.key) != [] && m == Merged(Group(drafts, m.key))
  }

  method MergeDrafts(drafts: seq<Draft>) returns (merged: seq<Draft>)
    ensures MergeOf(drafts, merged)
  {
    var byKey: map<Key, Draft>, order: seq<Key> := map[], [];
    for i := 0 to |drafts|
      invariant MergedSoFar(drafts[..i], byKey, order)
    {
      hide MergedSoFar, Merged, UniqueBy, Group;
      var d := drafts[i];
      assert drafts[..i + 1] == drafts[..i] + [d];
      if d.key !in byKey {
        MergeNew(drafts[..i], d, byKey, order);
        byKey, order := byKey[d.key := d], order + [d.key];
      } else {
        var existing := byKey[d.key];
        var evidence := UniqueEvidence(existing.evidence + d.evidence);
        var m := existing.(findingIds := UniqueBy(Identity, existing.findingIds + d.findingIds),
                           evidence := evidence,
                           dependsOnKeys := UniqueBy(Identity, existing.dependsOnKeys + d.dependsOnKeys));
        ExistingGroup(drafts[..i], d, byKey, order);
        MergeExisting(drafts[..i], d, byKey, order, m);
        byKey := byKey[d.key := m];
      }
    }
    assert drafts[..|drafts|] == drafts;
    merged := seq(|order|, i requires 0 <= i < |order| && order[i] in byKey => byKey[order[i]]);
    assert Keys(merged) == order;
    UniqueByDistinct(Identity<Key>, Keys(drafts));
  }

  lemma ExistingGroup(drafts: seq<Draft>, d: Draft, byKey: map<Key, Draft>, order: seq<Key>)
    requires MergedSoFar(drafts, byKey, order) && d.key in byKey
    ensures var m := byKey[d.key];
            Merged(Group(drafts, d.key) + [d]) ==
            m.(findingIds := UniqueBy(Identity, m.findingIds + d.findingIds),
               evidence := UniqueBy(EvidenceKey, m.evidence + d.evidence),
               dependsOnKeys := UniqueBy(Identity, m.dependsOnKeys + d.dependsOnKeys))
  {
    MergedStep(Group(drafts, d.key), d);
  }

  lemma UniqueKeys(drafts: seq<Draft>, k: Key)
    ensures k in UniqueBy(Identity, Keys(drafts)) <==> k in Keys(drafts)
    ensures k in Keys(drafts) <==> Occurs(Identity<Key>, Keys(drafts), k)
  {
    var keys, u := Keys(drafts), UniqueBy(Identity, Keys(drafts));
    OccursUnique(Identity<Key>, keys, k);
    if i :| 0 <= i < |u| && u[i] == k { assert Identity(u[i]) == k; }
    if i :| 0 <= i < |keys| && keys[i] == k { assert Identity(keys[i]) == k; }
  }

  // ----- nothing is lost by merging -----

  lemma {:induction false} GroupParts(group: seq<Draft>)
    ensures forall x :: x in AllFindingIds(group) <==> exists d :: d in group && x in d.findingIds
    ensures forall x :: x in AllEvidence(group) <==> exists d :: d in group && x in d.evidence
    ensures forall x :: x in AllDependencies(group) <==> exists d :: d in group && x in d.dependsOnKeys
  {
    if group != [] {
      var g, d := group[..|group| - 1], group[|group| - 1];
      GroupParts(g);
      assert group == g + [d];
    }
  }

  lemma MergedParts(group: seq<Draft>)
    requires group != []
    ensures forall x :: x in Merged(group).findingIds <==> x in AllFindingIds(group)
    ensures forall x :: x in Merged(group).dependsOnKeys <==> x in AllDependencies(group)
    ensures forall e :: e in Merged(group).evidence ==> e in AllEvidence(group)
    ensures forall k :: Occurs(EvidenceKey, Merged(group).evidence, k) <==> Occurs(EvidenceKey, AllEvidence(group), k)
  {
    if |group| == 1 {
      assert group[..0] == [] && [] + group[0].findingIds == group[0].findingIds;
      assert [] + group[0].evidence == group[0].evidence && [] + group[0].dependsOnKeys == group[0].dependsOnKeys;
    } else {
      UniqueMembers(AllFindingIds(group));
      UniqueMembers(AllDependencies(group));
      UniqueByFrom(EvidenceKey, AllEvidence(group));
      forall k
        ensures Occurs(EvidenceKey, Merged(group).evidence, k) <==> Occurs(EvidenceKey, AllEvidence(group), k)
      {
        OccursUnique(EvidenceKey, AllEvidence(group), k);
      }
    }
  }

  lemma UniqueMembers<T>(s: seq<T>)
    ensures forall x :: x in UniqueBy(Identity, s) <==> x in s
  {
    UniqueByLossless(Identity<T>, s);
    UniqueByFrom(Identity<T>, s);
  }

  lemma {:induction false} GroupFirst(drafts: seq<Draft>, k: Key) returns (i: nat)
    requires Group(drafts, k) != []
    ensures i < |drafts| && drafts[i] == Group(drafts, k)[0] && drafts[i].key == k
    ensures forall j :: 0 <= j < i ==> drafts[j].key != k
  {
    var before := drafts[..|drafts| - 1];
    GroupEmpty(before, k);
    if Group(before, k) != [] {
      i := GroupFirst(before, k);
    } else {
      i := |before|;
      forall j | 0 <= j < i
        ensures drafts[j].key != k
      {
        assert Keys(before)[j] == drafts[j].key;
      }
    }
  }

  /** An action is the first draft with its key, but for the lists that are merged. */
  lemma MergeKeepsFirst(drafts: seq<Draft>, merged: seq<Draft>, m: Draft) returns (i: nat)
    requires MergeOf(drafts, merged) && m in merged
    ensures i < |drafts| && drafts[i].key == m.key && forall j :: 0 <= j < i ==> drafts[j].key != m.key
    ensures m == drafts[i].(findingIds := m.findingIds, evidence := m.evidence, dependsOnKeys := m.dependsOnKeys)
  {
    i := GroupFirst(drafts, m.key);
    hide Group, UniqueBy;
  }

  /** Every finding, every dependency and every dedupe key of an evidence item survives in the action of its draft,
      and nothing else appears there. */
  lemma MergeConserves(drafts: seq<Draft>, merged: seq<Draft>, m: Draft)
    requires MergeOf(drafts, merged) && m in merged
    ensures forall x :: x in m.findingIds <==> exists d :: d in drafts && d.key == m.key && x in d.findingIds
    ensures forall x :: x in m.dependsOnKeys <==> exists d :: d in drafts && d.key == m.key && x in d.dependsOnKeys
    ensures forall e :: e in m.evidence ==> exists d :: d in drafts && d.key == m.key && e in d.evidence
    ensures forall d, e :: d in drafts && d.key == m.key && e in d.evidence ==>
              Occurs(EvidenceKey, m.evidence, EvidenceKey(e))
  {
    var group := Group(drafts, m.key);
    GroupEmpty(drafts, m.key);
    GroupParts(group);
    MergedParts(group);
    hide Group, Merged, AllEvidence, AllFindingIds, AllDependencies, EvidenceKey;
    forall d, e | d in drafts && d.key == m.key && e in d.evidence
      ensures Occurs(EvidenceKey, m.evidence, EvidenceKey(e))
    {
      assert d in group && e in AllEvidence(group);
      var i :| 0 <= i < |AllEvidence(group)| && AllEvidence(group)[i] == e;
      assert Occurs(EvidenceKey, AllEvidence(group), EvidenceKey(e));
    }
  }

  /** Merging several drafts keeps every evidence item exactly when no two different items share a dedupe key. */
  lemma MergedEvidenceLossless(group: seq<Draft>)
    requires |group| > 1
    ensures (forall e :: e in AllEvidence(group) ==> e in Merged(group).evidence) <==>
            (forall e, f :: e in AllEvidence(group) && f in AllEvidence(group) && EvidenceKey(e) == EvidenceKey(f) ==> e == f)
  {
    UniqueByLossless(EvidenceKey, AllEvidence(group));
  }

  /** The dedupe key ignores the evidence id and does not escape its separator, so different items can collide. */
  lemma EvidenceKeyCollides()
    ensures var a, b := Evidence("f", "", "a:1", 2, "x"), Evidence("f", "", "a", 1, "2:x");
            a != b && EvidenceKey(a) == EvidenceKey(b)
    ensures var a, b := Evidence("f", "1", "a", 1, "x"), Evidence("f", "2", "a", 1, "x");
            a != b && EvidenceKey(a) == EvidenceKey(b)
  {
    assert Decimal(1) == "1" && Decimal(2) == "2";
    assert EvidenceKey(Evidence("f", "", "a:1", 2, "x")) == "f:a:1:2:x";
    assert EvidenceKey(Evidence("f", "", "a", 1, "2:x")) == "f:a:1:2:x";
  }

  /** Without ':' in ids and paths the dedupe key determines everything but the evidence id. */
  lemma EvidenceKeyInjective(a: Evidence, b: Evidence)
    requires ':' !in a.findingId && ':' !in a.filePath && ':' !in b.findingId && ':' !in b.filePath
    requires EvidenceKey(a) == EvidenceKey(b)
    ensures a == b.(evidenceId := a.evidenceId)
  {
    var a1, b1 := Decimal(a.startLine) + [':'] + a.excerpt, Decimal(b.startLine) + [':'] + b.excerpt;
    assert EvidenceKey(a) == a.findingId + [':'] + (a.filePath + [':'] + a1);
    assert EvidenceKey(b) == b.findingId + [':'] + (b.filePath + [':'] + b1);
    FirstField(a.findingId, a.filePath + [':'] + a1, b.findingId, b.filePath + [':'] + b1, ':');
    FirstField(a.filePath, a1, b.filePath, b1, ':');
    FirstField(Decimal(a.startLine), a.excerpt, Decimal(b.startLine), b.excerpt, ':');
    ValueDecimal(a.startLine);
    ValueDecimal(b.startLine);
  }
}
