/** From findings to an ordered plan: rules, dependencies, the two numberings and the counts
    (packages/migration/src/engine.ts, ordering.ts and status.ts). Rules and the string collation are parameters. */
module MigrationPlan {
  import opened Dependencies
  import opened DraftMerging
  import opened Rounding
  import opened Sequences
  import opened Text

  datatype Finding = Finding(id: string, passed: bool, details: string)

  datatype Rule = Rule(supports: Finding -> bool, createActions: Finding -> seq<Draft>)

  datatype Action = Action(draft: Draft, displayOrder: nat, dependencyOrder: nat)

  datatype Outcome = PLAN_BLOCKED | NEEDS_VERIFICATION | PLAN_REVIEW_REQUIRED | READY_TO_APPLY

  datatype Counts = Counts(total: nat, safeAutomatic: nat, reviewRequired: nat, manual: nat, blocked: nat, unknown: nat)

  datatype Plan = Plan(actions: seq<Action>, dependencies: seq<Edge>, counts: Counts, outcome: Outcome,
                       migrationReady: bool, verificationRequired: bool, autoFixablePercent: int)

  datatype PlanResult = Planned(plan: Plan) | CyclicPlan

  // ----- dependencies between merged drafts -----

  /** `e.actionKey` names an action that asks for `e.dependsOnKey`, which is a different known action. */
  ghost predicate Wanted(drafts: seq<Draft>, e: Edge) {
    && e.dependsOnKey in Keys(drafts)
    && e.dependsOnKey != e.actionKey
    && exists d :: d in drafts && d.key == e.actionKey && e.dependsOnKey in d.dependsOnKeys
  }

  ghost predicate WantedEdges(drafts: seq<Draft>, edges: seq<Edge>) {
    forall e :: e in edges <==> Wanted(drafts, e)
  }

  /** The edges of one draft, in the order in which it asks for them and as often. */
  function EdgesOf(key: Key, dependsOnKeys: seq<Key>, keys: seq<Key>): seq<Edge> {
    if dependsOnKeys == [] then []
    else
      var k := dependsOnKeys[|dependsOnKeys| - 1];
      EdgesOf(key, dependsOnKeys[..|dependsOnKeys| - 1], keys) + if k in keys && k != key then [Edge(key, k)] else []
  }

  function ResolvedEdges(drafts: seq<Draft>, keys: seq<Key>): seq<Edge> {
    if drafts == [] then []
    else
      var d := drafts[|drafts| - 1];
      ResolvedEdges(drafts[..|drafts| - 1], keys) + EdgesOf(d.key, d.dependsOnKeys, keys)
  }

  lemma {:induction false} EdgesOfOne(key: Key, dependsOnKeys: seq<Key>, keys: seq<Key>, e: Edge)
    ensures e in EdgesOf(key, dependsOnKeys, keys) <==>
            e.actionKey == key && e.dependsOnKey in dependsOnKeys && e.dependsOnKey in keys && e.dependsOnKey != key
  {
    if dependsOnKeys != [] {
      var before := dependsOnKeys[..|dependsOnKeys| - 1];
      EdgesOfOne(key, before, keys, e);
      assert dependsOnKeys == before + [dependsOnKeys[|before|]];
    }
  }

  lemma {:induction false} ResolvedEdgesOne(drafts: seq<Draft>, keys: seq<Key>, e: Edge)
    ensures e in ResolvedEdges(drafts, keys) <==>
            && e.dependsOnKey in keys && e.dependsOnKey != e.actionKey
            && exists d :: d in drafts && d.key == e.actionKey && e.dependsOnKey in d.dependsOnKeys
  {
    if drafts != [] {
      var before, d := drafts[..|drafts| - 1], drafts[|drafts| - 1];
      ResolvedEdgesOne(before, keys, e);
      EdgesOfOne(d.key, d.dependsOnKeys, keys, e);
      assert drafts == before + [d];
    }
  }

  /** The resolved edges are exactly the wanted ones. */
  lemma ResolvedAreWanted(drafts: seq<Draft>)
    ensures WantedEdges(drafts, ResolvedEdges(drafts, Keys(drafts)))
  {
    forall e
      ensures e in ResolvedEdges(drafts, Keys(drafts)) <==> Wanted(drafts, e)
    {
      ResolvedEdgesOne(drafts, Keys(drafts), e);
    }
  }

  method ResolvedDependencies(drafts: seq<Draft>) returns (edges: seq<Edge>)
    ensures edges == ResolvedEdges(drafts, Keys(drafts)) && WantedEdges(drafts, edges)
  {
    var keys := Keys(drafts);
    edges := [];
    for i := 0 to |drafts|
      invariant edges == ResolvedEdges(drafts[..i], keys)
    {
      var d := drafts[i];
      assert drafts[..i + 1][..i] == drafts[..i];
      ghost var before := edges;
      for j := 0 to |d.dependsOnKeys|
        invariant edges == before + EdgesOf(d.key, d.dependsOnKeys[..j], keys)
      {
        var dependsOnKey := d.dependsOnKeys[j];
        assert d.dependsOnKeys[..j + 1][..j] == d.dependsOnKeys[..j];
        if dependsOnKey in keys && dependsOnKey != d.key {
          edges := edges + [Edge(d.key, dependsOnKey)];
        }
      }
      assert d.dependsOnKeys[..|d.dependsOnKeys|] == d.dependsOnKeys;
    }
    assert drafts[..|drafts|] == drafts;
    ResolvedAreWanted(drafts);
  }

  // ----- display order -----

  function AutomationRank(level: AutomationLevel): int {
    match level
    case BLOCKED => 0
    case UNKNOWN => 1
    case MANUAL => 2
    case REVIEW_REQUIRED => 3
    case SAFE_AUTOMATIC => 4
  }

  function StageIndex(stage: Stage): int {
    match stage
    case NETWORK_CONFIGURATION => 0
    case RPC_AND_EXPLORER => 1
    case TOKEN_MAPPINGS => 2
    case INFRASTRUCTURE_CONTRACTS => 3
    case ORACLES => 4
    case CROSS_CHAIN => 5
    case CONTRACT_CONFIGURATION => 6
    case FRONTEND_CONFIGURATION => 7
    case DEPLOYMENT_CONFIGURATION => 8
    case MANUAL_REVIEW => 9
  }

  function Compare(collate: (string, string) -> int, l: Draft, r: Draft): int {
    var auto := AutomationRank(l.automationLevel) - AutomationRank(r.automationLevel);
    var stage := StageIndex(l.stage) - StageIndex(r.stage);
    if auto != 0 then auto
    else if stage != 0 then stage
    else if collate(l.title, r.title) != 0 then collate(l.title, r.title)
    else collate(l.key, r.key)
  }

  function DisplayOrder(collate: (string, string) -> int): (Draft, Draft) -> bool {
    (l, r) => Compare(collate, l, r) <= 0
  }

  const LEVELS := [BLOCKED, UNKNOWN, MANUAL, REVIEW_REQUIRED, SAFE_AUTOMATIC]

  const STAGES := [NETWORK_CONFIGURATION, RPC_AND_EXPLORER, TOKEN_MAPPINGS, INFRASTRUCTURE_CONTRACTS, ORACLES, CROSS_CHAIN,
                   CONTRACT_CONFIGURATION, FRONTEND_CONFIGURATION, DEPLOYMENT_CONFIGURATION, MANUAL_REVIEW]

  /** `x` is listed before `y`. */
  ghost predicate Earlier<T>(list: seq<T>, x: T, y: T) {
    exists i, j :: 0 <= i < j < |list| && list[i] == x && list[j] == y
  }

  /** What is shown first: what blocks before what is safe, then by stage, then by title, then by key. */
  ghost predicate ShownFirst(collate: (string, string) -> int, l: Draft, r: Draft) {
    || Earlier(LEVELS, l.automationLevel, r.automationLevel)
    || (l.automationLevel == r.automationLevel && Earlier(STAGES, l.stage, r.stage))
    || (l.automationLevel == r.automationLevel && l.stage == r.stage && collate(l.title, r.title) < 0)
    || (l.automationLevel == r.automationLevel && l.stage == r.stage && collate(l.title, r.title) == 0
        && collate(l.key, r.key) <= 0)
  }

  lemma LevelsOrdered(x: AutomationLevel, y: AutomationLevel)
    ensures Earlier(LEVELS, x, y) <==> AutomationRank(x) < AutomationRank(y)
  {
    if AutomationRank(x) < AutomationRank(y) {
      assert LEVELS[AutomationRank(x)] == x && LEVELS[AutomationRank(y)] == y;
    }
  }

  lemma StagesOrdered(x: Stage, y: Stage)
    ensures Earlier(STAGES, x, y) <==> StageIndex(x) < StageIndex(y)
  {
    assert forall i :: 0 <= i < |STAGES| ==> StageIndex(STAGES[i]) == i;
    if StageIndex(x) < StageIndex(y) {
      assert STAGES[StageIndex(x)] == x && STAGES[StageIndex(y)] == y;
    }
  }

  lemma OrderShown(collate: (string, string) -> int, l: Draft, r: Draft)
    ensures DisplayOrder(collate)(l, r) <==> ShownFirst(collate, l, r)
  {
    LevelsOrdered(l.automationLevel, r.automationLevel);
    LevelsOrdered(r.automationLevel, l.automationLevel);
    StagesOrdered(l.stage, r.stage);
    StagesOrdered(r.stage, l.stage);
    SameRank(l, r);
    hide Earlier, AutomationRank, StageIndex;
  }

  lemma SameRank(l: Draft, r: Draft)
    ensures AutomationRank(l.automationLevel) == AutomationRank(r.automationLevel) <==> l.automationLevel == r.automationLevel
    ensures StageIndex(l.stage) == StageIndex(r.stage) <==> l.stage == r.stage
  {
  }

  lemma DisplayOrderIsPreorder(collate: (string, string) -> int)
    requires Collation(collate)
    ensures TotalPreorder(DisplayOrder(collate))
  {
    var le := DisplayOrder(collate);
    forall x, y, z | le(x, y) && le(y, z)
      ensures le(x, z)
    {
      assert collate(x.title, z.title) <= 0 || collate(x.title, y.title) > 0 || collate(y.title, z.title) > 0;
      assert collate(z.title, x.title) <= 0 || collate(z.title, y.title) > 0 || collate(y.title, x.title) > 0;
      assert collate(x.key, z.key) <= 0 || collate(x.key, y.key) > 0 || collate(y.key, z.key) > 0;
    }
  }

  // ----- the two numberings -----

  /** `new Map(order.map((key, index) => [key, index]))`. */
  function Positions(order: seq<Key>): map<Key, nat> {
    if order == [] then map[] else Positions(order[..|order| - 1])[order[|order| - 1] := |order| - 1]
  }

  lemma {:induction false} PositionsOf(order: seq<Key>, i: nat)
    requires Distinct(order) && i < |order|
    ensures order[i] in Positions(order) && Positions(order)[order[i]] == i
  {
    if i < |order| - 1 {
      PositionsOf(order[..|order| - 1], i);
    }
  }

  function Drafts(actions: seq<Action>): seq<Draft> {
    seq(|actions|, i requires 0 <= i < |actions| => actions[i].draft)
  }

  function Number(sorted: seq<Draft>, position: map<Key, nat>): seq<Action> {
    seq(|sorted|, i requires 0 <= i < |sorted| =>
      Action(sorted[i], i, if sorted[i].key in position then position[sorted[i].key] else i))
  }

  /** Drafts that the display order does not separate from `d`. */
  predicate Tied(collate: (string, string) -> int, x: Draft, d: Draft) {
    x.automationLevel == d.automationLevel && x.stage == d.stage && collate(x.title, d.title) == 0 && collate(x.key, d.key) == 0
  }

  function Ties(collate: (string, string) -> int, d: Draft): Draft -> bool {
    x => Tied(collate, x, d)
  }

  /** The drafts in display order, those that tie in the order in which they came. */
  ghost predicate Displayed(collate: (string, string) -> int, drafts: seq<Draft>, shown: seq<Draft>) {
    && multiset(shown) == multiset(drafts) && |shown| == |drafts|
    && (forall i, j :: 0 <= i < j < |shown| ==> ShownFirst(collate, shown[i], shown[j]))
    && forall d :: Filter(Ties(collate, d), shown) == Filter(Ties(collate, d), drafts)
  }

  /** An action's `dependencyOrder` is the place of its key in `order`, a dependency order by depth of the chains; where
      nothing depends on anything, that is the order of the drafts. */
  ghost predicate PlacedIn(drafts: seq<Draft>, deps: seq<Edge>, actions: seq<Action>, order: seq<Key>) {
    && TopologicalSort(Keys(drafts), deps, order) && ByDepth(Keys(drafts), deps, order)
    && (NoInternalEdges(Keys(drafts), deps) ==> order == Keys(drafts))
    && forall i :: 0 <= i < |actions| ==>
         actions[i].dependencyOrder < |order| && order[actions[i].dependencyOrder] == actions[i].draft.key
  }

  /** The actions are the drafts in display order; `dependencyOrder` numbers them 0, 1, … so that every dependency has
      a smaller number than the action that needs it. */
  ghost predicate Numbered(collate: (string, string) -> int, drafts: seq<Draft>, deps: seq<Edge>, actions: seq<Action>) {
    && Displayed(collate, drafts, Drafts(actions))
    && (forall i :: 0 <= i < |actions| ==> actions[i].displayOrder == i)
    && (forall i :: 0 <= i < |actions| ==> actions[i].dependencyOrder < |actions|)
    && (forall i, j :: 0 <= i < j < |actions| ==> actions[i].dependencyOrder != actions[j].dependencyOrder)
    && (forall i, j :: (0 <= i < |actions| && 0 <= j < |actions| &&
          DependsOn(Keys(drafts), deps, actions[i].draft.key, actions[j].draft.key)) ==>
          actions[j].dependencyOrder < actions[i].dependencyOrder)
    && exists order :: PlacedIn(drafts, deps, actions, order)
  }

  lemma {:induction false} InsertKeys(le: (Draft, Draft) -> bool, x: Draft, s: seq<Draft>)
    ensures multiset(Keys(Insert(le, x, s))) == multiset(Keys(s)) + multiset{x.key}
  {
    hide Keys;
    if s == [] || le(x, s[0]) {
      KeysStep(x, s);
    } else {
      InsertKeys(le, x, s[1..]);
      KeysStep(s[0], s[1..]);
      KeysStep(s[0], Insert(le, x, s[1..]));
      assert s == [s[0]] + s[1..];
    }
  }

  lemma KeysStep(x: Draft, s: seq<Draft>)
    ensures Keys([x] + s) == [x.key] + Keys(s)
  {
  }

  lemma {:induction false} SortKeys(le: (Draft, Draft) -> bool, s: seq<Draft>)
    ensures multiset(Keys(Sort(le, s))) == multiset(Keys(s))
  {
    if s != [] {
      SortKeys(le, s[1..]);
      InsertKeys(le, s[0], Sort(le, s[1..]));
      assert Keys(s) == [s[0].key] + Keys(s[1..]);
    }
  }

  /** Every action is numbered with the position of its key in the dependency order. */
  lemma NumberedAt(sorted: seq<Draft>, order: seq<Key>, i: nat)
    requires i < |sorted| && Distinct(order) && multiset(Keys(sorted)) == multiset(order)
    ensures var n := Number(sorted, Positions(order))[i].dependencyOrder;
            n < |sorted| && |order| == |sorted| && order[n] == sorted[i].key
  {
    assert |multiset(order)| == |multiset(Keys(sorted))|;
    assert Keys(sorted)[i] in multiset(order);
    var h :| 0 <= h < |order| && order[h] == sorted[i].key;
    PositionsOf(order, h);
  }

  lemma TiedTogether(collate: (string, string) -> int, x: Draft, y: Draft, d: Draft)
    requires Collation(collate) && Tied(collate, x, d) && Tied(collate, y, d)
    ensures DisplayOrder(collate)(x, y)
  {
    assert collate(d.title, y.title) == 0 && collate(d.key, y.key) == 0;
    assert collate(x.title, y.title) <= 0 && collate(x.key, y.key) <= 0;
  }

  lemma SortDisplays(collate: (string, string) -> int, drafts: seq<Draft>)
    requires Collation(collate)
    ensures Displayed(collate, drafts, Sort(DisplayOrder(collate), drafts))
  {
    var le := DisplayOrder(collate);
    var shown := Sort(le, drafts);
    DisplayOrderIsPreorder(collate);
    SortSorted(le, drafts);
    hide Compare, Sort, Filter, ShownFirst, Tied, DisplayOrder;
    forall i, j | 0 <= i < j < |shown|
      ensures ShownFirst(collate, shown[i], shown[j])
    {
      OrderShown(collate, shown[i], shown[j]);
    }
    forall d
      ensures Filter(Ties(collate, d), shown) == Filter(Ties(collate, d), drafts)
    {
      var p := Ties(collate, d);
      forall x, y | p(x) && p(y)
        ensures le(x, y)
      {
        TiedTogether(collate, x, y, d);
      }
      SortStable(le, drafts, p);
    }
  }

  lemma NumberedActions(collate: (string, string) -> int, drafts: seq<Draft>, deps: seq<Edge>, order: seq<Key>)
    requires Collation(collate) && Distinct(Keys(drafts))
    requires TopologicalSort(Keys(drafts), deps, order) && ByDepth(Keys(drafts), deps, order)
    requires NoInternalEdges(Keys(drafts), deps) ==> order == Keys(drafts)
    ensures Numbered(collate, drafts, deps, Number(Sort(DisplayOrder(collate), drafts), Positions(order)))
  {
    hide Numbered, Displayed, TopologicalSort, ByDepth, Distinct, Number, Sort, NoInternalEdges;
    SortDisplays(collate, drafts);
    SortKeys(DisplayOrder(collate), drafts);
    NumberedSorted(collate, drafts, deps, order, Sort(DisplayOrder(collate), drafts));
  }

  lemma NumberedSorted(collate: (string, string) -> int, drafts: seq<Draft>, deps: seq<Edge>, order: seq<Key>,
                       sorted: seq<Draft>)
    requires Distinct(Keys(drafts))
    requires TopologicalSort(Keys(drafts), deps, order) && ByDepth(Keys(drafts), deps, order)
    requires NoInternalEdges(Keys(drafts), deps) ==> order == Keys(drafts)
    requires Displayed(collate, drafts, sorted) && multiset(Keys(sorted)) == multiset(Keys(drafts))
    ensures Numbered(collate, drafts, deps, Number(sorted, Positions(order)))
  {
    var actions := Number(sorted, Positions(order));
    assert Drafts(actions) == sorted;
    DistinctPermutation(Keys(drafts), Keys(sorted));
    DistinctPermutation(Keys(drafts), order);
    hide Positions, Displayed, Distinct, ByDepth, NoInternalEdges;
    forall i | 0 <= i < |actions|
      ensures actions[i].dependencyOrder < |order| == |actions|
      ensures order[actions[i].dependencyOrder] == Keys(sorted)[i]
    {
      NumberedAt(sorted, order, i);
    }
    ByPosition(drafts, deps, order, actions);
    assert PlacedIn(drafts, deps, actions, order);
  }

  lemma ByPosition(drafts: seq<Draft>, deps: seq<Edge>, order: seq<Key>, actions: seq<Action>)
    requires TopologicalSort(Keys(drafts), deps, order) && Distinct(Keys(Drafts(actions)))
    requires forall i :: 0 <= i < |actions| ==>
               actions[i].dependencyOrder < |order| && order[actions[i].dependencyOrder] == actions[i].draft.key
    ensures forall i, j :: 0 <= i < j < |actions| ==> actions[i].dependencyOrder != actions[j].dependencyOrder
    ensures forall i, j :: (0 <= i < |actions| && 0 <= j < |actions| &&
              DependsOn(Keys(drafts), deps, actions[i].draft.key, actions[j].draft.key)) ==>
              actions[j].dependencyOrder < actions[i].dependencyOrder
  {
    forall i, j | 0 <= i < j < |actions|
      ensures actions[i].dependencyOrder != actions[j].dependencyOrder
    {
      assert Keys(Drafts(actions))[i] != Keys(Drafts(actions))[j];
    }
  }

  datatype OrderedActions = OrderedActions(actions: seq<Action>) | CyclicActions

  method OrderActions(collate: (string, string) -> int, drafts: seq<Draft>, deps: seq<Edge>) returns (r: OrderedActions)
    requires Collation(collate)
    ensures Distinct(Keys(drafts)) ==> (r.OrderedActions? <==> Acyclic(Keys(drafts), deps))
    ensures Distinct(Keys(drafts)) && r.OrderedActions? ==> Numbered(collate, drafts, deps, r.actions)
  {
    hide Numbered, TopologicalSort, Acyclic, ByDepth, NoInternalEdges;
    var topo := TopologicalOrder(Keys(drafts), deps);
    if topo.CyclicDependency? {
      return CyclicActions;
    }
    if Distinct(Keys(drafts)) {
      NumberedActions(collate, drafts, deps, topo.order);
    }
    return OrderedActions(Number(Sort(DisplayOrder(collate), drafts), Positions(topo.order)));
  }

  // ----- counts, outcome and percentage -----

  function CountLevel(actions: seq<Action>, level: AutomationLevel): nat {
    |Filter((a: Action) => a.draft.automationLevel == level, actions)|
  }

  function CountActions(actions: seq<Action>): Counts {
    Counts(|actions|, CountLevel(actions, SAFE_AUTOMATIC), CountLevel(actions, REVIEW_REQUIRED),
           CountLevel(actions, MANUAL), CountLevel(actions, BLOCKED), CountLevel(actions, UNKNOWN))
  }

  function DeterminePlanOutcome(c: Counts): Outcome {
    if c.blocked > 0 then PLAN_BLOCKED
    else if c.unknown > 0 then NEEDS_VERIFICATION
    else if c.reviewRequired > 0 || c.manual > 0 then PLAN_REVIEW_REQUIRED
    else READY_TO_APPLY
  }

  function AutoFixablePercent(c: Counts): int {
    var actionable := c.total - c.blocked - c.unknown;
    if c.total == 0 then 100
    else if actionable <= 0 then 0
    else Round((100 * c.safeAutomatic) as real / actionable as real)
  }

  lemma {:induction false} CountsPartition(actions: seq<Action>)
    ensures var c := CountActions(actions);
            c.safeAutomatic + c.reviewRequired + c.manual + c.blocked + c.unknown == c.total
  {
    if actions != [] {
      CountsPartition(actions[1..]);
    }
  }

  lemma {:induction false} CountPositive(actions: seq<Action>, level: AutomationLevel)
    ensures CountLevel(actions, level) > 0 <==> exists a :: a in actions && a.draft.automationLevel == level
  {
    if actions != [] {
      CountPositive(actions[1..], level);
      assert actions == [actions[0]] + actions[1..];
    }
  }

  /** A plan is ready to apply exactly when every action is safe, and blocked exactly when some action is. */
  lemma OutcomeMeaning(actions: seq<Action>)
    ensures var o := DeterminePlanOutcome(CountActions(actions));
            && (o == READY_TO_APPLY <==> forall a :: a in actions ==> a.draft.automationLevel == SAFE_AUTOMATIC)
            && (o == PLAN_BLOCKED <==> exists a :: a in actions && a.draft.automationLevel == BLOCKED)
            && (o == NEEDS_VERIFICATION <==>
                  && (exists a :: a in actions && a.draft.automationLevel == UNKNOWN)
                  && (forall a :: a in actions ==> a.draft.automationLevel != BLOCKED))
  {
    CountPositive(actions, BLOCKED);
    CountPositive(actions, UNKNOWN);
    CountPositive(actions, MANUAL);
    CountPositive(actions, REVIEW_REQUIRED);
    hide CountLevel;
    if forall a :: a in actions ==> a.draft.automationLevel == SAFE_AUTOMATIC {
    } else {
      var a :| a in actions && a.draft.automationLevel != SAFE_AUTOMATIC;
      assert a.draft.automationLevel in {BLOCKED, UNKNOWN, MANUAL, REVIEW_REQUIRED};
    }
  }

  /** The percentage of the actionable actions that are safe, rounded to the nearest whole number. */
  ghost predicate PercentMeans(c: Counts, percent: int) {
    var actionable := c.safeAutomatic + c.reviewRequired + c.manual;
    && (c.total == 0 ==> percent == 100)
    && (c.total > 0 && actionable == 0 ==> percent == 0)
    && (actionable > 0 ==> -0.5 < percent as real - (100 * c.safeAutomatic) as real / actionable as real <= 0.5)
  }

  lemma PercentIs(actions: seq<Action>)
    ensures PercentMeans(CountActions(actions), AutoFixablePercent(CountActions(actions)))
  {
    CountsPartition(actions);
    var c := CountActions(actions);
    var actionable := c.total - c.blocked - c.unknown;
    assert actionable == c.safeAutomatic + c.reviewRequired + c.manual;
    hide CountActions, Round;
    if actionable > 0 {
      RoundNear((100 * c.safeAutomatic) as real / actionable as real);
    }
  }

  function Levels(actions: seq<Action>): seq<AutomationLevel> {
    seq(|actions|, i requires 0 <= i < |actions| => actions[i].draft.automationLevel)
  }

  /** The counts are the numbers of actions of each level. */
  predicate CountsMean(actions: seq<Action>, c: Counts) {
    var levels := multiset(Levels(actions));
    && c.total == |actions|
    && c.safeAutomatic == levels[SAFE_AUTOMATIC] && c.reviewRequired == levels[REVIEW_REQUIRED]
    && c.manual == levels[MANUAL] && c.blocked == levels[BLOCKED] && c.unknown == levels[UNKNOWN]
  }

  lemma {:induction false} CountLevelIs(actions: seq<Action>, level: AutomationLevel)
    ensures CountLevel(actions, level) == multiset(Levels(actions))[level]
  {
    if actions != [] {
      CountLevelIs(actions[1..], level);
      assert Levels(actions) == [actions[0].draft.automationLevel] + Levels(actions[1..]);
    }
  }

  lemma CountsAre(actions: seq<Action>)
    ensures CountsMean(actions, CountActions(actions))
  {
    CountLevelIs(actions, SAFE_AUTOMATIC);
    CountLevelIs(actions, REVIEW_REQUIRED);
    CountLevelIs(actions, MANUAL);
    CountLevelIs(actions, BLOCKED);
    CountLevelIs(actions, UNKNOWN);
    hide CountLevel, Levels;
  }

  /** The percentage is one; it is 0 when no action is safe and 100 when the actionable ones all are. */
  lemma PercentRange(actions: seq<Action>)
    ensures var c := CountActions(actions);
            var percent := AutoFixablePercent(c);
            && 0 <= percent <= 100
            && (c.safeAutomatic == 0 && c.total > 0 ==> percent == 0)
            && (c.safeAutomatic > 0 && c.reviewRequired == 0 && c.manual == 0 ==> percent == 100)
  {
    var c := CountActions(actions);
    var actionable := c.total - c.blocked - c.unknown;
    CountsPartition(actions);
    hide CountActions;
    if c.total > 0 && actionable > 0 {
      var q := (100 * c.safeAutomatic) as real / actionable as real;
      assert q * actionable as real == (100 * c.safeAutomatic) as real;
      assert c.safeAutomatic <= actionable;
      Quotient(100 * c.safeAutomatic, actionable, q);
      RoundMonotone(0.0, q);
      RoundMonotone(q, 100.0);
    }
  }

  lemma Quotient(n: nat, d: nat, q: real)
    requires d > 0 && q == n as real / d as real && n <= 100 * d
    ensures 0.0 <= q <= 100.0
    ensures n == 0 ==> q == 0.0
    ensures n == 100 * d ==> q == 100.0
  {
    assert q * d as real == n as real;
    assert (100.0 - q) * d as real == (100 * d - n) as real;
  }

  // ----- the pipeline -----

  function FirstRule(rules: seq<Rule>, f: Finding): seq<Draft> {
    if rules == [] then []
    else if rules[0].supports(f) then rules[0].createActions(f)
    else FirstRule(rules[1..], f)
  }

  /** What the first rule that supports it makes of every finding that did not pass. */
  function DraftsOf(rules: seq<Rule>, findings: seq<Finding>): seq<Draft> {
    if findings == [] then []
    else
      var f := findings[|findings| - 1];
      DraftsOf(rules, findings[..|findings| - 1]) + if f.passed then [] else FirstRule(rules, f)
  }

  /** The plan of some drafts: their merge, numbered along its own dependencies, and summed up. */
  ghost predicate PlanOf(collate: (string, string) -> int, drafts: seq<Draft>, merged: seq<Draft>, plan: Plan) {
    && MergeOf(drafts, merged)
    && plan.dependencies == ResolvedEdges(merged, Keys(merged)) && WantedEdges(merged, plan.dependencies)
    && Numbered(collate, merged, plan.dependencies, plan.actions)
    && CountsMean(plan.actions, plan.counts)
    && (plan.outcome == READY_TO_APPLY <==> forall a :: a in plan.actions ==> a.draft.automationLevel == SAFE_AUTOMATIC)
    && (plan.outcome == PLAN_BLOCKED <==> exists a :: a in plan.actions && a.draft.automationLevel == BLOCKED)
    && (plan.outcome == NEEDS_VERIFICATION <==>
          && (exists a :: a in plan.actions && a.draft.automationLevel == UNKNOWN)
          && (forall a :: a in plan.actions ==> a.draft.automationLevel != BLOCKED))
    && (plan.migrationReady <==> forall a :: a in plan.actions ==> a.draft.automationLevel !in {BLOCKED, UNKNOWN})
    && (plan.verificationRequired <==> exists a :: a in plan.actions && a.draft.automationLevel == UNKNOWN)
    && 0 <= plan.autoFixablePercent <= 100 && PercentMeans(plan.counts, plan.autoFixablePercent)
  }

  /** The first rule that supports the finding is rule `k`. */
  predicate FirstSupports(rules: seq<Rule>, f: Finding, k: int) {
    0 <= k < |rules| && rules[k].supports(f) && forall j :: 0 <= j < k ==> !rules[j].supports(f)
  }

  /** `part` is what the first rule that supports the finding creates; nothing, if it passed or no rule supports it. */
  ghost predicate CreatedFor(rules: seq<Rule>, f: Finding, part: seq<Draft>) {
    || (f.passed && part == [])
    || (!f.passed && exists k :: FirstSupports(rules, f, k) && part == rules[k].createActions(f))
    || (!f.passed && part == [] && forall k :: 0 <= k < |rules| ==> !rules[k].supports(f))
  }

  function Concat(parts: seq<seq<Draft>>): seq<Draft> {
    if parts == [] then [] else Concat(parts[..|parts| - 1]) + parts[|parts| - 1]
  }

  ghost predicate Parts(rules: seq<Rule>, findings: seq<Finding>, parts: seq<seq<Draft>>) {
    |parts| == |findings| && forall i :: 0 <= i < |findings| ==> CreatedFor(rules, findings[i], parts[i])
  }

  /** The drafts, finding by finding. */
  ghost predicate Gathered(rules: seq<Rule>, findings: seq<Finding>, drafts: seq<Draft>) {
    exists parts :: Parts(rules, findings, parts) && drafts == Concat(parts)
  }

  lemma {:induction false} FirstRuleIs(rules: seq<Rule>, f: Finding)
    ensures (exists k :: FirstSupports(rules, f, k) && FirstRule(rules, f) == rules[k].createActions(f)) ||
            (FirstRule(rules, f) == [] && forall k :: 0 <= k < |rules| ==> !rules[k].supports(f))
  {
    if rules != [] {
      if rules[0].supports(f) {
        assert FirstSupports(rules, f, 0);
      } else {
        FirstRuleIs(rules[1..], f);
        if k :| FirstSupports(rules[1..], f, k) && FirstRule(rules[1..], f) == rules[1..][k].createActions(f) {
          assert forall j :: 0 < j < k + 1 ==> rules[j] == rules[1..][j - 1];
          assert FirstSupports(rules, f, k + 1);
        } else {
          assert forall k :: 0 < k < |rules| ==> rules[k] == rules[1..][k - 1];
        }
      }
    }
  }

  lemma {:induction false} DraftsGathered(rules: seq<Rule>, findings: seq<Finding>)
    ensures Gathered(rules, findings, DraftsOf(rules, findings))
  {
    if findings == [] {
      var none: seq<seq<Draft>> := [];
      assert Parts(rules, findings, none) && Concat(none) == [];
    } else {
      var before, f := findings[..|findings| - 1], findings[|findings| - 1];
      DraftsGathered(rules, before);
      FirstRuleIs(rules, f);
      var parts :| Parts(rules, before, parts) && DraftsOf(rules, before) == Concat(parts);
      var part := if f.passed then [] else FirstRule(rules, f);
      assert CreatedFor(rules, f, part);
      hide CreatedFor, FirstRule;
      var all := parts + [part];
      assert all[..|all| - 1] == parts;
      assert Parts(rules, findings, all);
      assert Concat(all) == DraftsOf(rules, findings);
    }
  }

  /** The draft is created for a finding that did not pass, by the first rule that supports it. */
  ghost predicate Created(rules: seq<Rule>, findings: seq<Finding>, d: Draft) {
    exists i, k :: 0 <= i < |findings| && !findings[i].passed && FirstSupports(rules, findings[i], k)
      && d in rules[k].createActions(findings[i])
  }

  lemma {:induction false} ConcatMembers(parts: seq<seq<Draft>>, d: Draft)
    ensures d in Concat(parts) <==> exists i :: 0 <= i < |parts| && d in parts[i]
  {
    if parts != [] {
      var before := parts[..|parts| - 1];
      ConcatMembers(before, d);
      if i :| 0 <= i < |parts| && d in parts[i] {
        assert i < |before| ==> d in before[i];
      }
    }
  }

  lemma CreatedForOne(rules: seq<Rule>, f: Finding, part: seq<Draft>, d: Draft)
    requires CreatedFor(rules, f, part)
    ensures d in part <==> !f.passed && exists k :: FirstSupports(rules, f, k) && d in rules[k].createActions(f)
  {
    forall k, h | FirstSupports(rules, f, k) && FirstSupports(rules, f, h)
      ensures k == h
    {
    }
  }

  /** Exactly these drafts are gathered. */
  lemma GatheredAreCreated(rules: seq<Rule>, findings: seq<Finding>, drafts: seq<Draft>)
    requires Gathered(rules, findings, drafts)
    ensures forall d :: d in drafts <==> Created(rules, findings, d)
  {
    var parts :| Parts(rules, findings, parts) && drafts == Concat(parts);
    forall d
      ensures d in drafts <==> Created(rules, findings, d)
    {
      ConcatMembers(parts, d);
      forall i | 0 <= i < |findings|
        ensures d in parts[i] <==>
                  !findings[i].passed &&
                  exists k :: FirstSupports(rules, findings[i], k) && d in rules[k].createActions(findings[i])
      {
        CreatedForOne(rules, findings[i], parts[i], d);
      }
      hide FirstSupports, Concat;
    }
  }

  /** What an action keeps of the drafts created with its key: every finding and dependency, and nothing else; the rest
      is that of one of them. */
  ghost predicate Keeps(rules: seq<Rule>, findings: seq<Finding>, m: Draft) {
    && (forall id :: id in m.findingIds <==> exists d :: Created(rules, findings, d) && d.key == m.key && id in d.findingIds)
    && (forall k :: k in m.dependsOnKeys <==> exists d :: Created(rules, findings, d) && d.key == m.key && k in d.dependsOnKeys)
    && exists d :: Created(rules, findings, d) &&
         m == d.(findingIds := m.findingIds, evidence := m.evidence, dependsOnKeys := m.dependsOnKeys)
  }

  ghost predicate HasKey(plan: Plan, k: Key) {
    exists a :: a in plan.actions && a.draft.key == k
  }

  /** Every key is in the plan, and no other. */
  ghost predicate Covers(rules: seq<Rule>, findings: seq<Finding>, plan: Plan) {
    && (forall d :: Created(rules, findings, d) ==> HasKey(plan, d.key))
    && (forall a :: a in plan.actions ==> Keeps(rules, findings, a.draft))
  }

  lemma ActionIsMerged(collate: (string, string) -> int, drafts: seq<Draft>, merged: seq<Draft>, plan: Plan, a: Action)
    requires PlanOf(collate, drafts, merged, plan) && a in plan.actions
    ensures a.draft in merged
  {
    var shown := Drafts(plan.actions);
    assert multiset(shown) == multiset(merged);
    hide PlanOf;
    var i :| 0 <= i < |plan.actions| && plan.actions[i] == a;
    assert shown[i] in multiset(merged);
  }

  lemma MergedIsAction(collate: (string, string) -> int, drafts: seq<Draft>, merged: seq<Draft>, plan: Plan, m: Draft)
    requires PlanOf(collate, drafts, merged, plan) && m in merged
    ensures exists a :: a in plan.actions && a.draft == m
  {
    var shown := Drafts(plan.actions);
    assert multiset(shown) == multiset(merged);
    hide PlanOf;
    assert m in multiset(shown);
    var i :| 0 <= i < |shown| && shown[i] == m;
    assert plan.actions[i] in plan.actions;
  }

  lemma ActionCovered(rules: seq<Rule>, findings: seq<Finding>, drafts: seq<Draft>, merged: seq<Draft>, m: Draft)
    requires Gathered(rules, findings, drafts) && MergeOf(drafts, merged) && m in merged
    ensures Keeps(rules, findings, m)
  {
    GatheredAreCreated(rules, findings, drafts);
    MergeConserves(drafts, merged, m);
    var i := MergeKeepsFirst(drafts, merged, m);
    assert drafts[i] in drafts;
    hide Gathered, MergeOf, Created;
  }

  lemma KeyCovered(drafts: seq<Draft>, merged: seq<Draft>, d: Draft)
    requires MergeOf(drafts, merged) && d in drafts
    ensures exists m :: m in merged && m.key == d.key
  {
    var i :| 0 <= i < |drafts| && drafts[i] == d;
    assert Keys(drafts)[i] == d.key;
    UniqueKeys(drafts, d.key);
    assert d.key in Keys(merged);
    var j :| 0 <= j < |Keys(merged)| && Keys(merged)[j] == d.key;
    assert merged[j] in merged;
  }

  lemma CreatedIsAction(collate: (string, string) -> int, drafts: seq<Draft>, merged: seq<Draft>, plan: Plan, d: Draft)
    requires PlanOf(collate, drafts, merged, plan) && d in drafts
    ensures HasKey(plan, d.key)
  {
    assert MergeOf(drafts, merged);
    hide PlanOf, MergeOf;
    KeyCovered(drafts, merged, d);
    var m :| m in merged && m.key == d.key;
    MergedIsAction(collate, drafts, merged, plan, m);
  }

  lemma ActionKeeps(rules: seq<Rule>, findings: seq<Finding>, collate: (string, string) -> int, drafts: seq<Draft>,
                    merged: seq<Draft>, plan: Plan, a: Action)
    requires Gathered(rules, findings, drafts) && PlanOf(collate, drafts, merged, plan) && a in plan.actions
    ensures Keeps(rules, findings, a.draft)
  {
    assert MergeOf(drafts, merged);
    hide Gathered, PlanOf, MergeOf, Keeps;
    ActionIsMerged(collate, drafts, merged, plan, a);
    ActionCovered(rules, findings, drafts, merged, a.draft);
  }

  lemma PlanCovers(rules: seq<Rule>, findings: seq<Finding>, collate: (string, string) -> int, drafts: seq<Draft>,
                   merged: seq<Draft>, plan: Plan)
    requires Gathered(rules, findings, drafts) && PlanOf(collate, drafts, merged, plan)
    ensures Covers(rules, findings, plan)
  {
    hide Gathered, PlanOf, Created, Keeps, HasKey;
    GatheredAreCreated(rules, findings, drafts);
    forall d | Created(rules, findings, d)
      ensures HasKey(plan, d.key)
    {
      CreatedIsAction(collate, drafts, merged, plan, d);
    }
    forall a | a in plan.actions
      ensures Keeps(rules, findings, a.draft)
    {
      ActionKeeps(rules, findings, collate, drafts, merged, plan, a);
    }
  }

  method GatherDrafts(rules: seq<Rule>, findings: seq<Finding>) returns (drafts: seq<Draft>)
    ensures drafts == DraftsOf(rules, findings) && Gathered(rules, findings, drafts)
  {
    drafts := [];
    for i := 0 to |findings|
      invariant drafts == DraftsOf(rules, findings[..i])
    {
      assert findings[..i + 1][..i] == findings[..i];
      if !findings[i].passed {
        drafts := drafts + FirstRule(rules, findings[i]);
      }
    }
    assert findings[..|findings|] == findings;
    DraftsGathered(rules, findings);
  }

  function Summary(actions: seq<Action>, dependencies: seq<Edge>): Plan {
    var counts := CountActions(actions);
    Plan(actions, dependencies, counts, DeterminePlanOutcome(counts), counts.blocked == 0 && counts.unknown == 0,
         counts.unknown > 0, AutoFixablePercent(counts))
  }

  lemma SummaryIsPlan(collate: (string, string) -> int, drafts: seq<Draft>, merged: seq<Draft>, deps: seq<Edge>, actions: seq<Action>)
    requires MergeOf(drafts, merged) && deps == ResolvedEdges(merged, Keys(merged)) && WantedEdges(merged, deps)
    requires Numbered(collate, merged, deps, actions)
    ensures PlanOf(collate, drafts, merged, Summary(actions, deps))
  {
    CountPositive(actions, BLOCKED);
    CountPositive(actions, UNKNOWN);
    PercentRange(actions);
    PercentIs(actions);
    CountsAre(actions);
    OutcomeMeaning(actions);
    hide CountsMean, PercentMeans;
    hide MergeOf, ResolvedEdges, WantedEdges, Numbered, CountLevel, AutoFixablePercent, DeterminePlanOutcome;
  }

  /** There is a plan for the merge of the drafts unless the wanted dependencies between them have a cycle. */
  ghost predicate ResultOf(collate: (string, string) -> int, drafts: seq<Draft>, r: PlanResult) {
    exists merged, deps :: MergeOf(drafts, merged) && WantedEdges(merged, deps)
      && (r.Planned? <==> Acyclic(Keys(merged), deps)) && (r.Planned? ==> PlanOf(collate, drafts, merged, r.plan))
  }

  /** The result for what the rules create for the findings that did not pass. */
  ghost predicate PlanFor(rules: seq<Rule>, collate: (string, string) -> int, findings: seq<Finding>, r: PlanResult) {
    exists drafts :: Gathered(rules, findings, drafts) && ResultOf(collate, drafts, r)
  }

  method CreateMigrationPlan(rules: seq<Rule>, collate: (string, string) -> int, findings: seq<Finding>) returns (r: PlanResult)
    requires Collation(collate)
    ensures PlanFor(rules, collate, findings, r)
    ensures r.Planned? ==> Covers(rules, findings, r.plan)
  {
    var drafts := GatherDrafts(rules, findings);
    var merged := MergeDrafts(drafts);
    hide Numbered, Acyclic, Collation, ResolvedEdges, WantedEdges, Summary, PlanOf, DraftsOf, MergeOf, Gathered, Covers;
    var dependencies := ResolvedDependencies(merged);
    var ordered := OrderActions(collate, merged, dependencies);
    MergedKeysDistinct(drafts, merged);
    if ordered.CyclicActions? {
      return CyclicPlan;
    }
    SummaryIsPlan(collate, drafts, merged, dependencies, ordered.actions);
    PlanCovers(rules, findings, collate, drafts, merged, Summary(ordered.actions, dependencies));
    r := Planned(Summary(ordered.actions, dependencies));
  }

  lemma MergedKeysDistinct(drafts: seq<Draft>, merged: seq<Draft>)
    requires MergeOf(drafts, merged)
    ensures Distinct(Keys(merged))
  {
  }
}
