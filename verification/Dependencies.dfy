/** Ordering of migration actions by their dependencies: Kahn's algorithm with a FIFO queue
    (packages/migration/src/dependencies.ts). */
module Dependencies {
  import opened Sequences

  type Key = string

  /** `actionKey` may only be carried out after `dependsOnKey`. */
  datatype Edge = Edge(actionKey: Key, dependsOnKey: Key)

  datatype OrderResult = Ordered(order: seq<Key>) | CyclicDependency

  // ----- what an order is supposed to be -----

  /** `a` depends on `d` by some edge between known keys; edges to unknown keys do not count. */
  predicate DependsOn(keys: seq<Key>, deps: seq<Edge>, a: Key, d: Key) {
    a in keys && d in keys && Edge(a, d) in deps
  }

  /** A dependency chain: every key depends on the key after it. */
  ghost predicate Chain(keys: seq<Key>, deps: seq<Edge>, p: seq<Key>) {
    |p| > 0 ==>
      && p[0] in keys
      && (|p| > 1 ==> DependsOn(keys, deps, p[0], p[1]))
      && Chain(keys, deps, p[1..])
  }

  ghost predicate ChainFrom(keys: seq<Key>, deps: seq<Edge>, p: seq<Key>, k: Key) {
    |p| > 0 && p[0] == k && Chain(keys, deps, p)
  }

  ghost predicate IsCycle(keys: seq<Key>, deps: seq<Edge>, p: seq<Key>) {
    |p| >= 2 && p[0] == p[|p| - 1] && Chain(keys, deps, p)
  }

  ghost predicate Acyclic(keys: seq<Key>, deps: seq<Edge>) {
    forall p: seq<Key> :: !IsCycle(keys, deps, p)
  }

  /** A permutation of the keys in which no key depends on itself or on a later key. */
  ghost predicate TopologicalSort(keys: seq<Key>, deps: seq<Edge>, order: seq<Key>) {
    && multiset(order) == multiset(keys)
    && forall i, j :: 0 <= i <= j < |order| ==> !DependsOn(keys, deps, order[i], order[j])
  }

  /** Some dependency chain of `n` or more keys starts at `k`. */
  ghost predicate ChainOfLength(keys: seq<Key>, deps: seq<Edge>, k: Key, n: nat) {
    exists p: seq<Key> :: ChainFrom(keys, deps, p, k) && |p| >= n
  }

  /** The longest dependency chain starting at a key does not get shorter along the order. */
  ghost predicate ByDepth(keys: seq<Key>, deps: seq<Edge>, order: seq<Key>) {
    forall i, j, n: nat :: 0 <= i <= j < |order| && ChainOfLength(keys, deps, order[i], n) ==>
      ChainOfLength(keys, deps, order[j], n)
  }

  predicate NoInternalEdges(keys: seq<Key>, deps: seq<Edge>) {
    forall e :: e in deps ==> e.actionKey !in keys || e.dependsOnKey !in keys
  }

  // ----- bookkeeping of the algorithm -----

  predicate Counts(keys: seq<Key>, e: Edge, k: Key, done: set<Key>) {
    e.actionKey == k && e.actionKey in keys && e.dependsOnKey in keys && e.dependsOnKey !in done
  }

  /** The number of edges of `k` whose dependency is known and not in `done`, with repetitions. */
  function Pending(keys: seq<Key>, deps: seq<Edge>, k: Key, done: set<Key>): nat {
    if deps == [] then 0
    else
      Pending(keys, deps[..|deps| - 1], k, done) + if Counts(keys, deps[|deps| - 1], k, done) then 1 else 0
  }

  /** The actions that depend on `k`, one entry for every edge, in edge order. */
  function Dependants(keys: seq<Key>, deps: seq<Edge>, k: Key): seq<Key> {
    if deps == [] then []
    else
      var e := deps[|deps| - 1];
      Dependants(keys, deps[..|deps| - 1], k) +
      if e.dependsOnKey == k && e.actionKey in keys && e.dependsOnKey in keys then [e.actionKey] else []
  }

  lemma {:induction false} PendingZero(keys: seq<Key>, deps: seq<Edge>, k: Key, done: set<Key>)
    ensures Pending(keys, deps, k, done) == 0 <==> forall e :: e in deps ==> !Counts(keys, e, k, done)
  {
    if deps != [] {
      PendingZero(keys, deps[..|deps| - 1], k, done);
      assert deps == deps[..|deps| - 1] + [deps[|deps| - 1]];
    }
  }

  lemma {:induction false} DependantsInKeys(keys: seq<Key>, deps: seq<Edge>, k: Key)
    ensures forall x :: x in Dependants(keys, deps, k) ==> DependsOn(keys, deps, x, k)
  {
    if deps != [] {
      DependantsInKeys(keys, deps[..|deps| - 1], k);
      assert deps == deps[..|deps| - 1] + [deps[|deps| - 1]];
    }
  }

  /** Finishing `c` removes exactly the edges listed in `Dependants(c)`. */
  lemma {:induction false} PendingAfter(keys: seq<Key>, deps: seq<Edge>, k: Key, done: set<Key>, c: Key)
    requires c !in done
    ensures Pending(keys, deps, k, done + {c}) ==
            Pending(keys, deps, k, done) - multiset(Dependants(keys, deps, c))[k]
  {
    if deps != [] {
      PendingAfter(keys, deps[..|deps| - 1], k, done, c);
    }
  }

  // ----- the invariant -----

  /** The key sits one above its deepest dependency, and all its dependencies are levelled. */
  ghost predicate LevelFits(keys: seq<Key>, deps: seq<Edge>, level: map<Key, nat>, k: Key)
    requires k in level
  {
    && (forall d :: DependsOn(keys, deps, k, d) ==> d in level && level[d] < level[k])
    && (level[k] == 0 || exists d :: DependsOn(keys, deps, k, d) && d in level && level[d] == level[k] - 1)
  }

  ghost predicate Levelled(keys: seq<Key>, deps: seq<Edge>, level: map<Key, nat>) {
    forall k {:trigger LevelFits(keys, deps, level, k)} :: k in level ==> LevelFits(keys, deps, level, k)
  }

  /** What holds of the keys reached so far: those already ordered, followed by the queue. */
  ghost predicate Reached(keys: seq<Key>, deps: seq<Edge>, seen: seq<Key>, level: map<Key, nat>) {
    && Distinct(seen)
    && (forall x :: x in seen ==> x in keys)
    && (forall i, j :: 0 <= i <= j < |seen| ==> !DependsOn(keys, deps, seen[i], seen[j]))
    && level.Keys == Elements(seen)
    && Levelled(keys, deps, level)
    && (forall i, j :: 0 <= i <= j < |seen| ==> level[seen[i]] <= level[seen[j]])
  }

  /** `incoming` counts the edges that are still open once the dependencies in `done` are finished
      and the entries of `consumed` are taken off; the reached keys are those with no open edge. */
  ghost predicate Open(keys: seq<Key>, deps: seq<Edge>, incoming: map<Key, int>, done: set<Key>,
                       consumed: multiset<Key>, seen: seq<Key>) {
    && incoming.Keys == Elements(keys)
    && (forall k :: k in keys ==> incoming[k] == Pending(keys, deps, k, done) - consumed[k])
    && (forall k :: k in keys ==> (k in seen <==> incoming[k] == 0))
  }

  ghost predicate Below(level: map<Key, nat>, seen: seq<Key>, bound: nat) {
    forall x :: x in seen && x in level ==> level[x] <= bound
  }

  lemma PendingZeroDone(keys: seq<Key>, deps: seq<Edge>, k: Key, done: set<Key>)
    requires k in keys && Pending(keys, deps, k, done) == 0
    ensures forall d :: DependsOn(keys, deps, k, d) ==> d in done
  {
    PendingZero(keys, deps, k, done);
    forall d | DependsOn(keys, deps, k, d)
      ensures d in done
    {
      assert !Counts(keys, Edge(k, d), k, done);
    }
  }

  /** The first wave: the keys without open edges, in input order. */
  lemma InitialReached(keys: seq<Key>, deps: seq<Edge>, incoming: map<Key, int>, queue: seq<Key>, level: map<Key, nat>)
    requires Distinct(queue)
    requires Open(keys, deps, incoming, {}, multiset{}, queue)
    requires forall x :: x in queue ==> x in keys
    requires level == map k | k in queue :: 0
    ensures Reached(keys, deps, queue, level)
  {
    forall k | k in queue
      ensures forall d :: !DependsOn(keys, deps, k, d)
    {
      PendingZeroDone(keys, deps, k, {});
    }
    assert level.Keys == Elements(queue);
  }

  /** When the last open edge of `next` is consumed by finishing `current`, `next` joins the queue one level
      above `current`. */
  lemma PushReached(keys: seq<Key>, deps: seq<Edge>, seen: seq<Key>, level: map<Key, nat>,
                    done: set<Key>, current: Key, next: Key)
    requires Reached(keys, deps, seen, level)
    requires current in seen && current !in done && DependsOn(keys, deps, next, current)
    requires forall d :: DependsOn(keys, deps, next, d) ==> d in done + {current}
    requires forall x, d :: x in seen && DependsOn(keys, deps, x, d) ==> d in done + {current}
    requires forall x :: x in done ==> x in seen && level[x] <= level[current]
    requires Below(level, seen, level[current] + 1)
    requires next !in seen
    ensures Reached(keys, deps, seen + [next], level[next := level[current] + 1])
    ensures Below(level[next := level[current] + 1], seen + [next], level[current] + 1)
  {
    var seen', level' := seen + [next], level[next := level[current] + 1];
    forall x | x in level'.Keys
      ensures x in Elements(seen')
    {
      assert x == next || x in Elements(seen);
    }
    forall i, j | 0 <= i <= j < |seen'|
      ensures !DependsOn(keys, deps, seen'[i], seen'[j])
    {
      assert next !in done + {current};
    }
    assert Levelled(keys, deps, level') by {
      forall k | k in level'
        ensures LevelFits(keys, deps, level', k)
      {
        if k == next {
          assert DependsOn(keys, deps, next, current) && level'[current] == level'[k] - 1;
        } else {
          assert LevelFits(keys, deps, level, k);
          assert forall d :: DependsOn(keys, deps, k, d) ==> d != next;
        }
      }
    }
  }

  /** A key still waiting for an edge from `current` has not been reached. */
  lemma StillWaiting(keys: seq<Key>, deps: seq<Edge>, k: Key, done: set<Key>, current: Key, consumed: multiset<Key>)
    requires current !in done
    requires consumed[k] < multiset(Dependants(keys, deps, current))[k]
    ensures Pending(keys, deps, k, done) - consumed[k] > 0
  {
    PendingAfter(keys, deps, k, done, current);
  }

  /** When a key's count reaches zero, all its dependencies are finished. */
  lemma LastEdge(keys: seq<Key>, deps: seq<Edge>, k: Key, done: set<Key>, current: Key, consumed: multiset<Key>)
    requires k in keys && current !in done
    requires consumed <= multiset(Dependants(keys, deps, current))
    requires Pending(keys, deps, k, done) == consumed[k]
    ensures forall d :: DependsOn(keys, deps, k, d) ==> d in done + {current}
  {
    PendingAfter(keys, deps, k, done, current);
    PendingZeroDone(keys, deps, k, done + {current});
  }

  // ----- termination -----

  ghost function Waiting(incoming: map<Key, int>): set<Key> {
    set k | k in incoming && incoming[k] > 0
  }

  lemma WaitingAfter(incoming: map<Key, int>, k: Key)
    requires k in incoming
    ensures var after := incoming[k := incoming[k] - 1];
            |Waiting(after)| == |Waiting(incoming)| - if incoming[k] == 1 then 1 else 0
  {
    var after := incoming[k := incoming[k] - 1];
    if incoming[k] == 1 {
      assert Waiting(after) == Waiting(incoming) - {k};
    } else {
      assert Waiting(after) == Waiting(incoming);
    }
  }

  // ----- what the final state means -----

  lemma {:induction false} ChainBound(keys: seq<Key>, deps: seq<Edge>, level: map<Key, nat>, p: seq<Key>)
    requires Levelled(keys, deps, level)
    requires |p| > 0 && Chain(keys, deps, p) && p[0] in level
    ensures |p| <= level[p[0]] + 1
  {
    assert LevelFits(keys, deps, level, p[0]);
    if |p| > 1 {
      ChainBound(keys, deps, level, p[1..]);
    }
  }

  lemma {:induction false} LongestChain(keys: seq<Key>, deps: seq<Edge>, level: map<Key, nat>, k: Key) returns (p: seq<Key>)
    requires Levelled(keys, deps, level) && k in level && k in keys
    ensures ChainFrom(keys, deps, p, k) && |p| == level[k] + 1
    decreases level[k]
  {
    assert LevelFits(keys, deps, level, k);
    if level[k] == 0 {
      p := [k];
    } else {
      var d :| DependsOn(keys, deps, k, d) && d in level && level[d] == level[k] - 1;
      var q := LongestChain(keys, deps, level, d);
      p := [k] + q;
      assert p[1..] == q;
    }
  }

  lemma ReachedByDepth(keys: seq<Key>, deps: seq<Edge>, order: seq<Key>, level: map<Key, nat>)
    requires Reached(keys, deps, order, level)
    ensures ByDepth(keys, deps, order)
  {
    forall i, j, n: nat | 0 <= i <= j < |order| && ChainOfLength(keys, deps, order[i], n)
      ensures ChainOfLength(keys, deps, order[j], n)
    {
      assert order[i] in Elements(order) && order[j] in Elements(order);
      var p: seq<Key> :| ChainFrom(keys, deps, p, order[i]) && |p| >= n;
      ChainBound(keys, deps, level, p);
      var q := LongestChain(keys, deps, level, order[j]);
    }
  }

  /** Along a chain the positions in a dependency order strictly decrease. */
  lemma {:induction false} ChainPosition(keys: seq<Key>, deps: seq<Edge>, order: seq<Key>, p: seq<Key>, i: nat)
    requires TopologicalSort(keys, deps, order)
    requires |p| > 1 && Chain(keys, deps, p) && i < |order| && order[i] == p[0]
    ensures exists h :: 0 <= h < i && order[h] == p[|p| - 1]
  {
    assert p[1] in multiset(order);
    var h :| 0 <= h < |order| && order[h] == p[1];
    assert h < i;
    if |p| > 2 {
      ChainPosition(keys, deps, order, p[1..], h);
    }
  }

  /** A dependency order rules out every cycle. */
  lemma SortedIsAcyclic(keys: seq<Key>, deps: seq<Edge>, order: seq<Key>)
    requires TopologicalSort(keys, deps, order)
    ensures Acyclic(keys, deps)
  {
    forall p: seq<Key> | IsCycle(keys, deps, p)
      ensures false
    {
      NoReturn(keys, deps, order, p);
    }
  }

  lemma NoReturn(keys: seq<Key>, deps: seq<Edge>, order: seq<Key>, p: seq<Key>)
    requires TopologicalSort(keys, deps, order)
    requires |p| > 1 && Chain(keys, deps, p)
    ensures p[0] != p[|p| - 1]
  {
    assert p[0] in multiset(order);
    var i := First(order, p[0]);
    ChainPosition(keys, deps, order, p, i);
  }

  lemma TailSlice(p: seq<Key>, i: nat, j: nat)
    requires 0 < i <= j <= |p|
    ensures p[1..][i - 1..j - 1] == p[i..j]
  {
  }

  lemma {:induction false} ChainSlice(keys: seq<Key>, deps: seq<Edge>, p: seq<Key>, i: nat, j: nat)
    requires Chain(keys, deps, p) && i <= j <= |p|
    ensures Chain(keys, deps, p[i..j])
    decreases |p|
  {
    if i > 0 {
      ChainSlice(keys, deps, p[1..], i - 1, j - 1);
      TailSlice(p, i, j);
    } else if j > 0 {
      ChainSlice(keys, deps, p[1..], 0, j - 1);
      assert p[..j][1..] == p[1..][..j - 1];
    }
  }

  ghost predicate WaitsWithin(keys: seq<Key>, deps: seq<Edge>, left: set<Key>, k: Key) {
    exists d :: d in left && DependsOn(keys, deps, k, d)
  }

  ghost predicate Stuck(keys: seq<Key>, deps: seq<Edge>, left: set<Key>) {
    forall k {:trigger WaitsWithin(keys, deps, left, k)} :: k in left ==> WaitsWithin(keys, deps, left, k)
  }

  lemma {:induction false} Walk(keys: seq<Key>, deps: seq<Edge>, left: set<Key>, k: Key, n: nat) returns (p: seq<Key>)
    requires k in left && k in keys && Stuck(keys, deps, left)
    ensures |p| == n + 1 && ChainFrom(keys, deps, p, k) && forall x :: x in p ==> x in left
    decreases n
  {
    p := [k];
    if n > 0 {
      assert WaitsWithin(keys, deps, left, k);
      var d :| d in left && DependsOn(keys, deps, k, d);
      var q := Walk(keys, deps, left, d, n - 1);
      p := [k] + q;
      assert p[1..] == q;
    }
  }

  /** Keys that all wait for each other contain a cycle. */
  lemma LeftoverCycle(keys: seq<Key>, deps: seq<Edge>, left: set<Key>)
    requires left != {} && left <= Elements(keys) && Stuck(keys, deps, left)
    ensures !Acyclic(keys, deps)
  {
    var k :| k in left;
    var p := Walk(keys, deps, left, k, |left|);
    Pigeonhole(p, left);
    var i, j :| 0 <= i < j < |p| && p[i] == p[j];
    var c := p[i..j + 1];
    ChainSlice(keys, deps, p, i, j + 1);
    assert IsCycle(keys, deps, c);
  }

  // ----- steps of the main loop -----

  function Ready(keys: seq<Key>, incoming: map<Key, int>): seq<Key>
    requires forall k :: k in keys ==> k in incoming
  {
    if keys == [] then []
    else (if incoming[keys[0]] == 0 then [keys[0]] else []) + Ready(keys[1..], incoming)
  }

  lemma {:induction false} ReadyElements(keys: seq<Key>, incoming: map<Key, int>)
    requires forall k :: k in keys ==> k in incoming
    ensures forall k :: k in Ready(keys, incoming) <==> k in keys && incoming[k] == 0
  {
    if keys != [] {
      ReadyElements(keys[1..], incoming);
      assert keys == [keys[0]] + keys[1..];
    }
  }

  lemma {:induction false} ReadyDistinct(keys: seq<Key>, incoming: map<Key, int>)
    requires Distinct(keys) && forall k :: k in keys ==> k in incoming
    ensures Distinct(Ready(keys, incoming))
  {
    if keys != [] {
      ReadyDistinct(keys[1..], incoming);
      ReadyElements(keys[1..], incoming);
      assert keys[0] !in keys[1..];
    }
  }

  lemma {:induction false} ReadyAll(keys: seq<Key>, incoming: map<Key, int>)
    requires forall k :: k in keys ==> k in incoming && incoming[k] == 0
    ensures Ready(keys, incoming) == keys
  {
    if keys != [] {
      ReadyAll(keys[1..], incoming);
    }
  }

  /** Between two turns of the main loop. */
  ghost predicate Frontier(keys: seq<Key>, deps: seq<Edge>, incoming: map<Key, int>, ordered: seq<Key>,
                           queue: seq<Key>, level: map<Key, nat>) {
    && Reached(keys, deps, ordered + queue, level)
    && Open(keys, deps, incoming, Elements(ordered), multiset{}, ordered + queue)
    && (queue != [] ==> queue[0] in level && Below(level, ordered + queue, level[queue[0]] + 1))
  }

  /** `current` has just been put behind the keys in `done`, and the first `i` of its edges are taken off. */
  ghost predicate Finishing(keys: seq<Key>, deps: seq<Edge>, incoming: map<Key, int>, done: seq<Key>, current: Key,
                            seen: seq<Key>, level: map<Key, nat>, i: nat) {
    && done + [current] <= seen
    && current !in Elements(done)
    && i <= |Dependants(keys, deps, current)|
    && Reached(keys, deps, seen, level)
    && Open(keys, deps, incoming, Elements(done), multiset(Dependants(keys, deps, current)[..i]), seen)
    && current in level && Below(level, seen, level[current] + 1)
  }

  lemma StartFinishing(keys: seq<Key>, deps: seq<Edge>, incoming: map<Key, int>, done: seq<Key>,
                       queue: seq<Key>, level: map<Key, nat>)
    requires Frontier(keys, deps, incoming, done, queue, level) && queue != []
    ensures Finishing(keys, deps, incoming, done, queue[0], done + [queue[0]] + queue[1..], level, 0)
  {
    var seen := done + queue;
    assert seen == done + [queue[0]] + queue[1..];
    assert seen[|done|] == queue[0];
    assert done + [queue[0]] == seen[..|done| + 1];
    assert forall h :: 0 <= h < |done| ==> seen[h] == done[h];
  }

  lemma OneMoreTaken(outs: seq<Key>, i: nat)
    requires i < |outs|
    ensures multiset(outs[..i + 1]) == multiset(outs[..i]) + multiset{outs[i]}
    ensures multiset(outs[..i])[outs[i]] < multiset(outs)[outs[i]]
  {
    assert outs[..i + 1] == outs[..i] + [outs[i]];
    assert outs == outs[..i + 1] + outs[i + 1..];
  }

  /** `next` still has an open edge from `current`, so it has not been reached. */
  lemma NextIsWaiting(keys: seq<Key>, deps: seq<Edge>, incoming: map<Key, int>, done: set<Key>, current: Key,
                      seen: seq<Key>, i: nat)
    requires i < |Dependants(keys, deps, current)| && current !in done
    requires Open(keys, deps, incoming, done, multiset(Dependants(keys, deps, current)[..i]), seen)
    ensures var outs := Dependants(keys, deps, current);
            var next := outs[i];
            && DependsOn(keys, deps, next, current) && next in incoming && next !in seen && incoming[next] >= 1
            && multiset(outs[..i + 1]) == multiset(outs[..i]) + multiset{next}
  {
    var outs := Dependants(keys, deps, current);
    var next := outs[i];
    DependantsInKeys(keys, deps, current);
    hide Dependants, Pending, DependsOn;
    assert next in outs;
    OneMoreTaken(outs, i);
    StillWaiting(keys, deps, next, done, current, multiset(outs[..i]));
  }

  /** Taking one more edge of `current` off keeps the counts right. */
  lemma OpenAfterEdge(keys: seq<Key>, deps: seq<Edge>, incoming: map<Key, int>, done: set<Key>, current: Key,
                      seen: seq<Key>, i: nat)
    requires i < |Dependants(keys, deps, current)| && current !in done
    requires Open(keys, deps, incoming, done, multiset(Dependants(keys, deps, current)[..i]), seen)
    ensures var outs := Dependants(keys, deps, current);
            var next := outs[i];
            && next in incoming
            && Open(keys, deps, incoming[next := incoming[next] - 1], done, multiset(outs[..i + 1]),
                    if incoming[next] == 1 then seen + [next] else seen)
  {
    hide Pending, Dependants, DependsOn;
    NextIsWaiting(keys, deps, incoming, done, current, seen, i);
    var next := Dependants(keys, deps, current)[i];
    var seen' := if incoming[next] == 1 then seen + [next] else seen;
    forall k | k in keys && k != next
      ensures k in seen' <==> k in seen
    {
    }
  }

  /** If that was the last open edge, all dependencies of `next` are finished. */
  lemma ReadyAfterEdge(keys: seq<Key>, deps: seq<Edge>, incoming: map<Key, int>, done: set<Key>, current: Key,
                       seen: seq<Key>, i: nat, x: Key)
    requires i <= |Dependants(keys, deps, current)| && current !in done && x in keys
    requires Open(keys, deps, incoming, done, multiset(Dependants(keys, deps, current)[..i]), seen)
    requires incoming[x] == 0
    ensures forall d :: DependsOn(keys, deps, x, d) ==> d in done + {current}
  {
    var outs := Dependants(keys, deps, current);
    assert outs == outs[..i] + outs[i..];
    LastEdge(keys, deps, x, done, current, multiset(outs[..i]));
  }

  lemma DoneBelow(seen: seq<Key>, done: seq<Key>, current: Key, level: map<Key, nat>)
    requires done + [current] <= seen && level.Keys == Elements(seen) && current in level
    requires forall i, j :: 0 <= i <= j < |seen| ==> level[seen[i]] <= level[seen[j]]
    ensures forall x :: x in Elements(done) ==> x in seen && x in level && level[x] <= level[current]
  {
    assert seen[|done|] == current;
    forall x | x in Elements(done)
      ensures x in seen && x in level && level[x] <= level[current]
    {
      var h :| 0 <= h < |done| && done[h] == x;
      assert seen[h] == x;
    }
  }

  lemma JoinQueue(keys: seq<Key>, deps: seq<Edge>, incoming: map<Key, int>, done: seq<Key>, current: Key,
                  seen: seq<Key>, level: map<Key, nat>, i: nat, next: Key)
    requires Finishing(keys, deps, incoming, done, current, seen, level, i)
    requires i < |Dependants(keys, deps, current)| && next == Dependants(keys, deps, current)[i]
    requires next in incoming && incoming[next] == 1
    ensures Reached(keys, deps, seen + [next], level[next := level[current] + 1])
    ensures Below(level[next := level[current] + 1], seen + [next], level[current] + 1)
  {
    hide Levelled, Pending, Dependants;
    NextIsWaiting(keys, deps, incoming, Elements(done), current, seen, i);
    OpenAfterEdge(keys, deps, incoming, Elements(done), current, seen, i);
    ReadyAfterEdge(keys, deps, incoming[next := 0], Elements(done), current, seen + [next], i + 1, next);
    forall x | x in seen
      ensures forall d :: DependsOn(keys, deps, x, d) ==> d in Elements(done) + {current}
    {
      ReadyAfterEdge(keys, deps, incoming, Elements(done), current, seen, i, x);
    }
    DoneBelow(seen, done, current, level);
    PushReached(keys, deps, seen, level, Elements(done), current, next);
  }

  lemma FinishEdge(keys: seq<Key>, deps: seq<Edge>, incoming: map<Key, int>, done: seq<Key>, current: Key,
                   seen: seq<Key>, level: map<Key, nat>, i: nat) returns (level': map<Key, nat>)
    requires Finishing(keys, deps, incoming, done, current, seen, level, i)
    requires i < |Dependants(keys, deps, current)|
    ensures var next := Dependants(keys, deps, current)[i];
            && next in incoming
            && Finishing(keys, deps, incoming[next := incoming[next] - 1], done, current,
                         if incoming[next] == 1 then seen + [next] else seen, level', i + 1)
  {
    hide Open, Reached, Dependants, Below;
    var next := Dependants(keys, deps, current)[i];
    OpenAfterEdge(keys, deps, incoming, Elements(done), current, seen, i);
    level' := level;
    if incoming[next] == 1 {
      level' := level[next := level[current] + 1];
      JoinQueue(keys, deps, incoming, done, current, seen, level, i, next);
      KeepsCurrent(keys, deps, incoming, done, current, seen, level, i, next);
    }
  }

  lemma KeepsCurrent(keys: seq<Key>, deps: seq<Edge>, incoming: map<Key, int>, done: seq<Key>, current: Key,
                     seen: seq<Key>, level: map<Key, nat>, i: nat, next: Key)
    requires Finishing(keys, deps, incoming, done, current, seen, level, i)
    requires i < |Dependants(keys, deps, current)| && next == Dependants(keys, deps, current)[i]
    ensures next != current && done + [current] <= seen + [next]
  {
    NextIsWaiting(keys, deps, incoming, Elements(done), current, seen, i);
    assert seen[|done|] == current;
  }

  lemma EndFinishing(keys: seq<Key>, deps: seq<Edge>, incoming: map<Key, int>, done: seq<Key>, current: Key,
                     queue: seq<Key>, level: map<Key, nat>)
    requires Finishing(keys, deps, incoming, done, current, done + [current] + queue, level,
                       |Dependants(keys, deps, current)|)
    ensures Frontier(keys, deps, incoming, done + [current], queue, level)
  {
    var seen, outs := done + [current] + queue, Dependants(keys, deps, current);
    assert outs[..|outs|] == outs;
    assert Elements(done + [current]) == Elements(done) + {current};
    forall k | k in keys
      ensures incoming[k] == Pending(keys, deps, k, Elements(done + [current]))
    {
      PendingAfter(keys, deps, k, Elements(done), current);
    }
    if queue != [] {
      assert seen[|done|] == current && seen[|done| + 1] == queue[0];
      assert queue[0] in Elements(seen);
    }
  }

  /** All keys ordered: the result is a dependency order. */
  lemma Complete(keys: seq<Key>, deps: seq<Edge>, incoming: map<Key, int>, ordered: seq<Key>, level: map<Key, nat>)
    requires Distinct(keys) && Frontier(keys, deps, incoming, ordered, [], level) && |ordered| == |keys|
    ensures TopologicalSort(keys, deps, ordered) && ByDepth(keys, deps, ordered) && Acyclic(keys, deps)
  {
    assert ordered + [] == ordered;
    DistinctWithin(ordered, keys);
    SortedIsAcyclic(keys, deps, ordered);
    ReachedByDepth(keys, deps, ordered, level);
  }

  /** The queue ran dry early: every key left over waits for another one that is left over. */
  lemma Incomplete(keys: seq<Key>, deps: seq<Edge>, incoming: map<Key, int>, ordered: seq<Key>, level: map<Key, nat>)
    requires Distinct(keys) && Frontier(keys, deps, incoming, ordered, [], level) && |ordered| != |keys|
    ensures !Acyclic(keys, deps)
  {
    assert ordered + [] == ordered;
    var left := Elements(keys) - Elements(ordered);
    if left == {} {
      forall k | k in keys ensures k in ordered { assert k in Elements(keys) && k !in left; }
      DistinctWithin(ordered, keys);
      DistinctWithin(keys, ordered);
    }
    forall k | k in left
      ensures WaitsWithin(keys, deps, left, k)
    {
      PendingZero(keys, deps, k, Elements(ordered));
      var e :| e in deps && Counts(keys, e, k, Elements(ordered));
      assert e.dependsOnKey in left && DependsOn(keys, deps, k, e.dependsOnKey);
    }
    LeftoverCycle(keys, deps, left);
  }

  // ----- the algorithm -----

  ghost predicate Counted(keys: seq<Key>, deps: seq<Edge>, incoming: map<Key, int>, outgoing: map<Key, seq<Key>>) {
    && incoming.Keys == outgoing.Keys == Elements(keys)
    && (forall k :: k in keys ==> incoming[k] == Pending(keys, deps, k, {}))
    && (forall k :: k in keys ==> outgoing[k] == Dependants(keys, deps, k))
  }

  lemma OneMoreEdge(keys: seq<Key>, deps: seq<Edge>, i: nat, incoming: map<Key, int>, outgoing: map<Key, seq<Key>>)
    requires i < |deps| && Counted(keys, deps[..i], incoming, outgoing)
    ensures var e := deps[i];
            if e.actionKey in keys && e.dependsOnKey in keys then
              Counted(keys, deps[..i + 1], incoming[e.actionKey := incoming[e.actionKey] + 1],
                      outgoing[e.dependsOnKey := outgoing[e.dependsOnKey] + [e.actionKey]])
            else Counted(keys, deps[..i + 1], incoming, outgoing)
  {
    assert deps[..i + 1][..i] == deps[..i];
  }

  /** The edges, counted by action and listed by dependency. */
  method CountEdges(keys: seq<Key>, deps: seq<Edge>) returns (incoming: map<Key, int>, outgoing: map<Key, seq<Key>>)
    ensures incoming.Keys == outgoing.Keys == Elements(keys)
    ensures forall k :: k in keys ==> incoming[k] == Pending(keys, deps, k, {})
    ensures forall k :: k in keys ==> outgoing[k] == Dependants(keys, deps, k)
  {
    incoming, outgoing := map[], map[];
    for i := 0 to |keys|
      invariant incoming.Keys == outgoing.Keys == Elements(keys[..i])
      invariant forall k :: k in incoming ==> incoming[k] == 0 && outgoing[k] == []
    {
      incoming, outgoing := incoming[keys[i] := 0], outgoing[keys[i] := []];
      assert keys[..i + 1] == keys[..i] + [keys[i]];
    }
    assert keys[..|keys|] == keys;
    assert deps[..0] == [];
    for i := 0 to |deps|
      invariant Counted(keys, deps[..i], incoming, outgoing)
    {
      var e := deps[i];
      OneMoreEdge(keys, deps, i, incoming, outgoing);
      if e.actionKey in keys && e.dependsOnKey in keys {
        outgoing := outgoing[e.dependsOnKey := outgoing[e.dependsOnKey] + [e.actionKey]];
        incoming := incoming[e.actionKey := incoming[e.actionKey] + 1];
      }
    }
    assert deps[..|deps|] == deps;
  }

  /** Takes the edges of the key just ordered off the counts and queues the keys that become ready. */
  method FinishCurrent(ghost keys: seq<Key>, ghost deps: seq<Edge>, outs: seq<Key>, incoming0: map<Key, int>,
                       ghost done: seq<Key>, current: Key, queue0: seq<Key>, ghost level0: map<Key, nat>)
    returns (incoming: map<Key, int>, queue: seq<Key>, ghost level: map<Key, nat>)
    requires incoming0.Keys == Elements(keys) && forall k :: k in queue0 ==> k in keys
    requires outs == Dependants(keys, deps, current)
    requires Distinct(keys) ==>
               Finishing(keys, deps, incoming0, done, current, done + [current] + queue0, level0, 0)
    ensures incoming.Keys == Elements(keys) && forall k :: k in queue ==> k in keys
    ensures queue0 <= queue
    ensures |queue| + |Waiting(incoming)| <= |queue0| + |Waiting(incoming0)|
    ensures Distinct(keys) ==> Frontier(keys, deps, incoming, done + [current], queue, level)
  {
    hide Finishing, Frontier;
    incoming, queue, level := incoming0, queue0, level0;
    DependantsInKeys(keys, deps, current);
    for i := 0 to |outs|
      invariant incoming.Keys == Elements(keys) && forall k :: k in queue ==> k in keys
      invariant queue0 <= queue
      invariant |queue| + |Waiting(incoming)| <= |queue0| + |Waiting(incoming0)|
      invariant Distinct(keys) ==>
                  Finishing(keys, deps, incoming, done, current, done + [current] + queue, level, i)
    {
      var next := outs[i];
      assert next in outs;
      var remaining := incoming[next] - 1;
      if Distinct(keys) {
        level := FinishEdge(keys, deps, incoming, done, current, done + [current] + queue, level, i);
      }
      WaitingAfter(incoming, next);
      incoming := incoming[next := remaining];
      if remaining == 0 {
        assert done + [current] + (queue + [next]) == done + [current] + queue + [next];
        queue := queue + [next];
      }
    }
    if Distinct(keys) {
      EndFinishing(keys, deps, incoming, done, current, queue, level);
    }
  }

  lemma FirstWave(keys: seq<Key>, deps: seq<Edge>, incoming: map<Key, int>)
    requires incoming.Keys == Elements(keys)
    requires forall k :: k in keys ==> incoming[k] == Pending(keys, deps, k, {})
    ensures forall k :: k in Ready(keys, incoming) ==> k in keys
    ensures NoInternalEdges(keys, deps) ==> Ready(keys, incoming) == keys
    ensures var queue := Ready(keys, incoming);
            Distinct(keys) ==> Frontier(keys, deps, incoming, [], queue, map k | k in queue :: 0)
  {
    ReadyElements(keys, incoming);
    if NoInternalEdges(keys, deps) {
      forall k | k in keys ensures incoming[k] == 0 { PendingZero(keys, deps, k, {}); }
      ReadyAll(keys, incoming);
    }
    if Distinct(keys) {
      FirstFrontier(keys, deps, incoming);
    }
    hide Ready, Frontier, Pending, Distinct;
  }

  lemma FirstFrontier(keys: seq<Key>, deps: seq<Edge>, incoming: map<Key, int>)
    requires Distinct(keys) && incoming.Keys == Elements(keys)
    requires forall k :: k in keys ==> incoming[k] == Pending(keys, deps, k, {})
    ensures var queue := Ready(keys, incoming);
            Frontier(keys, deps, incoming, [], queue, map k | k in queue :: 0)
  {
    hide Ready, Reached, Distinct;
    var queue := Ready(keys, incoming);
    ReadyDistinct(keys, incoming);
    FirstOpen(keys, deps, incoming);
    var level := map k | k in queue :: 0;
    InitialReached(keys, deps, incoming, queue, level);
    hide *;
    AllQueued(keys, deps, incoming, queue, level);
  }

  lemma AllQueued(keys: seq<Key>, deps: seq<Edge>, incoming: map<Key, int>, queue: seq<Key>, level: map<Key, nat>)
    requires Reached(keys, deps, queue, level) && Open(keys, deps, incoming, {}, multiset{}, queue)
    requires level == map k | k in queue :: 0
    ensures Frontier(keys, deps, incoming, [], queue, level)
  {
    hide Reached, Open;
    assert [] + queue == queue && Elements<Key>([]) == {};
  }

  lemma FirstOpen(keys: seq<Key>, deps: seq<Edge>, incoming: map<Key, int>)
    requires incoming.Keys == Elements(keys)
    requires forall k :: k in keys ==> incoming[k] == Pending(keys, deps, k, {})
    ensures Open(keys, deps, incoming, {}, multiset{}, Ready(keys, incoming))
    ensures forall k :: k in Ready(keys, incoming) ==> k in keys
  {
    ReadyElements(keys, incoming);
    hide Ready, Pending;
  }

  lemma Verdict(keys: seq<Key>, deps: seq<Edge>, incoming: map<Key, int>, ordered: seq<Key>, level: map<Key, nat>)
    requires Distinct(keys) && Frontier(keys, deps, incoming, ordered, [], level)
    ensures |ordered| == |keys| <==> Acyclic(keys, deps)
    ensures |ordered| == |keys| ==> TopologicalSort(keys, deps, ordered) && ByDepth(keys, deps, ordered)
    ensures keys <= ordered ==> ordered == keys
  {
    assert ordered + [] == ordered;
    DistinctWithin(ordered, keys);
    if |ordered| == |keys| {
      Complete(keys, deps, incoming, ordered, level);
    } else {
      Incomplete(keys, deps, incoming, ordered, level);
    }
  }

  lemma StillFirst(roots: seq<Key>, ordered: seq<Key>, queue: seq<Key>, longer: seq<Key>)
    requires queue != [] && roots <= ordered + queue && queue[1..] <= longer
    ensures roots <= ordered + [queue[0]] + longer
  {
    assert ordered + [queue[0]] + longer == ordered + queue + longer[|queue| - 1..];
  }

  /** For distinct keys: an order is returned exactly when there is no cycle, and it is a dependency order in which
      the depth of dependency chains never falls; without dependencies the input order is kept. */
  method TopologicalOrder(keys: seq<Key>, deps: seq<Edge>) returns (r: OrderResult)
    ensures Distinct(keys) ==> (r.Ordered? <==> Acyclic(keys, deps))
    ensures Distinct(keys) && r.Ordered? ==> TopologicalSort(keys, deps, r.order) && ByDepth(keys, deps, r.order)
    ensures Distinct(keys) && NoInternalEdges(keys, deps) ==> r == Ordered(keys)
  {
    hide Finishing, Frontier, NoInternalEdges, TopologicalSort, ByDepth, Acyclic, Distinct, Ready, Pending, Dependants, Waiting;
    var incoming, outgoing := CountEdges(keys, deps);
    var queue, ordered: seq<Key> := Ready(keys, incoming), [];
    ghost var roots, level := queue, map k | k in queue :: 0;
    FirstWave(keys, deps, incoming);
    while queue != []
      invariant incoming.Keys == outgoing.Keys == Elements(keys)
      invariant forall k :: k in queue ==> k in keys
      invariant forall k :: k in keys ==> outgoing[k] == Dependants(keys, deps, k)
      invariant roots <= ordered + queue
      invariant Distinct(keys) ==> Frontier(keys, deps, incoming, ordered, queue, level)
      decreases |queue| + |Waiting(incoming)|
    {
      var current := queue[0];
      if Distinct(keys) {
        StartFinishing(keys, deps, incoming, ordered, queue, level);
      }
      ghost var before := queue;
      incoming, queue, level :=
        FinishCurrent(keys, deps, outgoing[current], incoming, ordered, current, queue[1..], level);
      StillFirst(roots, ordered, before, queue);
      ordered := ordered + [current];
    }
    assert ordered + queue == ordered;
    if Distinct(keys) {
      Verdict(keys, deps, incoming, ordered, level);
    }
    if |ordered| != |keys| {
      return CyclicDependency;
    }
    return Ordered(ordered);
  }
}
