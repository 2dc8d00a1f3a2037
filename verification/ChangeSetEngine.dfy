/** Generating and finalizing a change set (apps/worker/src/changeset-processor.ts), one processor at a time, while the
    API goes on deciding. Every awaited operation may fail, before or after it has had its effect, and the worker may
    crash at any of them. */
module ChangeSetEngine {
  import opened ChangeSets
  import opened DraftMerging
  import opened Options
  import opened Sequences

  datatype Fate = Fine | FailsBefore | FailsAfter | Crashes

  /** What happens at the k-th awaited operation: its fate, and the API calls served before it. `arrange` is the order in
      which the database lists accepted rows. */
  datatype Surroundings = Surroundings(fate: nat -> Fate, calls: nat -> seq<Call>, arrange: seq<Row> -> seq<Row>)

  datatype Ended = Done | Threw | Crashed

  /** The rows in the given order, if it is one. */
  function Arranged(arrange: seq<Row> -> seq<Row>, rows: seq<Row>): seq<Row> {
    if multiset(arrange(rows)) == multiset(rows) then arrange(rows) else rows
  }

  /** No write of the counts by the API is lost. */
  ghost predicate MadeAll(env: Surroundings) {
    forall k :: Made(env.calls(k))
  }

  ghost predicate AllFine(env: Surroundings) {
    forall k :: env.fate(k) == Fine
  }

  /** Nothing fails, except that the write of the completeness may. */
  ghost predicate Calm(env: Surroundings) {
    && (env.fate(13) == Fine || env.fate(13) == FailsBefore)
    && forall k :: k != 13 ==> env.fate(k) == Fine
  }

  /** The rows that a finalization finds decided. */
  function ReviewedRows(rows: seq<Row>, env: Surroundings): seq<Row> {
    Settle(DecidedAll(DecidedAll(DecidedAll(rows, env.calls(0)), env.calls(1)), env.calls(3)), SKIPPED)
  }

  /** The change set as the database keeps it. */
  class Store {
    const engine: Engine
    const plan: seq<PlanAction>
    const base: Tree
    var status: Status
    var rows: seq<Row>
    var counts: Counts
    var completeness: Option<Completeness>
    var revision: Option<Revision>
    var artifact: Option<Tree>
    var events: seq<Event>
    ghost var stale: bool

    ghost function Value(): ChangeSet
      reads this
    {
      ChangeSet(status, rows, counts, stale, completeness, revision, artifact, events)
    }

    ghost predicate Valid()
      reads this
    {
      Sound(engine, plan, base, Value())
    }

    constructor (engine: Engine, plan: seq<PlanAction>, base: Tree)
      ensures this.engine == engine && this.plan == plan && this.base == base
      ensures Valid() && Value() == QUEUED_CHANGE_SET
    {
      this.engine, this.plan, this.base := engine, plan, base;
      status, rows, counts, completeness, revision, artifact := QUEUED, [], Counts(0, 0, 0, 0, 0, 0), None, None, None;
      events, stale := [], false;
    }

    method Transition(from: Status, to: Status) returns (accepted: bool)
      modifies this`status, this`events
      ensures accepted == Allowed(from, to)
      ensures Value() == if accepted then Moved(old(Value()), from, to) else old(Value())
    {
      accepted := Allowed(from, to);
      if accepted {
        status, events := to, events + [Event(from, to)];
      }
    }

    method PersistGenerated(generated: seq<Row>)
      modifies this`rows, this`counts, this`stale
      ensures Value() == Persisted(old(Value()), generated)
    {
      rows := generated;
      counts := Counts(|generated|, CountOf(generated, PROPOSED), 0, 0, CountOf(generated, SKIPPED), CountOf(generated, UNUSABLE));
      stale := false;
    }

    /** The counts written again, unless that write is lost. */
    method RefreshCounts(made: bool)
      modifies this`counts, this`stale
      ensures Value() == Refreshed(old(Value()), made)
    {
      if made {
        counts := CountsOf(rows).(total := counts.total);
      }
      stale := !made;
    }

    method SetChangeStatus(i: nat, verdict: Verdict, made: bool) returns (updated: bool)
      modifies this`rows, this`counts, this`stale
      ensures updated <==> i < |old(rows)| && old(rows)[i].verdict == PROPOSED
      ensures Value() == Decided(old(Value()), i, verdict, made)
    {
      updated := i < |rows| && rows[i].verdict == PROPOSED;
      if updated {
        rows := rows[i := rows[i].(verdict := verdict)];
        RefreshCounts(made);
      }
    }

    /** `acceptAllProposed` and `skipRemainingProposed`. */
    method SettleProposed(verdict: Verdict, made: bool) returns (count: nat)
      modifies this`rows, this`counts, this`stale
      ensures count == CountOf(old(rows), PROPOSED)
      ensures Value() == Settled(old(Value()), verdict, made)
    {
      count := CountOf(rows, PROPOSED);
      rows := Settle(rows, verdict);
      RefreshCounts(made);
    }

    /** The accepted rows, in the order the database happens to give. */
    method ListAccepted(arrange: seq<Row> -> seq<Row>) returns (accepted: seq<Row>)
      ensures accepted == Arranged(arrange, AcceptedRows(rows))
      ensures multiset(accepted) == multiset(AcceptedRows(rows))
    {
      accepted := AcceptedRows(rows);
      if multiset(arrange(accepted)) == multiset(accepted) {
        accepted := arrange(accepted);
      }
    }

    // ----- the API -----

    /** One call of the API; `refused` when it answers with a conflict. */
    method Serve(call: Call) returns (refused: bool)
      modifies this
      ensures Value() == Called(old(Value()), call)
      ensures refused ==> Value() == old(Value())
    {
      refused := false;
      match call
      case Decide(i, accept, made) =>
        refused := status != READY_FOR_REVIEW;
        if !refused {
          var updated := SetChangeStatus(i, if accept then ACCEPTED else REJECTED, made);
          refused := !updated;
        }
      case AcceptAll(made) =>
        refused := status != READY_FOR_REVIEW;
        if !refused {
          var _ := SettleProposed(ACCEPTED, made);
        }
      case Rollback =>
        refused := status != FINALIZED;
        if !refused {
          var accepted := Transition(FINALIZED, ROLLED_BACK);
        }
    }

    method ServeAll(calls: seq<Call>)
      modifies this
      ensures Value() == CalledAll(old(Value()), calls)
    {
      for i := 0 to |calls|
        invariant Value() == CalledAll(old(Value()), calls[..i])
      {
        assert calls[..i + 1][..i] == calls[..i];
        var _ := Serve(calls[i]);
      }
      assert calls[..|calls|] == calls;
    }
  }

  // ----- awaiting -----

  function Stop(fate: Fate): Ended {
    if fate == Crashes then Crashed else Threw
  }

  /** The API is served until the k-th operation gets its turn. */
  method Await(store: Store, env: Surroundings, k: nat) returns (fate: Fate)
    requires store.Valid()
    modifies store
    ensures store.Valid() && fate == env.fate(k)
    ensures store.Value() == CalledAll(old(store.Value()), env.calls(k))
    ensures Evolves(old(store.rows), store.rows)
    ensures store.status == old(store.status) || (old(store.status) == FINALIZED && store.status == ROLLED_BACK)
    ensures store.completeness == old(store.completeness) && store.revision == old(store.revision)
    ensures store.artifact == old(store.artifact)
    ensures old(store.status) == READY_FOR_REVIEW ==> store.rows == DecidedAll(old(store.rows), env.calls(k))
    ensures !old(store.stale) && Made(env.calls(k)) ==> !store.stale
    ensures old(store.status) != READY_FOR_REVIEW && old(store.status) != FINALIZED ==> store.Value() == old(store.Value())
  {
    ghost var before := store.Value();
    CallsKeepSound(store.engine, store.plan, store.base, before, env.calls(k));
    CallsKeepReview(before, env.calls(k));
    if before.status == READY_FOR_REVIEW {
      CallsOnRows(before, env.calls(k));
    }
    if !before.stale && Made(env.calls(k)) {
      MadeStaysFresh(before, env.calls(k));
    }
    if before.status != READY_FOR_REVIEW && before.status != FINALIZED {
      CallsRefused(before, env.calls(k));
    }
    hide Sound, Evolves, CalledAll, DecidedAll, Made;
    store.ServeAll(env.calls(k));
    fate := env.fate(k);
  }

  /** Awaits a transition. The status claimed is the one stored: nobody else moves an unfinished change set. */
  method Claim(store: Store, env: Surroundings, k: nat, from: Status, to: Status) returns (ended: Ended)
    requires store.Valid() && store.status == from && from != FINALIZED
    requires Allowed(from, to) ==>
               MayEnter(store.engine, store.plan, store.base, CalledAll(store.Value(), env.calls(k)), to)
    modifies store
    ensures store.Valid() && Evolves(old(store.rows), store.rows)
    ensures var s := CalledAll(old(store.Value()), env.calls(k));
            && (store.Value() == s || (Allowed(from, to) && store.Value() == Moved(s, from, to)))
            && s.status == from && (env.fate(k) == Fine && Allowed(from, to) ==> ended == Done)
            && (ended == Done ==> Allowed(from, to) && store.Value() == Moved(s, from, to))
            && (env.fate(k) == Fine && !Allowed(from, to) ==> ended == Threw)
    ensures store.completeness == old(store.completeness) && store.revision == old(store.revision)
    ensures store.artifact == old(store.artifact)
    ensures !old(store.stale) && Made(env.calls(k)) ==> !store.stale
    ensures from != READY_FOR_REVIEW ==> CalledAll(old(store.Value()), env.calls(k)) == old(store.Value())
  {
    var fate := Await(store, env, k);
    hide Sound, MayEnter, Evolves, CalledAll;
    if fate == Crashes || fate == FailsBefore {
      return Stop(fate);
    }
    ghost var s := store.Value();
    var accepted := store.Transition(from, to);
    if accepted {
      MoveKeepsSound(store.engine, store.plan, store.base, s, to);
    }
    ended := if accepted && fate == Fine then Done else Threw;
  }

  // ----- generating -----

  function Skip(action: PlanAction, filePath: string): Row {
    Row(action.id, filePath, SKIPPED, None, None)
  }

  /** The row of a safe action; none when a patcher throws. */
  function RowFor(engine: Engine, tree: Tree, action: PlanAction): Option<Row> {
    var paths := UniqueBy(Identity, action.files);
    if |paths| != 1 then Some(Skip(action, if action.files == [] then "" else action.files[0]))
    else if !engine.contained(paths[0]) || paths[0] !in tree || engine.tooLarge(tree[paths[0]]) then
      Some(Skip(action, paths[0]))
    else
      match engine.generate(action, paths[0], tree[paths[0]])
      case Patched(_, source, target) => Some(Row(action.id, paths[0], PROPOSED, Some(source), Some(target)))
      case Declined => Some(Skip(action, paths[0]))
      case Raised => None
  }

  function RowsFor(engine: Engine, tree: Tree, plan: seq<PlanAction>): Option<seq<Row>> {
    if plan == [] then Some([])
    else
      var before, last := RowsFor(engine, tree, plan[..|plan| - 1]), plan[|plan| - 1];
      if before.None? || last.level != SAFE_AUTOMATIC then before
      else
        var row := RowFor(engine, tree, last);
        if row.None? then None else Some(before.value + [row.value])
  }

  /** One row for every safe action, in the order of the plan, none of them decided. */
  lemma {:induction false} RowsForPlan(engine: Engine, tree: Tree, plan: seq<PlanAction>)
    requires RowsFor(engine, tree, plan).Some?
    ensures var rows := RowsFor(engine, tree, plan).value;
            && ActionIds(rows) == SafeIds(plan)
            && forall r :: r in rows ==> r.verdict == PROPOSED || r.verdict == SKIPPED
  {
    if plan != [] {
      RowsForPlan(engine, tree, plan[..|plan| - 1]);
      var before := RowsFor(engine, tree, plan[..|plan| - 1]).value;
      var rows := RowsFor(engine, tree, plan).value;
      assert plan[|plan| - 1].level == SAFE_AUTOMATIC ==> ActionIds(rows) == ActionIds(before) + [plan[|plan| - 1].id];
    }
  }

  lemma UniquePaths(files: seq<string>)
    ensures var paths := UniqueBy(Identity, files);
            && (forall f :: f in paths <==> f in files)
            && (|paths| > 1 ==> paths[0] != paths[1])
  {
    var paths := UniqueBy(Identity, files);
    UniqueMembers(files);
    UniqueByDistinct(Identity<string>, files);
    hide UniqueBy;
    assert |paths| > 1 ==> Identity(paths[0]) != Identity(paths[1]);
  }

  lemma OnlyFileIs(a: PlanAction, path: string)
    ensures OnlyFile(a, path) <==> |UniqueBy(Identity, a.files)| == 1 && UniqueBy(Identity, a.files)[0] == path
    ensures |UniqueBy(Identity, a.files)| == 1 ==> a.files != [] && UniqueBy(Identity, a.files)[0] == a.files[0]
  {
    var paths := UniqueBy(Identity, a.files);
    UniquePaths(a.files);
    hide UniqueBy;
    if |paths| == 1 {
      assert paths[0] in paths && (a.files != [] ==> a.files[0] in a.files);
    }
    if OnlyFile(a, path) {
      assert path in paths;
      forall i | 0 <= i < |paths|
        ensures paths[i] == path
      {
        assert paths[i] in paths && paths[i] in a.files;
      }
    }
  }

  lemma RowForFits(engine: Engine, tree: Tree, a: PlanAction)
    ensures var row := RowFor(engine, tree, a);
            && (row.Some? ==> RowFits(engine, tree, a, row.value))
            && (row.None? <==> exists path :: Patchable(engine, tree, a, path) && engine.generate(a, path, tree[path]).Raised?)
  {
    var paths := UniqueBy(Identity, a.files);
    forall path
      ensures OnlyFile(a, path) <==> |paths| == 1 && paths[0] == path
    {
      OnlyFileIs(a, path);
    }
    OnlyFileIs(a, "");
    hide UniqueBy, OnlyFile;
    if |paths| == 1 {
      assert OnlyFile(a, paths[0]);
    }
  }

  lemma SafeActionsLast(before: seq<PlanAction>, last: PlanAction)
    ensures SafeActions(before + [last]) == SafeActions(before) + if last.level == SAFE_AUTOMATIC then [last] else []
  {
    FilterAppend((a: PlanAction) => a.level == SAFE_AUTOMATIC, before, [last]);
    assert [last][1..] == [];
  }

  /** The rows of the plan, and when there are none. */
  lemma {:induction false} RowsForFit(engine: Engine, tree: Tree, plan: seq<PlanAction>)
    ensures var rows := RowsFor(engine, tree, plan);
            && (rows.Some? ==> RowsFit(engine, tree, plan, rows.value))
            && (rows.None? <==> Raises(engine, tree, plan))
  {
    if plan != [] {
      var before, last := plan[..|plan| - 1], plan[|plan| - 1];
      RowsForFit(engine, tree, before);
      RowForFits(engine, tree, last);
      assert plan == before + [last];
      SafeActionsLast(before, last);
      RaisesLast(engine, tree, before, last);
      hide RowFor, RowFits, SafeActions, Raises, Patchable;
    }
  }

  lemma RaisesLast(engine: Engine, tree: Tree, before: seq<PlanAction>, last: PlanAction)
    ensures Raises(engine, tree, before + [last]) <==>
              Raises(engine, tree, before) || (last.level == SAFE_AUTOMATIC &&
                exists path :: Patchable(engine, tree, last, path) && engine.generate(last, path, tree[path]).Raised?)
  {
    hide OnlyFile;
    assert last in before + [last] && forall a :: a in before ==> a in before + [last];
  }

  lemma FitFromPlan(engine: Engine, plan: seq<PlanAction>, base: Tree, rows: seq<Row>)
    requires RowsFit(engine, base, plan, rows)
    ensures FromPlan(engine, plan, base, rows)
  {
    hide RowsFit;
    assert Evolves(rows, rows);
  }

  method GenerateRows(engine: Engine, tree: Tree, plan: seq<PlanAction>) returns (generated: Option<seq<Row>>)
    ensures generated == RowsFor(engine, tree, plan)
    ensures generated.None? <==> Raises(engine, tree, plan)
    ensures generated.Some? ==> RowsFit(engine, tree, plan, generated.value)
  {
    RowsForFit(engine, tree, plan);
    hide Raises, RowsFit;
    var rows: seq<Row> := [];
    for i := 0 to |plan|
      invariant RowsFor(engine, tree, plan[..i]) == Some(rows)
    {
      assert plan[..i + 1][..i] == plan[..i];
      if plan[i].level == SAFE_AUTOMATIC {
        var row := RowFor(engine, tree, plan[i]);
        if row.None? {
          RaisedStays(engine, tree, plan, i + 1);
          return None;
        }
        rows := rows + [row.value];
      }
    }
    assert plan[..|plan|] == plan;
    return Some(rows);
  }

  lemma {:induction false} RaisedStays(engine: Engine, tree: Tree, plan: seq<PlanAction>, i: nat)
    requires i <= |plan| && RowsFor(engine, tree, plan[..i]).None?
    ensures RowsFor(engine, tree, plan).None?
    decreases |plan| - i
  {
    if i < |plan| {
      assert plan[..i + 1][..i] == plan[..i];
      RaisedStays(engine, tree, plan, i + 1);
    } else {
      assert plan[..i] == plan;
    }
  }

  lemma PersistKeepsSound(store: Store, s: ChangeSet, rows: seq<Row>)
    requires Sound(store.engine, store.plan, store.base, s) && !Reviewable(s.status)
    requires RowsFor(store.engine, store.base, store.plan) == Some(rows)
    ensures Sound(store.engine, store.plan, store.base, Persisted(s, rows))
    ensures MayEnter(store.engine, store.plan, store.base, Persisted(s, rows), READY_FOR_REVIEW)
  {
    RowsForPlan(store.engine, store.base, store.plan);
    RowsForFit(store.engine, store.base, store.plan);
    FitFromPlan(store.engine, store.plan, store.base, rows);
    PersistedCounts(s, rows);
    hide CountOf, RowsFor, Logged, FromPlan, RowsFit;
  }

  /** From the materialized tree to rows ready for review. */
  method Generate(store: Store, env: Surroundings) returns (ended: Ended)
    requires store.Valid() && (store.status == MATERIALIZING || store.status == GENERATING)
    modifies store
    ensures store.Valid()
    ensures store.completeness == old(store.completeness) && store.revision == old(store.revision)
    ensures store.artifact == old(store.artifact)
    ensures !old(store.stale) && MadeAll(env) ==> !store.stale
    ensures ended == Done ==>
              && store.status == READY_FOR_REVIEW && RowsFor(store.engine, store.base, store.plan) == Some(store.rows)
              && !store.stale
    ensures AllFine(env) ==>
              if Raises(store.engine, store.base, store.plan) then ended == Threw && store.status == GENERATING else ended == Done
  {
    hide Sound, CalledAll, RowsFor, Evolves, Made, Raises, RowsFit;
    var fate := Await(store, env, 7);
    if fate != Fine {
      return Stop(fate);
    }
    fate := Await(store, env, 8);
    if fate != Fine {
      return Stop(fate);
    }
    if store.status == MATERIALIZING {
      ended := Claim(store, env, 9, MATERIALIZING, GENERATING);
      if ended != Done {
        return;
      }
    }
    fate := Await(store, env, 10);
    if fate == Crashes {
      return Crashed;
    }
    var generated := GenerateRows(store.engine, store.base, store.plan);
    if generated.None? {
      return Threw;
    }
    fate := Await(store, env, 11);
    if fate == Crashes || fate == FailsBefore {
      return Stop(fate);
    }
    PersistKeepsSound(store, store.Value(), generated.value);
    store.PersistGenerated(generated.value);
    if fate == FailsAfter {
      return Threw;
    }
    CallsRefused(store.Value(), env.calls(12));
    ended := Claim(store, env, 12, GENERATING, READY_FOR_REVIEW);
  }

  /** An error inside the generation: an unfinished change set is marked as failed. */
  method CatchGenerate(store: Store, env: Surroundings) returns (ended: Ended)
    requires store.Valid()
    modifies store
    ensures store.Valid() && ended != Done
    ensures store.completeness == old(store.completeness) && store.revision == old(store.revision)
    ensures store.artifact == old(store.artifact)
    ensures !old(store.stale) && MadeAll(env) ==> !store.stale
    ensures AllFine(env) && old(store.status) == GENERATING ==> store.status == FAILED && ended == Threw
  {
    hide Sound, CalledAll, Evolves, Made;
    var fate := Await(store, env, 13);
    if fate != Fine {
      return Stop(fate);
    }
    if store.status == QUEUED || store.status == MATERIALIZING || store.status == GENERATING {
      var failed := Claim(store, env, 14, store.status, FAILED);
      if failed == Crashed {
        return Crashed;
      }
    }
    return Threw;
  }

  /** A repository at another commit than the plan: the change set fails. */
  method FailMismatch(store: Store, env: Surroundings, k: nat) returns (ended: Ended)
    requires store.Valid() && store.status != FINALIZED
    modifies store
    ensures store.Valid() && ended != Done && Evolves(old(store.rows), store.rows)
    ensures store.completeness == old(store.completeness) && store.revision == old(store.revision)
    ensures store.artifact == old(store.artifact)
    ensures !old(store.stale) && MadeAll(env) ==> !store.stale
    ensures AllFine(env) && !Reviewable(old(store.status)) ==> store.status == FAILED && ended == Threw
  {
    hide Sound, CalledAll, Evolves, Made;
    var failed := Claim(store, env, k, store.status, FAILED);
    return if failed == Crashed then Crashed else Threw;
  }

  /** Up to the allocation of a workspace: a failed change set is queued again, a queued one is taken up. */
  method TakeUp(store: Store, env: Surroundings) returns (ended: Ended)
    requires store.Valid() && !Reviewable(store.status)
    modifies store
    ensures store.Valid()
    ensures store.completeness == old(store.completeness) && store.revision == old(store.revision)
    ensures store.artifact == old(store.artifact)
    ensures !old(store.stale) && MadeAll(env) ==> !store.stale
    ensures ended == Done ==> store.status == MATERIALIZING || store.status == GENERATING
    ensures AllFine(env) ==> ended == Done
  {
    hide Sound, CalledAll, Evolves, Made;
    if store.status == FAILED {
      ended := Claim(store, env, 3, FAILED, QUEUED);
      if ended != Done {
        return;
      }
    }
    var fate := Await(store, env, 4);
    if fate != Fine {
      return Stop(fate);
    }
    if store.status == QUEUED {
      ended := Claim(store, env, 5, QUEUED, MATERIALIZING);
      if ended != Done {
        return;
      }
    }
    fate := Await(store, env, 6);
    return if fate == Fine then Done else Stop(fate);
  }

  /** Generation. However it ends, the change set is sound and its revision is not touched; when it is done from an
      unfinished change set, the rows are those of the plan, with the values of the patchers, and the counts are exact; a
      change set under review or later keeps its decisions. The counts stay exact as long as none of their writes is lost.
      When nothing fails it is done, unless a patcher throws or the repository is at another commit: then it has failed. */
  method ProcessGenerate(store: Store, env: Surroundings, mismatch: bool) returns (ended: Ended)
    requires store.Valid()
    modifies store
    ensures store.Valid()
    ensures store.completeness == old(store.completeness) && store.revision == old(store.revision)
    ensures store.artifact == old(store.artifact)
    ensures Reviewable(old(store.status)) ==> Evolves(old(store.rows), store.rows)
    ensures ended == Done && !Reviewable(old(store.status)) ==>
              && store.status == READY_FOR_REVIEW && RowsFor(store.engine, store.base, store.plan) == Some(store.rows)
              && RowsFit(store.engine, store.base, store.plan, store.rows)
              && !store.stale && CountsMean(store.rows, store.counts)
    ensures !old(store.stale) && MadeAll(env) ==> !store.stale && CountsMean(store.rows, store.counts)
    ensures AllFine(env) && !Reviewable(old(store.status)) ==>
              if mismatch || Raises(store.engine, store.base, store.plan) then ended == Threw && store.status == FAILED
              else ended == Done
  {
    FreshIsExact(store);
    RowsForFit(store.engine, store.base, store.plan);
    hide Sound, CalledAll, Evolves, RowsFor, CountsMean, Made, Raises, RowsFit;
    var fate := Await(store, env, 0);
    if fate != Fine {
      return Stop(fate);
    }
    if Reviewable(store.status) {
      return Done;
    }
    fate := Await(store, env, 1);
    if fate != Fine {
      return Stop(fate);
    }
    if mismatch {
      ended := FailMismatch(store, env, 2);
      return;
    }
    ended := TakeUp(store, env);
    if ended != Done {
      return;
    }
    ended := Generate(store, env);
    if ended == Threw {
      ended := CatchGenerate(store, env);
    }
  }

  lemma FreshIsExact(store: Store)
    ensures forall s: ChangeSet ::
              Sound(store.engine, store.plan, store.base, s) && !s.stale ==> CountsMean(s.rows, s.counts)
  {
    forall s: ChangeSet | Sound(store.engine, store.plan, store.base, s) && !s.stale
      ensures CountsMean(s.rows, s.counts)
    {
      CountsAre(s.rows, s.counts);
    }
  }

  // ----- finalizing -----

  lemma {:induction false} RefusedStays(engine: Engine, plan: seq<PlanAction>, tree: Tree, rows: seq<Row>, i: nat)
    requires i <= |rows| && ApplyRows(engine, plan, tree, rows[..i]).None?
    ensures ApplyRows(engine, plan, tree, rows).None?
    decreases |rows| - i
  {
    if i < |rows| {
      assert rows[..i + 1][..i] == rows[..i];
      RefusedStays(engine, plan, tree, rows, i + 1);
    } else {
      assert rows[..i] == rows;
    }
  }

  /** The accepted changes, one after the other, on the working tree. */
  method ApplyAccepted(engine: Engine, plan: seq<PlanAction>, base: Tree, accepted: seq<Row>) returns (tree: Option<Tree>)
    ensures tree == ApplyRows(engine, plan, base, accepted)
  {
    var working := base;
    for i := 0 to |accepted|
      invariant ApplyRows(engine, plan, base, accepted[..i]) == Some(working)
    {
      assert accepted[..i + 1][..i] == accepted[..i];
      var next := ApplyRow(engine, plan, working, accepted[i]);
      if next.None? {
        RefusedStays(engine, plan, base, accepted, i + 1);
        return None;
      }
      working := next.value;
    }
    assert accepted[..|accepted|] == accepted;
    return Some(working);
  }

  lemma MayFinish(store: Store, s: ChangeSet, order: seq<Row>, tree: Tree)
    requires Sound(store.engine, store.plan, store.base, s) && s.status == FINALIZING
    requires multiset(order) == multiset(AcceptedRows(s.rows))
    requires ApplyRows(store.engine, store.plan, store.base, order) == Some(tree)
    requires s.artifact == Some(tree) && s.revision.Some? && s.completeness == Some(CompletenessOf(s.rows))
    ensures MayEnter(store.engine, store.plan, store.base, s, FINALIZED)
  {
    InTurnExactly(store.engine, store.plan, store.base, order, tree);
    hide AcceptedRows, ApplyRows, CountOf, NoneProposed, CompletenessOf, Logged, InTurn, FromPlan;
    assert Applied(store.engine, store.plan, store.base, s.rows, tree);
  }

  /** In a closed review the counts tell whether everything was accepted. */
  lemma CompletenessByCounts(store: Store, s: ChangeSet)
    requires Sound(store.engine, store.plan, store.base, s) && s.status == FINALIZING
    ensures CompletenessOf(s.rows) ==
            if s.counts.rejected == 0 && s.counts.skipped == 0 && s.counts.failed == 0 then COMPLETE else PARTIAL
  {
    AllAcceptedByCounts(s.rows);
    hide CountOf, NoneProposed, AllAccepted, Logged;
  }

  /** Everything but the status, the rows and the counts may differ. */
  lemma OutcomeKeepsSound(store: Store, s: ChangeSet, completeness: Option<Completeness>, revision: Option<Revision>, artifact: Option<Tree>)
    requires Sound(store.engine, store.plan, store.base, s) && s.status == FINALIZING
    ensures Sound(store.engine, store.plan, store.base, s.(completeness := completeness, revision := revision, artifact := artifact))
  {
    hide Logged, CountsOf, NoneProposed, Finished;
  }

  /** The tree that the accepted rows make, in the order in which they are listed. */
  function Built(engine: Engine, plan: seq<PlanAction>, base: Tree, rows: seq<Row>, env: Surroundings): Option<Tree> {
    ApplyRows(engine, plan, base, Arranged(env.arrange, AcceptedRows(rows)))
  }

  /** From the accepted rows to the tree they make; the change set is not touched. */
  method BuildTree(store: Store, env: Surroundings) returns (ended: Ended, tree: Tree)
    requires store.Valid() && store.status == FINALIZING
    modifies store
    ensures store.Value() == old(store.Value())
    ensures ended == Done ==> Built(store.engine, store.plan, store.base, store.rows, env) == Some(tree)
    ensures Calm(env) ==>
              ended == if Built(store.engine, store.plan, store.base, store.rows, env).Some? then Done else Threw
  {
    hide Sound, CalledAll, Evolves, ApplyRows, AcceptedRows, Arranged;
    tree := map[];
    var fate := Await(store, env, 6);
    if fate != Fine {
      return Stop(fate), tree;
    }
    fate := Await(store, env, 7);
    if fate != Fine {
      return Stop(fate), tree;
    }
    var accepted := store.ListAccepted(env.arrange);
    fate := Await(store, env, 8);
    if fate != Fine {
      return Stop(fate), tree;
    }
    var working := ApplyAccepted(store.engine, store.plan, store.base, accepted);
    if working.None? {
      return Threw, tree;
    }
    return Done, working.value;
  }

  /** The revision after a finalization has got that far: one that an earlier attempt has left is not written again. */
  function RevisionAfter(earlier: Option<Revision>, rows: seq<Row>, tree: Tree): Option<Revision> {
    if earlier.Some? then earlier else Some(Revision(CompletenessOf(rows), tree))
  }

  /** From the finished tree to its completeness. */
  method Record(store: Store, env: Surroundings, tree: Tree) returns (ended: Ended)
    requires store.Valid() && store.status == FINALIZING
    modifies store
    ensures store.Valid() && store.status == FINALIZING && store.rows == old(store.rows) && store.stale == old(store.stale)
    ensures old(store.revision).Some? ==> store.revision == old(store.revision)
    ensures ended == Done ==> store.completeness == Some(CompletenessOf(store.rows))
    ensures ended == Done || Calm(env) ==>
              store.artifact == Some(tree) && store.revision == RevisionAfter(old(store.revision), store.rows, tree)
    ensures Calm(env) ==> ended == if env.fate(13) == Fine then Done else Threw
  {
    ghost var s := store.Value();
    CompletenessByCounts(store, s);
    hide Sound, CalledAll, Evolves, CompletenessOf;
    var fate := Await(store, env, 9);
    if fate != Fine {
      return Stop(fate);
    }
    var existing := store.revision;
    fate := Await(store, env, 10);
    if fate == Crashes || fate == FailsBefore {
      return Stop(fate);
    }
    OutcomeKeepsSound(store, s, s.completeness, s.revision, Some(tree));
    store.artifact := Some(tree);
    if fate == FailsAfter {
      return Threw;
    }
    ended := RecordRevision(store, env, tree, existing);
  }

  method RecordRevision(store: Store, env: Surroundings, tree: Tree, existing: Option<Revision>) returns (ended: Ended)
    requires store.Valid() && store.status == FINALIZING && existing == store.revision
    requires CompletenessOf(store.rows) ==
             if store.counts.rejected == 0 && store.counts.skipped == 0 && store.counts.failed == 0 then COMPLETE else PARTIAL
    modifies store
    ensures store.Valid() && store.status == FINALIZING && store.rows == old(store.rows) && store.stale == old(store.stale)
    ensures store.artifact == old(store.artifact)
    ensures old(store.revision).Some? ==> store.revision == old(store.revision)
    ensures ended == Done ==> store.completeness == Some(CompletenessOf(store.rows))
    ensures ended == Done || Calm(env) ==> store.revision == RevisionAfter(old(store.revision), store.rows, tree)
    ensures Calm(env) ==> ended == if env.fate(13) == Fine then Done else Threw
  {
    ghost var s := store.Value();
    hide Sound, CalledAll, Evolves, CompletenessOf;
    var fate := Await(store, env, 11);
    if fate != Fine {
      return Stop(fate);
    }
    var completeness := if store.counts.rejected == 0 && store.counts.skipped == 0 && store.counts.failed == 0
                        then COMPLETE else PARTIAL;
    if existing.None? {
      fate := Await(store, env, 12);
      if fate == Crashes || fate == FailsBefore {
        return Stop(fate);
      }
      OutcomeKeepsSound(store, s, s.completeness, Some(Revision(completeness, tree)), s.artifact);
      store.revision := Some(Revision(completeness, tree));
      if fate == FailsAfter {
        return Threw;
      }
    }
    ended := RecordCompleteness(store, env, completeness);
  }

  method RecordCompleteness(store: Store, env: Surroundings, completeness: Completeness) returns (ended: Ended)
    requires store.Valid() && store.status == FINALIZING
    modifies store
    ensures store.Valid() && store.status == FINALIZING && store.rows == old(store.rows) && store.stale == old(store.stale)
    ensures store.artifact == old(store.artifact) && store.revision == old(store.revision)
    ensures ended == Done ==> store.completeness == Some(completeness)
    ensures Calm(env) ==> ended == if env.fate(13) == Fine then Done else Threw
  {
    ghost var s := store.Value();
    hide Sound, CalledAll, Evolves;
    var fate := Await(store, env, 13);
    if fate == Crashes || fate == FailsBefore {
      return Stop(fate);
    }
    OutcomeKeepsSound(store, s, Some(completeness), s.revision, s.artifact);
    store.completeness := Some(completeness);
    if fate == FailsAfter {
      return Threw;
    }
    fate := Await(store, env, 14);
    return if fate == Fine then Done else Stop(fate);
  }

  /** From the finished tree to FINALIZED. */
  method Publish(store: Store, env: Surroundings, tree: Tree) returns (ended: Ended)
    requires store.Valid() && store.status == FINALIZING
    requires Built(store.engine, store.plan, store.base, store.rows, env) == Some(tree)
    modifies store
    ensures store.Valid() && store.rows == old(store.rows) && store.stale == old(store.stale)
    ensures store.status == FINALIZING || store.status == FINALIZED
    ensures old(store.revision).Some? ==> store.revision == old(store.revision)
    ensures ended == Done ==> store.status == FINALIZED
    ensures ended == Done || Calm(env) ==>
              store.artifact == Some(tree) && store.revision == RevisionAfter(old(store.revision), store.rows, tree)
    ensures Calm(env) ==> ended == if env.fate(13) == Fine then Done else Threw
    ensures Calm(env) && ended == Threw ==> store.status == FINALIZING
  {
    hide Sound, CalledAll, Evolves, ApplyRows, AcceptedRows, MayEnter, CompletenessOf;
    ended := Record(store, env, tree);
    if ended != Done {
      return;
    }
    ghost var s := store.Value();
    MayFinish(store, s, Arranged(env.arrange, AcceptedRows(s.rows)), tree);
    CallsRefused(s, env.calls(15));
    ended := Claim(store, env, 15, FINALIZING, FINALIZED);
  }

  /** An error inside the finalization: the change set is marked as failed, unless it got through after all. */
  method CatchFinalize(store: Store, env: Surroundings) returns (ended: Ended)
    requires store.Valid()
    modifies store
    ensures store.Valid() && ended != Done && Evolves(old(store.rows), store.rows)
    ensures store.completeness == old(store.completeness) && store.revision == old(store.revision)
    ensures store.artifact == old(store.artifact)
    ensures !old(store.stale) && MadeAll(env) ==> !store.stale
    ensures Calm(env) && old(store.status) == FINALIZING ==> store.status == FAILED && store.rows == old(store.rows)
  {
    hide Sound, CalledAll, Made;
    var fate := Await(store, env, 16);
    if fate != Fine {
      return Stop(fate);
    }
    ghost var rows := store.rows;
    if store.status != FAILED && store.status != FINALIZED {
      var failed := Claim(store, env, 17, store.status, FAILED);
      EvolvesTransitive(old(store.rows), rows, store.rows);
      if failed == Crashed {
        return Crashed;
      }
    }
    return Threw;
  }

  lemma SettleKeepsSound(store: Store, s: ChangeSet, made: bool)
    requires Sound(store.engine, store.plan, store.base, s) && s.status == READY_FOR_REVIEW
    ensures Sound(store.engine, store.plan, store.base, Settled(s, SKIPPED, made))
    ensures made ==> MayEnter(store.engine, store.plan, store.base, Settled(s, SKIPPED, made), FINALIZING)
  {
    SettleSettles(s.rows, SKIPPED);
    hide Settle;
    ReviewKeepsSound(store.engine, store.plan, store.base, s, Settle(s.rows, SKIPPED), made);
    EvolvesIds(s.rows, Settle(s.rows, SKIPPED));
    hide CountOf, Logged, NoneProposed, Evolves;
  }

  /** What is still undecided is skipped, and the review is closed. */
  method CloseReview(store: Store, env: Surroundings) returns (ended: Ended)
    requires store.Valid() && store.status == READY_FOR_REVIEW
    modifies store
    ensures store.Valid() && Evolves(old(store.rows), store.rows)
    ensures store.completeness == old(store.completeness) && store.revision == old(store.revision)
    ensures store.artifact == old(store.artifact)
    ensures !old(store.stale) && MadeAll(env) && env.fate(3) != FailsAfter ==> !store.stale
    ensures ended == Done ==>
              store.status == FINALIZING && store.rows == Settle(DecidedAll(old(store.rows), env.calls(3)), SKIPPED)
    ensures Calm(env) ==> ended == Done
  {
    hide Sound, CalledAll, Evolves, DecidedAll, Made;
    var fate := Await(store, env, 3);
    if fate == Crashes || fate == FailsBefore {
      return Stop(fate);
    }
    ghost var s := store.Value();
    SettleKeepsSound(store, s, fate == Fine);
    SettleSettles(s.rows, SKIPPED);
    hide Settle;
    var _ := store.SettleProposed(SKIPPED, fate == Fine);
    EvolvesTransitive(old(store.rows), s.rows, store.rows);
    if fate == FailsAfter {
      return Threw;
    }
    StillMayClose(store, store.Value());
    NothingLeftToDecide(store.Value(), env.calls(4));
    EnterAlike(store, store.Value(), CalledAll(store.Value(), env.calls(4)));
    ghost var settled := store.rows;
    ended := Claim(store, env, 4, READY_FOR_REVIEW, FINALIZING);
    EvolvesTransitive(old(store.rows), settled, store.rows);
  }

  lemma StillMayClose(store: Store, s: ChangeSet)
    requires MayEnter(store.engine, store.plan, store.base, s, FINALIZING)
    ensures NoneProposed(s.rows) && s.counts == CountsOf(s.rows)
  {
  }

  lemma EnterAlike(store: Store, s: ChangeSet, s': ChangeSet)
    requires MayEnter(store.engine, store.plan, store.base, s, FINALIZING) && s'.rows == s.rows && s'.counts == s.counts
    ensures MayEnter(store.engine, store.plan, store.base, s', FINALIZING)
  {
  }

  /** What a finalization finds decided: the first decision on a row stands, and an undecided row is skipped. */
  lemma ReviewedRowsAre(rows: seq<Row>, env: Surroundings, i: nat) returns (k: nat)
    requires i < |rows|
    ensures var calls := env.calls(0) + env.calls(1) + env.calls(3);
            var reviewed := ReviewedRows(rows, env);
            && |reviewed| == |rows| && FirstAddressing(calls, i, k)
            && (rows[i].verdict != PROPOSED || k < |calls| ==> Stands(rows[i], reviewed[i], calls, k))
            && (rows[i].verdict == PROPOSED && k == |calls| ==> reviewed[i] == rows[i].(verdict := SKIPPED))
  {
    var a, b, c := env.calls(0), env.calls(1), env.calls(3);
    DecidedInParts(rows, a, b);
    DecidedInParts(rows, a + b, c);
    k := FirstDecisionStands(rows, a + b + c, i);
    hide DecidedAll, FirstAddressing;
  }

  lemma {:induction false} DecidedInParts(rows: seq<Row>, a: seq<Call>, b: seq<Call>)
    ensures DecidedAll(rows, a + b) == DecidedAll(DecidedAll(rows, a), b)
  {
    if b == [] {
      assert a + b == a;
    } else {
      DecidedInParts(rows, a, b[..|b| - 1]);
      assert (a + b)[..|a + b| - 1] == a + b[..|b| - 1];
    }
  }

  /** From a closed review to a finalized change set, or a failed one. */
  method FinalizeClosed(store: Store, env: Surroundings) returns (ended: Ended)
    requires store.Valid() && store.status == FINALIZING
    modifies store
    ensures store.Valid() && Evolves(old(store.rows), store.rows)
    ensures old(store.revision).Some? ==> store.revision == old(store.revision)
    ensures !old(store.stale) && MadeAll(env) ==> !store.stale
    ensures ended == Done ==> store.status == FINALIZED && store.artifact.Some?
                              && store.revision == RevisionAfter(old(store.revision), store.rows, store.artifact.value)
    ensures Calm(env) ==>
              var built := Built(store.engine, store.plan, store.base, store.rows, env);
              && store.rows == old(store.rows)
              && (built.Some? ==> store.revision == RevisionAfter(old(store.revision), store.rows, built.value)
                                  && store.artifact == built)
              && (ended == Done <==> built.Some? && env.fate(13) == Fine)
              && (ended != Done ==> store.status == FAILED)
  {
    hide Sound, CalledAll, Evolves, Built, CompletenessOf, Made;
    EvolvesItself(store.rows);
    var fate := Await(store, env, 5);
    if fate != Fine {
      return Stop(fate);
    }
    ghost var rows := store.rows;
    var built, tree := BuildTree(store, env);
    ended := built;
    if ended == Done {
      ended := Publish(store, env, tree);
    }
    if ended == Threw {
      ended := CatchFinalize(store, env);
      EvolvesTransitive(old(store.rows), rows, store.rows);
    }
  }

  lemma EvolvesItself(rows: seq<Row>)
    ensures Evolves(rows, rows)
  {
  }

  method Finalize(store: Store, env: Surroundings) returns (ended: Ended)
    requires store.Valid() && (store.status == READY_FOR_REVIEW || store.status == FINALIZING)
    modifies store
    ensures store.Valid() && Evolves(old(store.rows), store.rows)
    ensures old(store.revision).Some? ==> store.revision == old(store.revision)
    ensures !old(store.stale) && MadeAll(env) && env.fate(3) != FailsAfter ==> !store.stale
    ensures ended == Done ==> store.status == FINALIZED && store.artifact.Some?
                              && store.revision == RevisionAfter(old(store.revision), store.rows, store.artifact.value)
    ensures Calm(env) ==>
              var built := Built(store.engine, store.plan, store.base, store.rows, env);
              && store.rows == (if old(store.status) == FINALIZING then old(store.rows)
                                else Settle(DecidedAll(old(store.rows), env.calls(3)), SKIPPED))
              && (built.Some? ==> store.revision == RevisionAfter(old(store.revision), store.rows, built.value)
                                  && store.artifact == built)
              && (ended == Done <==> built.Some? && env.fate(13) == Fine)
              && (ended != Done ==> store.status == FAILED)
  {
    hide Sound, CalledAll, Evolves, Built, CompletenessOf, Settle, DecidedAll, Made;
    ended := Done;
    EvolvesItself(store.rows);
    if store.status == READY_FOR_REVIEW {
      ended := CloseReview(store, env);
    }
    if ended == Done {
      ghost var rows := store.rows;
      ended := FinalizeClosed(store, env);
      EvolvesTransitive(old(store.rows), rows, store.rows);
    }
  }

  /** Finalization. However it ends, the change set is sound, no decision is taken back, a revision that is there is kept,
      and the counts stay exact as long as none of their writes is lost. When it is done, the change set is finalized, or
      has been rolled back since, and its revision describes the artifact exactly if there was none before, or it did
      already. When nothing fails, or at most the write of the completeness, what comes out is determined by the state
      before the call, and so is whether the revision describes it. */
  method ProcessFinalize(store: Store, env: Surroundings, mismatch: bool) returns (ended: Ended)
    requires store.Valid()
    modifies store
    ensures store.Valid() && Evolves(old(store.rows), store.rows)
    ensures old(store.revision).Some? ==> store.revision == old(store.revision)
    ensures !old(store.stale) && MadeAll(env) && env.fate(3) != FailsAfter ==> !store.stale && CountsMean(store.rows, store.counts)
    ensures ended == Done ==> store.status == FINALIZED || store.status == ROLLED_BACK
    ensures (old(store.status) == READY_FOR_REVIEW || old(store.status) == FINALIZING) && ended == Done ==>
              && (Describes(store.revision, store.Value()) <==>
                  old(store.revision).None? || Describes(old(store.revision), store.Value()))
    ensures Calm(env) && !mismatch && (old(store.status) == READY_FOR_REVIEW || old(store.status) == FINALIZING) ==>
              var rows := if old(store.status) == FINALIZING then old(store.rows) else ReviewedRows(old(store.rows), env);
              var built := Built(store.engine, store.plan, store.base, rows, env);
              && store.rows == rows
              && (built.Some? ==> store.revision == RevisionAfter(old(store.revision), rows, built.value) && store.artifact == built)
              && (ended == Done <==> built.Some? && env.fate(13) == Fine)
              && store.status == (if ended == Done then FINALIZED else FAILED)
              && (ended == Done ==>
                    (Describes(store.revision, store.Value()) <==>
                       old(store.revision).None? || old(store.revision) == Some(Revision(CompletenessOf(rows), built.value))))
  {
    FreshIsExact(store);
    hide Sound, CalledAll, Evolves, Built, CompletenessOf, Settle, DecidedAll, Made, CountsMean;
    var fate := Await(store, env, 0);
    if fate != Fine {
      return Stop(fate);
    }
    if store.status == FINALIZED || store.status == ROLLED_BACK {
      return Done;
    }
    if store.status != READY_FOR_REVIEW && store.status != FINALIZING {
      return Threw;
    }
    ghost var rows := store.rows;
    fate := Await(store, env, 1);
    EvolvesTransitive(old(store.rows), rows, store.rows);
    if fate != Fine {
      return Stop(fate);
    }
    rows := store.rows;
    if mismatch {
      ended := FailMismatch(store, env, 2);
      EvolvesTransitive(old(store.rows), rows, store.rows);
      return;
    }
    ended := Finalize(store, env);
    EvolvesTransitive(old(store.rows), rows, store.rows);
    FinishedIsComplete(store);
  }

  lemma FinishedIsComplete(store: Store)
    requires store.Valid()
    ensures store.status == FINALIZED ==>
              store.completeness == Some(CompletenessOf(store.rows)) && store.artifact.Some? && store.revision.Some?
  {
    hide Logged, CountsOf, NoneProposed, Applied;
  }
}
