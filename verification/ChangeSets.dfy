/** A change set and the operations on it: the transition table, its rows, the counts kept beside them, and the review
    calls of the API (packages/shared/src/changeset-transitions.ts, packages/db/src/changeset-repository.ts,
    apps/api/src/changeset-service.ts). */
module ChangeSets {
  import opened DraftMerging
  import opened Options
  import opened Sequences

  // ----- data -----

  datatype Status = QUEUED | MATERIALIZING | GENERATING | READY_FOR_REVIEW | FINALIZING | FINALIZED | FAILED | ROLLED_BACK

  predicate Allowed(from: Status, to: Status) {
    match from
    case QUEUED => to == MATERIALIZING || to == FAILED
    case MATERIALIZING => to == GENERATING || to == FAILED
    case GENERATING => to == READY_FOR_REVIEW || to == FAILED
    case READY_FOR_REVIEW => to == FINALIZING || to == FAILED
    case FINALIZING => to == FINALIZED || to == FAILED
    case FINALIZED => to == ROLLED_BACK
    case FAILED => to == QUEUED
    case ROLLED_BACK => false
  }

  datatype Verdict = PROPOSED | ACCEPTED | REJECTED | SKIPPED | UNUSABLE

  /** An action of the plan: `files` are the paths of its evidence. */
  datatype PlanAction = PlanAction(id: string, level: AutomationLevel, files: seq<string>, source: Option<string>, target: Option<string>)

  /** A change. What the review shows of it is not modelled. */
  datatype Row = Row(actionId: string, filePath: string, verdict: Verdict, source: Option<string>, target: Option<string>)

  datatype Counts = Counts(total: nat, proposed: nat, accepted: nat, rejected: nat, skipped: nat, failed: nat)

  datatype Completeness = COMPLETE | PARTIAL

  type Tree = map<string, string>

  /** A generated revision: the completeness and the tree its content hash were taken of when it was created. */
  datatype Revision = Revision(completeness: Completeness, hashed: Tree)

  datatype Event = Event(from: Status, to: Status)

  /** The stored change set. `stale` is set when a write of the counts has been lost since the last one that was made. */
  datatype ChangeSet = ChangeSet(status: Status, rows: seq<Row>, counts: Counts, stale: bool,
                                 completeness: Option<Completeness>, revision: Option<Revision>, artifact: Option<Tree>,
                                 events: seq<Event>)

  const QUEUED_CHANGE_SET := ChangeSet(QUEUED, [], Counts(0, 0, 0, 0, 0, 0), false, None, None, None, [])

  // ----- counts -----

  function CountOf(rows: seq<Row>, verdict: Verdict): nat {
    |Filter((r: Row) => r.verdict == verdict, rows)|
  }

  function CountsOf(rows: seq<Row>): Counts {
    Counts(|rows|, CountOf(rows, PROPOSED), CountOf(rows, ACCEPTED), CountOf(rows, REJECTED), CountOf(rows, SKIPPED),
           CountOf(rows, UNUSABLE))
  }

  function Verdicts(rows: seq<Row>): seq<Verdict> {
    seq(|rows|, i requires 0 <= i < |rows| => rows[i].verdict)
  }

  /** The counts are the numbers of rows with each verdict. */
  predicate CountsMean(rows: seq<Row>, c: Counts) {
    var verdicts := multiset(Verdicts(rows));
    && c.total == |rows|
    && c.proposed == verdicts[PROPOSED] && c.accepted == verdicts[ACCEPTED] && c.rejected == verdicts[REJECTED]
    && c.skipped == verdicts[SKIPPED] && c.failed == verdicts[UNUSABLE]
  }

  lemma {:induction false} CountOfIs(rows: seq<Row>, verdict: Verdict)
    ensures CountOf(rows, verdict) == multiset(Verdicts(rows))[verdict]
  {
    if rows != [] {
      CountOfIs(rows[1..], verdict);
      assert Verdicts(rows) == [rows[0].verdict] + Verdicts(rows[1..]);
    }
  }

  /** Counts are what `CountsOf` says exactly when they are the numbers of rows with each verdict. */
  lemma CountsAre(rows: seq<Row>, c: Counts)
    ensures c == CountsOf(rows) <==> CountsMean(rows, c)
  {
    CountOfIs(rows, PROPOSED);
    CountOfIs(rows, ACCEPTED);
    CountOfIs(rows, REJECTED);
    CountOfIs(rows, SKIPPED);
    CountOfIs(rows, UNUSABLE);
    hide CountOf, Verdicts;
  }

  lemma {:induction false} CountsPartition(rows: seq<Row>)
    ensures var c := CountsOf(rows); c.proposed + c.accepted + c.rejected + c.skipped + c.failed == c.total
  {
    if rows != [] {
      CountsPartition(rows[1..]);
    }
  }

  lemma {:induction false} CountZero(rows: seq<Row>, verdict: Verdict)
    ensures CountOf(rows, verdict) == 0 <==> forall r :: r in rows ==> r.verdict != verdict
  {
    if rows != [] {
      CountZero(rows[1..], verdict);
      assert rows == [rows[0]] + rows[1..];
    }
  }

  predicate NoneProposed(rows: seq<Row>) {
    forall r :: r in rows ==> r.verdict != PROPOSED
  }

  predicate AllAccepted(rows: seq<Row>) {
    forall r :: r in rows ==> r.verdict == ACCEPTED
  }

  /** When nothing is undecided, everything is accepted exactly when nothing is counted as rejected, skipped or failed. */
  lemma AllAcceptedByCounts(rows: seq<Row>)
    requires NoneProposed(rows)
    ensures var c := CountsOf(rows); AllAccepted(rows) <==> c.rejected == 0 && c.skipped == 0 && c.failed == 0
  {
    CountZero(rows, REJECTED);
    CountZero(rows, SKIPPED);
    CountZero(rows, UNUSABLE);
    hide CountOf;
    if CountOf(rows, REJECTED) == 0 && CountOf(rows, SKIPPED) == 0 && CountOf(rows, UNUSABLE) == 0 {
      forall r | r in rows
        ensures r.verdict == ACCEPTED
      {
      }
    }
  }

  // ----- operations on the stored change set -----

  function Moved(s: ChangeSet, from: Status, to: Status): ChangeSet {
    s.(status := to, events := s.events + [Event(from, to)])
  }

  /** The counts stored with freshly generated rows: accepted and rejected are written as zero. */
  function Persisted(s: ChangeSet, rows: seq<Row>): ChangeSet {
    s.(rows := rows, stale := false,
       counts := Counts(|rows|, CountOf(rows, PROPOSED), 0, 0, CountOf(rows, SKIPPED), CountOf(rows, UNUSABLE)))
  }

  /** The counts stored with freshly generated rows are exact precisely when none comes already decided. */
  lemma PersistedCounts(s: ChangeSet, rows: seq<Row>)
    ensures Persisted(s, rows).counts == CountsOf(rows) <==> forall r :: r in rows ==> r.verdict != ACCEPTED && r.verdict != REJECTED
  {
    CountZero(rows, ACCEPTED);
    CountZero(rows, REJECTED);
  }

  /** The counts are computed again, unless that write is lost; the total is not touched. */
  function Refreshed(s: ChangeSet, made: bool): ChangeSet {
    if made then s.(counts := CountsOf(s.rows).(total := s.counts.total), stale := false)
    else s.(stale := true)
  }

  function Decided(s: ChangeSet, i: nat, verdict: Verdict, made: bool): ChangeSet {
    if i < |s.rows| && s.rows[i].verdict == PROPOSED then
      Refreshed(s.(rows := s.rows[i := s.rows[i].(verdict := verdict)]), made)
    else s
  }

  function Settle(rows: seq<Row>, verdict: Verdict): seq<Row> {
    seq(|rows|, i requires 0 <= i < |rows| => if rows[i].verdict == PROPOSED then rows[i].(verdict := verdict) else rows[i])
  }

  /** Every undecided row gets the verdict. */
  function Settled(s: ChangeSet, verdict: Verdict, made: bool): ChangeSet {
    Refreshed(s.(rows := Settle(s.rows, verdict)), made)
  }

  /** The same changes, and no decision taken back. */
  predicate Evolves(before: seq<Row>, after: seq<Row>) {
    |before| == |after| && forall i :: 0 <= i < |before| ==>
      && after[i] == before[i].(verdict := after[i].verdict)
      && (before[i].verdict != PROPOSED ==> after[i].verdict == before[i].verdict)
  }

  lemma EvolvesTransitive(a: seq<Row>, b: seq<Row>, c: seq<Row>)
    requires Evolves(a, b) && Evolves(b, c)
    ensures Evolves(a, c)
  {
  }

  // ----- calls of the API -----

  datatype Call = Decide(row: nat, accept: bool, made: bool) | AcceptAll(made: bool) | Rollback

  /** A call acts on a change set under review, or rolls a finalized one back; otherwise it is refused. */
  function Called(s: ChangeSet, call: Call): ChangeSet {
    match call
    case Decide(i, accept, made) =>
      if s.status == READY_FOR_REVIEW then Decided(s, i, if accept then ACCEPTED else REJECTED, made) else s
    case AcceptAll(made) => if s.status == READY_FOR_REVIEW then Settled(s, ACCEPTED, made) else s
    case Rollback => if s.status == FINALIZED then Moved(s, FINALIZED, ROLLED_BACK) else s
  }

  function CalledAll(s: ChangeSet, calls: seq<Call>): ChangeSet {
    if calls == [] then s else Called(CalledAll(s, calls[..|calls| - 1]), calls[|calls| - 1])
  }

  /** What a call makes of the rows of a change set under review. */
  function DecidedRows(rows: seq<Row>, call: Call): seq<Row> {
    match call
    case Decide(i, accept, _) =>
      if i < |rows| && rows[i].verdict == PROPOSED then rows[i := rows[i].(verdict := if accept then ACCEPTED else REJECTED)]
      else rows
    case AcceptAll(_) => Settle(rows, ACCEPTED)
    case Rollback => rows
  }

  function DecidedAll(rows: seq<Row>, calls: seq<Call>): seq<Row> {
    if calls == [] then rows else DecidedRows(DecidedAll(rows, calls[..|calls| - 1]), calls[|calls| - 1])
  }

  lemma {:induction false} CallsOnRows(s: ChangeSet, calls: seq<Call>)
    requires s.status == READY_FOR_REVIEW
    ensures CalledAll(s, calls).status == READY_FOR_REVIEW && CalledAll(s, calls).rows == DecidedAll(s.rows, calls)
  {
    if calls != [] {
      CallsOnRows(s, calls[..|calls| - 1]);
    }
  }

  /** The call decides on row `i`, if that is still undecided. */
  predicate Addresses(call: Call, i: int) {
    call.AcceptAll? || (call.Decide? && call.row == i)
  }

  /** `k` is the first call that addresses row `i`; the number of calls if none does. */
  predicate FirstAddressing(calls: seq<Call>, i: int, k: int) {
    && 0 <= k <= |calls| && (forall j :: 0 <= j < k ==> !Addresses(calls[j], i))
    && (k < |calls| ==> Addresses(calls[k], i))
  }

  /** The first decision on a row stands: `k` is the call that takes it. */
  predicate Stands(before: Row, after: Row, calls: seq<Call>, k: int)
    requires 0 <= k <= |calls|
  {
    after == before.(verdict :=
      if before.verdict != PROPOSED || k == |calls| then before.verdict
      else if calls[k].Decide? && !calls[k].accept then REJECTED
      else ACCEPTED)
  }

  /** Under review, every undecided row ends up as the first call that addresses it says, and is undecided if none does. */
  lemma {:induction false} FirstDecisionStands(rows: seq<Row>, calls: seq<Call>, i: nat) returns (k: nat)
    requires i < |rows|
    ensures |DecidedAll(rows, calls)| == |rows| && FirstAddressing(calls, i, k)
    ensures Stands(rows[i], DecidedAll(rows, calls)[i], calls, k)
  {
    if calls == [] {
      k := 0;
    } else {
      var before, last := calls[..|calls| - 1], calls[|calls| - 1];
      k := FirstDecisionStands(rows, before, i);
      if k == |before| && !Addresses(last, i) {
        k := |calls|;
      }
    }
  }

  /** No write of the counts is lost. */
  predicate Made(calls: seq<Call>) {
    forall i :: 0 <= i < |calls| ==> (calls[i].Decide? || calls[i].AcceptAll? ==> calls[i].made)
  }

  /** Calls of which no write is lost keep the counts fresh. */
  lemma {:induction false} MadeStaysFresh(s: ChangeSet, calls: seq<Call>)
    requires Made(calls) && !s.stale
    ensures !CalledAll(s, calls).stale
  {
    if calls != [] {
      MadeStaysFresh(s, calls[..|calls| - 1]);
      assert calls[|calls| - 1].Decide? || calls[|calls| - 1].AcceptAll? ==> calls[|calls| - 1].made;
    }
  }

  // ----- what the rows of a plan are, and what finalizing does -----

  datatype Patch = Patched(text: string, source: string, target: string) | Declined | Raised

  /** The patchers, the containment check and the size limit. */
  datatype Engine = Engine(generate: (PlanAction, string, string) -> Patch, apply: (PlanAction, string, string) -> Patch,
                           contained: string -> bool, tooLarge: string -> bool)

  /** The evidence of the action names this file, and no other. */
  predicate OnlyFile(a: PlanAction, path: string) {
    path in a.files && forall f :: f in a.files ==> f == path
  }

  /** The file can be given to a patcher. */
  predicate Patchable(engine: Engine, tree: Tree, a: PlanAction, path: string) {
    OnlyFile(a, path) && engine.contained(path) && path in tree && !engine.tooLarge(tree[path])
  }

  /** The row of a safe action. It is proposed exactly when its only file can be patched, and then with the values that the
      patcher reports. */
  ghost predicate RowFits(engine: Engine, tree: Tree, a: PlanAction, row: Row) {
    && row.actionId == a.id && (row.verdict == PROPOSED || row.verdict == SKIPPED)
    && row.filePath == (if a.files == [] then "" else a.files[0])
    && (row.verdict == PROPOSED <==>
          Patchable(engine, tree, a, row.filePath) && engine.generate(a, row.filePath, tree[row.filePath]).Patched?)
    && (row.verdict == PROPOSED ==>
          var patch := engine.generate(a, row.filePath, tree[row.filePath]);
          row.source == Some(patch.source) && row.target == Some(patch.target))
    && (row.verdict == SKIPPED ==> row.source == None && row.target == None)
  }

  /** The actions that are safe to apply, in order. */
  function SafeActions(plan: seq<PlanAction>): seq<PlanAction> {
    Filter((a: PlanAction) => a.level == SAFE_AUTOMATIC, plan)
  }

  ghost predicate RowsFit(engine: Engine, tree: Tree, plan: seq<PlanAction>, rows: seq<Row>) {
    |rows| == |SafeActions(plan)| && forall i :: 0 <= i < |rows| ==> RowFits(engine, tree, SafeActions(plan)[i], rows[i])
  }

  /** The patcher of some safe action throws. */
  ghost predicate Raises(engine: Engine, tree: Tree, plan: seq<PlanAction>) {
    exists a, path :: a in plan && a.level == SAFE_AUTOMATIC && Patchable(engine, tree, a, path)
      && engine.generate(a, path, tree[path]).Raised?
  }

  /** The generated rows of the plan, as far as they have been decided. */
  ghost predicate FromPlan(engine: Engine, plan: seq<PlanAction>, base: Tree, rows: seq<Row>) {
    exists generated :: RowsFit(engine, base, plan, generated) && Evolves(generated, rows)
  }

  lemma FromPlanEvolves(engine: Engine, plan: seq<PlanAction>, base: Tree, rows: seq<Row>, later: seq<Row>)
    requires FromPlan(engine, plan, base, rows) && Evolves(rows, later)
    ensures FromPlan(engine, plan, base, later)
  {
    hide RowsFit, Evolves;
    var generated :| RowsFit(engine, base, plan, generated) && Evolves(generated, rows);
    EvolvesTransitive(generated, rows, later);
  }

  function SafeIds(plan: seq<PlanAction>): seq<string> {
    if plan == [] then []
    else
      var last := plan[|plan| - 1];
      SafeIds(plan[..|plan| - 1]) + if last.level == SAFE_AUTOMATIC then [last.id] else []
  }

  function ActionIds(rows: seq<Row>): seq<string> {
    seq(|rows|, i requires 0 <= i < |rows| => rows[i].actionId)
  }

  function AcceptedRows(rows: seq<Row>): seq<Row> {
    Filter((r: Row) => r.verdict == ACCEPTED, rows)
  }

  /** The action with this id; of several, the last. */
  function FindAction(plan: seq<PlanAction>, id: string): Option<PlanAction> {
    if plan == [] then None
    else if plan[|plan| - 1].id == id then Some(plan[|plan| - 1])
    else FindAction(plan[..|plan| - 1], id)
  }

  /** The working tree after one accepted change; none when it cannot be applied. */
  function ApplyRow(engine: Engine, plan: seq<PlanAction>, tree: Tree, row: Row): Option<Tree> {
    var action := FindAction(plan, row.actionId);
    if !engine.contained(row.filePath) || action.None? || row.filePath !in tree then None
    else
      var a := action.value.(source := if row.source.Some? then row.source else action.value.source,
                             target := if row.target.Some? then row.target else action.value.target);
      match engine.apply(a, row.filePath, tree[row.filePath])
      case Patched(text, _, _) => Some(tree[row.filePath := text])
      case _ => None
  }

  function ApplyRows(engine: Engine, plan: seq<PlanAction>, tree: Tree, rows: seq<Row>): Option<Tree> {
    if rows == [] then Some(tree)
    else
      var before := ApplyRows(engine, plan, tree, rows[..|rows| - 1]);
      if before.None? then None else ApplyRow(engine, plan, before.value, rows[|rows| - 1])
  }

  /** The last action of the plan with this id. */
  predicate ActionOf(plan: seq<PlanAction>, id: string, a: PlanAction) {
    exists i :: 0 <= i < |plan| && plan[i] == a && a.id == id && forall j :: i < j < |plan| ==> plan[j].id != id
  }

  /** The action as it is given to the patcher: with the values of the row, where it has any. */
  predicate Given(row: Row, a: PlanAction, given: PlanAction) {
    && given.id == a.id && given.level == a.level && given.files == a.files
    && given.source == (if row.source == None then a.source else row.source)
    && given.target == (if row.target == None then a.target else row.target)
  }

  /** One change has been applied: the patcher has answered with a text, and that is what the file holds now. */
  ghost predicate Step(engine: Engine, plan: seq<PlanAction>, row: Row, tree: Tree, after: Tree) {
    && engine.contained(row.filePath) && row.filePath in tree
    && exists a: PlanAction, given: PlanAction :: ActionOf(plan, row.actionId, a) && Given(row, a, given)
         && engine.apply(given, row.filePath, tree[row.filePath]).Patched?
         && after == tree[row.filePath := engine.apply(given, row.filePath, tree[row.filePath]).text]
  }

  /** The changes have been applied in this order, each to what the one before has left. */
  ghost predicate InTurn(engine: Engine, plan: seq<PlanAction>, base: Tree, order: seq<Row>, tree: Tree) {
    exists trees: seq<Tree> ::
      && |trees| == |order| + 1 && trees[0] == base && trees[|order|] == tree
      && forall i :: 0 <= i < |order| ==> Step(engine, plan, order[i], trees[i], trees[i + 1])
  }

  lemma {:induction false} FindActionIs(plan: seq<PlanAction>, id: string)
    ensures forall a :: ActionOf(plan, id, a) <==> FindAction(plan, id) == Some(a)
  {
    if plan != [] {
      var before := plan[..|plan| - 1];
      FindActionIs(before, id);
      forall a
        ensures ActionOf(plan, id, a) <==> FindAction(plan, id) == Some(a)
      {
        if plan[|before|].id != id {
          if ActionOf(plan, id, a) {
            var i :| 0 <= i < |plan| && plan[i] == a && a.id == id && forall j :: i < j < |plan| ==> plan[j].id != id;
            assert before[i] == a;
          }
          if ActionOf(before, id, a) {
            var i :| 0 <= i < |before| && before[i] == a && a.id == id && forall j :: i < j < |before| ==> before[j].id != id;
            assert plan[i] == a;
          }
        } else {
          assert plan[|before|] == a || !ActionOf(plan, id, a);
        }
      }
    }
  }

  lemma StepExactly(engine: Engine, plan: seq<PlanAction>, row: Row, tree: Tree, after: Tree)
    ensures ApplyRow(engine, plan, tree, row) == Some(after) <==> Step(engine, plan, row, tree, after)
  {
    FindActionIs(plan, row.actionId);
    hide FindAction, ActionOf;
    var found := FindAction(plan, row.actionId);
    if ApplyRow(engine, plan, tree, row) == Some(after) {
      var a := found.value;
      var given := a.(source := if row.source.Some? then row.source else a.source,
                      target := if row.target.Some? then row.target else a.target);
      assert Given(row, a, given);
    }
  }

  /** The fold over the rows succeeds with a tree exactly when the rows, applied in turn, lead to it. */
  lemma {:induction false} InTurnExactly(engine: Engine, plan: seq<PlanAction>, base: Tree, order: seq<Row>, tree: Tree)
    ensures ApplyRows(engine, plan, base, order) == Some(tree) <==> InTurn(engine, plan, base, order, tree)
  {
    hide Step, ApplyRow;
    if order == [] {
      if tree == base {
        var trees := [base];
        assert |trees| == 1 && trees[0] == base;
      }
    } else {
      var before, last := order[..|order| - 1], order[|order| - 1];
      if ApplyRows(engine, plan, base, order) == Some(tree) {
        var middle := ApplyRows(engine, plan, base, before).value;
        InTurnExactly(engine, plan, base, before, middle);
        StepExactly(engine, plan, last, middle, tree);
        InTurnMore(engine, plan, base, before, middle, last, tree);
        assert before + [last] == order;
      }
      if InTurn(engine, plan, base, order, tree) {
        var middle := InTurnLess(engine, plan, base, order, tree);
        InTurnExactly(engine, plan, base, before, middle);
        StepExactly(engine, plan, last, middle, tree);
      }
    }
  }

  lemma InTurnMore(engine: Engine, plan: seq<PlanAction>, base: Tree, order: seq<Row>, middle: Tree, row: Row, tree: Tree)
    requires InTurn(engine, plan, base, order, middle) && Step(engine, plan, row, middle, tree)
    ensures InTurn(engine, plan, base, order + [row], tree)
  {
    hide Step;
    var trees: seq<Tree> :| |trees| == |order| + 1 && trees[0] == base && trees[|order|] == middle
      && forall i :: 0 <= i < |order| ==> Step(engine, plan, order[i], trees[i], trees[i + 1]);
    var all := trees + [tree];
    forall i | 0 <= i < |order| + 1
      ensures Step(engine, plan, (order + [row])[i], all[i], all[i + 1])
    {
      if i < |order| {
        assert all[i] == trees[i] && all[i + 1] == trees[i + 1];
      }
    }
    assert |all| == |order + [row]| + 1 && all[0] == base && all[|order + [row]|] == tree;
  }

  lemma InTurnLess(engine: Engine, plan: seq<PlanAction>, base: Tree, order: seq<Row>, tree: Tree) returns (middle: Tree)
    requires InTurn(engine, plan, base, order, tree) && order != []
    ensures InTurn(engine, plan, base, order[..|order| - 1], middle) && Step(engine, plan, order[|order| - 1], middle, tree)
  {
    hide Step;
    var trees: seq<Tree> :| |trees| == |order| + 1 && trees[0] == base && trees[|order|] == tree
      && forall i :: 0 <= i < |order| ==> Step(engine, plan, order[i], trees[i], trees[i + 1]);
    var before, some := order[..|order| - 1], trees[..|order|];
    middle := trees[|order| - 1];
    forall i | 0 <= i < |before|
      ensures Step(engine, plan, before[i], some[i], some[i + 1])
    {
      assert Step(engine, plan, order[i], trees[i], trees[i + 1]);
    }
  }

  /** The tree has every accepted change applied, one after the other, in some order, and no other change. */
  ghost predicate Applied(engine: Engine, plan: seq<PlanAction>, base: Tree, rows: seq<Row>, tree: Tree) {
    exists order: seq<Row> ::
      multiset(order) == multiset(AcceptedRows(rows)) && InTurn(engine, plan, base, order, tree)
  }

  // ----- the invariant -----

  predicate EventAt(events: seq<Event>, i: nat)
    requires i < |events|
  {
    Allowed(events[i].from, events[i].to) && events[i].from == if i == 0 then QUEUED else events[i - 1].to
  }

  /** The log is a path through the table from QUEUED to the status. */
  predicate Logged(events: seq<Event>, status: Status) {
    && (forall i :: 0 <= i < |events| ==> EventAt(events, i))
    && status == if events == [] then QUEUED else events[|events| - 1].to
  }

  predicate Reviewable(s: Status) {
    s == READY_FOR_REVIEW || s == FINALIZING || s == FINALIZED || s == ROLLED_BACK
  }

  predicate Closed(s: Status) {
    s == FINALIZING || s == FINALIZED || s == ROLLED_BACK
  }

  function CompletenessOf(rows: seq<Row>): Completeness {
    if AllAccepted(rows) then COMPLETE else PARTIAL
  }

  /** The revision is the one that the stored completeness and artifact would make. */
  predicate Describes(revision: Option<Revision>, s: ChangeSet) {
    s.completeness.Some? && s.artifact.Some? && revision == Some(Revision(s.completeness.value, s.artifact.value))
  }

  /** The outcome of a finalization: complete if and only if every change was accepted. */
  ghost predicate Finished(engine: Engine, plan: seq<PlanAction>, base: Tree, s: ChangeSet) {
    && s.completeness == Some(CompletenessOf(s.rows))
    && s.artifact.Some? && Applied(engine, plan, base, s.rows, s.artifact.value)
    && s.revision.Some?
  }

  ghost predicate Sound(engine: Engine, plan: seq<PlanAction>, base: Tree, s: ChangeSet) {
    && s.counts.total == |s.rows|
    && (!s.stale ==> s.counts == CountsOf(s.rows))
    && (Reviewable(s.status) ==> ActionIds(s.rows) == SafeIds(plan) && FromPlan(engine, plan, base, s.rows))
    && (Closed(s.status) ==> s.counts == CountsOf(s.rows) && NoneProposed(s.rows))
    && (s.status == FINALIZED || s.status == ROLLED_BACK ==> Finished(engine, plan, base, s))
    && Logged(s.events, s.status)
  }

  lemma LoggedNext(events: seq<Event>, status: Status, to: Status)
    requires Logged(events, status) && Allowed(status, to)
    ensures Logged(events + [Event(status, to)], to)
  {
    var all := events + [Event(status, to)];
    forall i | 0 <= i < |all|
      ensures EventAt(all, i)
    {
      assert i < |events| ==> EventAt(events, i);
    }
  }

  /** Rows that keep their identity keep their action ids. */
  lemma EvolvesIds(before: seq<Row>, after: seq<Row>)
    requires Evolves(before, after)
    ensures ActionIds(before) == ActionIds(after)
  {
    assert forall i :: 0 <= i < |before| ==> after[i].actionId == before[i].actionId;
  }

  /** A decision, on one row or on all, keeps the invariant of a change set under review. */
  lemma ReviewKeepsSound(engine: Engine, plan: seq<PlanAction>, base: Tree, s: ChangeSet, rows: seq<Row>, made: bool)
    requires Sound(engine, plan, base, s) && s.status == READY_FOR_REVIEW && Evolves(s.rows, rows)
    ensures Sound(engine, plan, base, Refreshed(s.(rows := rows), made))
  {
    EvolvesIds(s.rows, rows);
    FromPlanEvolves(engine, plan, base, s.rows, rows);
    hide Logged, CountOf, Finished, NoneProposed, FromPlan;
  }

  lemma CallKeepsSound(engine: Engine, plan: seq<PlanAction>, base: Tree, s: ChangeSet, call: Call)
    requires Sound(engine, plan, base, s)
    ensures Sound(engine, plan, base, Called(s, call)) && Evolves(s.rows, Called(s, call).rows)
  {
    match call
    case Decide(i, accept, made) =>
      if s.status == READY_FOR_REVIEW && i < |s.rows| && s.rows[i].verdict == PROPOSED {
        ReviewKeepsSound(engine, plan, base, s, s.rows[i := s.rows[i].(verdict := if accept then ACCEPTED else REJECTED)], made);
      }
    case AcceptAll(made) =>
      if s.status == READY_FOR_REVIEW {
        ReviewKeepsSound(engine, plan, base, s, Settle(s.rows, ACCEPTED), made);
      }
    case Rollback =>
      if s.status == FINALIZED {
        LoggedNext(s.events, s.status, ROLLED_BACK);
        hide Logged;
      }
  }

  lemma {:induction false} CallsKeepSound(engine: Engine, plan: seq<PlanAction>, base: Tree, s: ChangeSet, calls: seq<Call>)
    requires Sound(engine, plan, base, s)
    ensures Sound(engine, plan, base, CalledAll(s, calls)) && Evolves(s.rows, CalledAll(s, calls).rows)
  {
    if calls != [] {
      var before := CalledAll(s, calls[..|calls| - 1]);
      CallsKeepSound(engine, plan, base, s, calls[..|calls| - 1]);
      hide Sound, Evolves, Called;
      CallKeepsSound(engine, plan, base, before, calls[|calls| - 1]);
      EvolvesTransitive(s.rows, before.rows, CalledAll(s, calls).rows);
    }
  }

  /** Nothing the API does changes a change set that is neither under review nor finalized. */
  lemma {:induction false} CallsRefused(s: ChangeSet, calls: seq<Call>)
    requires s.status != READY_FOR_REVIEW && s.status != FINALIZED
    ensures CalledAll(s, calls) == s
  {
    if calls != [] {
      CallsRefused(s, calls[..|calls| - 1]);
    }
  }

  /** The log of a finalized change set ends with the whole way from the queue, through the review, without a shortcut;
      that of one rolled back with one more step. */
  lemma WentThroughReview(events: seq<Event>)
    requires Logged(events, FINALIZED)
    ensures |events| >= 5 && events[|events| - 5..] ==
              [Event(QUEUED, MATERIALIZING), Event(MATERIALIZING, GENERATING), Event(GENERATING, READY_FOR_REVIEW),
               Event(READY_FOR_REVIEW, FINALIZING), Event(FINALIZING, FINALIZED)]
  {
    var n := |events|;
    Before(events, n - 1);
    Before(events, n - 2);
    Before(events, n - 3);
    Before(events, n - 4);
    Before(events, n - 5);
  }

  lemma Before(events: seq<Event>, i: int)
    requires (forall j :: 0 <= j < |events| ==> EventAt(events, j)) && i < |events|
    ensures i >= 0 ==> Allowed(events[i].from, events[i].to) && events[i].from == if i == 0 then QUEUED else events[i - 1].to
  {
    assert i >= 0 ==> EventAt(events, i);
  }

  /** A rollback is taken of a finalized change set, and is final. */
  lemma RollbackIsFinal(s: ChangeSet, calls: seq<Call>)
    requires s.status == FINALIZED && calls != [] && calls[0] == Rollback
    ensures CalledAll(s, calls) == s.(status := ROLLED_BACK, events := s.events + [Event(FINALIZED, ROLLED_BACK)])
    ensures forall to :: !Allowed(ROLLED_BACK, to)
  {
    var one: seq<Call> := [Rollback];
    assert calls == one + calls[1..] && one[..|one| - 1] == [];
    assert CalledAll(s, one) == Called(CalledAll(s, []), Rollback);
    CalledInParts(s, one, calls[1..]);
    CallsRefused(Called(s, Rollback), calls[1..]);
  }

  lemma {:induction false} CalledInParts(s: ChangeSet, a: seq<Call>, b: seq<Call>)
    ensures CalledAll(s, a + b) == CalledAll(CalledAll(s, a), b)
  {
    if b == [] {
      assert a + b == a;
    } else {
      CalledInParts(s, a, b[..|b| - 1]);
      assert (a + b)[..|a + b| - 1] == a + b[..|b| - 1];
    }
  }

  // ----- moving on -----

  /** What a change set must have before it may enter a status. */
  ghost predicate MayEnter(engine: Engine, plan: seq<PlanAction>, base: Tree, s: ChangeSet, to: Status) {
    && (Reviewable(to) ==> ActionIds(s.rows) == SafeIds(plan) && FromPlan(engine, plan, base, s.rows))
    && (Closed(to) ==> s.counts == CountsOf(s.rows) && NoneProposed(s.rows))
    && (to == FINALIZED || to == ROLLED_BACK ==> Finished(engine, plan, base, s))
  }

  lemma MoveKeepsSound(engine: Engine, plan: seq<PlanAction>, base: Tree, s: ChangeSet, to: Status)
    requires Sound(engine, plan, base, s) && Allowed(s.status, to) && MayEnter(engine, plan, base, s, to)
    ensures Sound(engine, plan, base, Moved(s, s.status, to))
  {
    LoggedNext(s.events, s.status, to);
    hide Logged, CountsOf, NoneProposed, FromPlan, Finished;
  }

  /** Once nothing is undecided and the counts are exact, no call of the API changes either. */
  lemma {:induction false} NothingLeftToDecide(s: ChangeSet, calls: seq<Call>)
    requires s.status == READY_FOR_REVIEW && NoneProposed(s.rows) && s.counts == CountsOf(s.rows)
    ensures var s' := CalledAll(s, calls);
            s'.status == READY_FOR_REVIEW && s'.rows == s.rows && s'.counts == s.counts && s'.events == s.events
  {
    if calls != [] {
      NothingLeftToDecide(s, calls[..|calls| - 1]);
      assert Settle(s.rows, ACCEPTED) == s.rows;
      hide CountsOf;
    }
  }

  lemma {:induction false} CallsKeepReview(s: ChangeSet, calls: seq<Call>)
    ensures var s' := CalledAll(s, calls);
            && (s'.status == s.status || (s.status == FINALIZED && s'.status == ROLLED_BACK))
            && s'.completeness == s.completeness && s'.revision == s.revision && s'.artifact == s.artifact
  {
    if calls != [] {
      CallsKeepReview(s, calls[..|calls| - 1]);
    }
  }

  lemma SettleSettles(rows: seq<Row>, verdict: Verdict)
    requires verdict != PROPOSED
    ensures NoneProposed(Settle(rows, verdict)) && Evolves(rows, Settle(rows, verdict))
  {
  }
}
