/** When a revision may be deployed (packages/deployment/src/eligibility.ts), and what that says about the change set it
    comes from. */
module Eligibility {
  import ChangeSets
  import opened DraftMerging
  import opened MigrationPlan
  import opened Options
  import opened Sequences

  datatype RevisionType = ORIGINAL | GENERATED

  datatype Revision = Revision(id: string, kind: RevisionType, partial: bool, contentHash: string, changeSetId: Option<string>)

  datatype Validation = Validation(revisionId: string, contentHash: string, passed: bool, completed: bool)

  datatype PlanRecord = PlanRecord(counts: Counts, outcome: Outcome)

  datatype ChangeSetRecord = ChangeSetRecord(id: string, status: ChangeSets.Status, completeness: Option<ChangeSets.Completeness>)

  datatype Refusal =
    | REVISION_PARTIAL | VALIDATION_NOT_PASSED | VALIDATION_REVISION_MISMATCH | MIGRATION_PLAN_NOT_ELIGIBLE
    | REVISION_NOT_ELIGIBLE | CHANGESET_NOT_FINALIZED

  function EvaluateEligibility(revision: Revision, validation: Option<Validation>, plan: Option<PlanRecord>,
                               changeSet: Option<ChangeSetRecord>): Result<Option<ChangeSetRecord>, Refusal>
  {
    if revision.partial then Failure(REVISION_PARTIAL)
    else if validation.None? then Failure(VALIDATION_NOT_PASSED)
    else if validation.value.revisionId != revision.id then Failure(VALIDATION_REVISION_MISMATCH)
    else if validation.value.contentHash != revision.contentHash then Failure(VALIDATION_REVISION_MISMATCH)
    else if !validation.value.passed || !validation.value.completed then Failure(VALIDATION_NOT_PASSED)
    else if plan.None? then Failure(MIGRATION_PLAN_NOT_ELIGIBLE)
    else
      var PlanRecord(c, outcome) := plan.value;
      if c.blocked > 0 || c.unknown > 0 || c.manual > 0 || c.reviewRequired > 0 then Failure(MIGRATION_PLAN_NOT_ELIGIBLE)
      else if revision.kind == ORIGINAL then
        if c.total != 0 || outcome != READY_TO_APPLY then Failure(REVISION_NOT_ELIGIBLE) else Success(None)
      else if c.safeAutomatic > 0 then
        if changeSet.None? || changeSet.value.status != ChangeSets.FINALIZED
           || changeSet.value.completeness != Some(ChangeSets.COMPLETE)
        then Failure(CHANGESET_NOT_FINALIZED)
        else if revision.changeSetId != Some(changeSet.value.id) then Failure(REVISION_NOT_ELIGIBLE)
        else Success(changeSet)
      else if c.total != 0 then Failure(MIGRATION_PLAN_NOT_ELIGIBLE)
      else Success(changeSet)
  }

  /** The stored counts and outcome of a plan with these actions. */
  function RecordOf(actions: seq<Action>): PlanRecord {
    PlanRecord(CountActions(actions), DeterminePlanOutcome(CountActions(actions)))
  }

  predicate AllSafe(actions: seq<Action>) {
    forall a :: a in actions ==> a.draft.automationLevel == SAFE_AUTOMATIC
  }

  predicate Validated(revision: Revision, validation: Option<Validation>) {
    validation.Some? && validation.value == Validation(revision.id, revision.contentHash, true, true)
  }

  predicate Finished(source: ChangeSetRecord) {
    source.status == ChangeSets.FINALIZED && source.completeness == Some(ChangeSets.COMPLETE)
  }

  predicate Produced(revision: Revision, source: ChangeSetRecord) {
    Finished(source) && revision.changeSetId == Some(source.id)
  }

  lemma SafeByCounts(actions: seq<Action>)
    ensures var c := CountActions(actions);
            && (AllSafe(actions) <==> c.blocked == 0 && c.unknown == 0 && c.manual == 0 && c.reviewRequired == 0)
            && (AllSafe(actions) ==> c.safeAutomatic == |actions|)
            && c.total == |actions|
  {
    OutcomeMeaning(actions);
    CountsPartition(actions);
    hide CountLevel;
  }

  /** A validated revision that is not partial may be deployed exactly when every action of the plan is safe, and there
      is none, or the revision was generated by a change set that is finalized and complete. */
  lemma EligibleExactly(revision: Revision, validation: Option<Validation>, actions: seq<Action>, changeSet: Option<ChangeSetRecord>)
    ensures EvaluateEligibility(revision, validation, Some(RecordOf(actions)), changeSet).Success? <==>
              && !revision.partial && Validated(revision, validation)
              && AllSafe(actions)
              && (actions == [] || (revision.kind == GENERATED && changeSet.Some? && Produced(revision, changeSet.value)))
  {
    SafeByCounts(actions);
    OutcomeMeaning(actions);
    hide CountActions;
  }

  /** Which refusal is given, for any stored record of a plan, also one that no actions have: the reasons exclude each other,
      and where none of them holds the revision is eligible. */
  lemma RefusedExactly(revision: Revision, validation: Option<Validation>, plan: Option<PlanRecord>,
                       changeSet: Option<ChangeSetRecord>)
    ensures var answer := EvaluateEligibility(revision, validation, plan, changeSet);
            var other := validation.Some? && (validation.value.revisionId, validation.value.contentHash) !=
                                             (revision.id, revision.contentHash);
            var valid := !revision.partial && Validated(revision, validation);
            var safe := plan.Some? && plan.value.counts.blocked == plan.value.counts.unknown == 0
                        && plan.value.counts.manual == plan.value.counts.reviewRequired == 0;
            var generated := revision.kind == GENERATED;
            var changes := generated && safe && plan.value.counts.safeAutomatic > 0;
            var finished := changeSet.Some? && Finished(changeSet.value);
            && (answer == Failure(REVISION_PARTIAL) <==> revision.partial)
            && (answer == Failure(VALIDATION_REVISION_MISMATCH) <==> !revision.partial && other)
            && (answer == Failure(VALIDATION_NOT_PASSED) <==> !revision.partial && !other && !Validated(revision, validation))
            && (answer == Failure(MIGRATION_PLAN_NOT_ELIGIBLE) <==>
                  valid && (!safe || (generated && !changes && plan.value.counts.total != 0)))
            && (answer == Failure(CHANGESET_NOT_FINALIZED) <==> valid && changes && !finished)
            && (answer == Failure(REVISION_NOT_ELIGIBLE) <==>
                  && valid && safe
                  && if generated then changes && finished && revision.changeSetId != Some(changeSet.value.id)
                     else plan.value.counts.total != 0 || plan.value.outcome != READY_TO_APPLY)
            && (answer.Success? ==> answer.value == if generated then changeSet else None)
  {
  }

  // ----- from a plan to the deployed tree -----

  /** The change set's copy of the plan. */
  predicate CopyOf(plan: seq<ChangeSets.PlanAction>, actions: seq<Action>) {
    && |plan| == |actions|
    && (forall i :: 0 <= i < |plan| ==> plan[i].level == actions[i].draft.automationLevel)
    && (forall i, j :: 0 <= i < j < |plan| ==> plan[i].id != plan[j].id)
  }

  lemma {:induction false} AllIdsSafe(plan: seq<ChangeSets.PlanAction>)
    requires forall i :: 0 <= i < |plan| ==> plan[i].level == SAFE_AUTOMATIC
    ensures |ChangeSets.SafeIds(plan)| == |plan|
    ensures forall i :: 0 <= i < |plan| ==> ChangeSets.SafeIds(plan)[i] == plan[i].id
  {
    if plan != [] {
      AllIdsSafe(plan[..|plan| - 1]);
    }
  }

  lemma {:induction false} AcceptedAll(rows: seq<ChangeSets.Row>)
    requires ChangeSets.AllAccepted(rows)
    ensures ChangeSets.AcceptedRows(rows) == rows
  {
    if rows != [] {
      AcceptedAll(rows[1..]);
    }
  }

  /** Row `i` belongs to action `i` of the plan, no other row does, and it was accepted. */
  ghost predicate EachAccepted(plan: seq<ChangeSets.PlanAction>, rows: seq<ChangeSets.Row>) {
    && |rows| == |plan|
    && forall i :: 0 <= i < |plan| ==>
         && rows[i].actionId == plan[i].id && rows[i].verdict == ChangeSets.ACCEPTED
         && forall j :: 0 <= j < |rows| && rows[j].actionId == plan[i].id ==> j == i
  }

  /** The record of the revision that a change set has stored; the content hash is of the tree it was created from. */
  function RevisionRecord(hash: ChangeSets.Tree -> string, id: string, changeSetId: string, r: ChangeSets.Revision): Revision {
    Revision(id, GENERATED, r.completeness == ChangeSets.PARTIAL, hash(r.hashed), Some(changeSetId))
  }

  function RecordOfChangeSet(id: string, s: ChangeSets.ChangeSet): ChangeSetRecord {
    ChangeSetRecord(id, s.status, s.completeness)
  }

  /** What becomes of a stored revision, which may be that of an earlier finalization than the outcome beside it: a
      partial one is refused whatever its change set is by now, and a complete one passes with the content it was created
      from, if the change set is complete by now. */
  lemma StoredRevisionEligible(hash: ChangeSets.Tree -> string, id: string, changeSetId: string, r: ChangeSets.Revision,
                               s: ChangeSets.ChangeSet, validation: Option<Validation>, actions: seq<Action>)
    ensures var revision := RevisionRecord(hash, id, changeSetId, r);
            var result := EvaluateEligibility(revision, validation, Some(RecordOf(actions)), Some(RecordOfChangeSet(changeSetId, s)));
            && (r.completeness == ChangeSets.PARTIAL ==> result == Failure(REVISION_PARTIAL))
            && (result.Success? <==>
                  && r.completeness == ChangeSets.COMPLETE && Validated(revision, validation) && AllSafe(actions)
                  && (actions == [] || (s.status == ChangeSets.FINALIZED && s.completeness == Some(ChangeSets.COMPLETE))))
  {
    EligibleExactly(RevisionRecord(hash, id, changeSetId, r), validation, actions, Some(RecordOfChangeSet(changeSetId, s)));
  }

  ghost predicate Injective(hash: ChangeSets.Tree -> string) {
    forall a, b :: hash(a) == hash(b) ==> a == b
  }

  /** The row names the only file of the action, and has the values that the patcher reported for it. */
  predicate FromPatcher(engine: ChangeSets.Engine, base: ChangeSets.Tree, a: ChangeSets.PlanAction, row: ChangeSets.Row) {
    && ChangeSets.Patchable(engine, base, a, row.filePath)
    && var patch := engine.generate(a, row.filePath, base[row.filePath]);
       patch.Patched? && row.source == Some(patch.source) && row.target == Some(patch.target)
  }

  lemma AllActionsSafe(plan: seq<ChangeSets.PlanAction>)
    requires forall i :: 0 <= i < |plan| ==> plan[i].level == SAFE_AUTOMATIC
    ensures ChangeSets.SafeActions(plan) == plan
  {
    FilterAll((a: ChangeSets.PlanAction) => a.level == SAFE_AUTOMATIC, plan);
  }

  lemma AcceptedFromPatcher(engine: ChangeSets.Engine, plan: seq<ChangeSets.PlanAction>, base: ChangeSets.Tree, rows: seq<ChangeSets.Row>)
    requires ChangeSets.FromPlan(engine, plan, base, rows) && ChangeSets.AllAccepted(rows) && ChangeSets.SafeActions(plan) == plan
    ensures |rows| == |plan| && forall i :: 0 <= i < |plan| ==> FromPatcher(engine, base, plan[i], rows[i])
  {
    var generated :| ChangeSets.RowsFit(engine, base, plan, generated) && ChangeSets.Evolves(generated, rows);
    forall i | 0 <= i < |plan|
      ensures FromPatcher(engine, base, plan[i], rows[i])
    {
      assert rows[i] in rows && ChangeSets.RowFits(engine, base, plan[i], generated[i]);
    }
  }

  /** If the stored revision of a change set whose plan has actions may be deployed, then every action of the plan was
      safe, each has exactly one row, which was accepted, and the stored artifact is the base tree with all of these
      changes, and no others, applied. The content hash is that of the artifact if the revision describes it, and, where
      hashes do not collide, only then. */
  lemma EligibleMeansApplied(engine: ChangeSets.Engine, plan: seq<ChangeSets.PlanAction>, base: ChangeSets.Tree,
                             s: ChangeSets.ChangeSet, hash: ChangeSets.Tree -> string, id: string, changeSetId: string,
                             r: ChangeSets.Revision, validation: Option<Validation>, actions: seq<Action>)
    requires ChangeSets.Sound(engine, plan, base, s) && CopyOf(plan, actions) && actions != [] && s.revision == Some(r)
    requires EvaluateEligibility(RevisionRecord(hash, id, changeSetId, r), validation, Some(RecordOf(actions)),
                                 Some(RecordOfChangeSet(changeSetId, s))).Success?
    ensures AllSafe(actions) && EachAccepted(plan, s.rows)
    ensures s.artifact.Some? &&
            exists order :: multiset(order) == multiset(s.rows)
              && ChangeSets.InTurn(engine, plan, base, order, s.artifact.value)
    ensures forall i :: 0 <= i < |plan| ==> FromPatcher(engine, base, plan[i], s.rows[i])
    ensures ChangeSets.Describes(s.revision, s) ==> hash(s.artifact.value) == RevisionRecord(hash, id, changeSetId, r).contentHash
    ensures Injective(hash) && hash(s.artifact.value) == RevisionRecord(hash, id, changeSetId, r).contentHash ==>
              ChangeSets.Describes(s.revision, s)
  {
    hide ChangeSets.Logged, ChangeSets.CountsOf, ChangeSets.FromPlan;
    StoredRevisionEligible(hash, id, changeSetId, r, s, validation, actions);
    hide EvaluateEligibility;
    forall i | 0 <= i < |plan|
      ensures plan[i].level == SAFE_AUTOMATIC
    {
      assert actions[i] in actions;
    }
    AllIdsSafe(plan);
    assert ChangeSets.AllAccepted(s.rows);
    AcceptedAll(s.rows);
    AllActionsSafe(plan);
    AcceptedFromPatcher(engine, plan, base, s.rows);
    hide ChangeSets.InTurn, ChangeSets.AcceptedRows, ChangeSets.FromPlan, FromPatcher;
    AcceptedRow(plan, s.rows);
  }

  lemma AcceptedRow(plan: seq<ChangeSets.PlanAction>, rows: seq<ChangeSets.Row>)
    requires |rows| == |plan| && ChangeSets.AllAccepted(rows)
    requires forall i :: 0 <= i < |plan| ==> ChangeSets.ActionIds(rows)[i] == plan[i].id
    requires forall i, j :: 0 <= i < j < |plan| ==> plan[i].id != plan[j].id
    ensures EachAccepted(plan, rows)
  {
    forall i | 0 <= i < |plan|
      ensures rows[i].actionId == plan[i].id && rows[i].verdict == ChangeSets.ACCEPTED
      ensures forall j :: 0 <= j < |rows| && rows[j].actionId == plan[i].id ==> j == i
    {
      assert rows[i] in rows && ChangeSets.ActionIds(rows)[i] == plan[i].id;
      forall j | 0 <= j < |rows| && rows[j].actionId == plan[i].id
        ensures j == i
      {
        assert ChangeSets.ActionIds(rows)[j] == plan[j].id;
      }
    }
  }
}
