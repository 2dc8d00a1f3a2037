/** Change sets whose generated revision does not describe their artifact: a first finalization writes the revision and
    then fails, the change set is generated and reviewed again, and a second finalization goes through. */
module ChangeSetScenarios {
  import opened ChangeSetEngine
  import opened ChangeSets
  import opened DraftMerging
  import opened Options
  import opened Sequences

  /** Generated, reviewed and finalized twice, where the first finalization fails to write the completeness. */
  method FinalizeTwice(engine: Engine, plan: seq<PlanAction>, base: Tree, calm: Surroundings, first: Surroundings, second: Surroundings,
                       ghost rows: seq<Row>, ghost tree1: Tree, ghost tree2: Tree)
    returns (store: Store)
    requires RowsFor(engine, base, plan) == Some(rows)
    requires AllFine(calm) && Calm(first) && first.fate(13) == FailsBefore && Calm(second) && second.fate(13) == Fine
    requires Built(engine, plan, base, ReviewedRows(rows, first), first) == Some(tree1)
    requires Built(engine, plan, base, ReviewedRows(rows, second), second) == Some(tree2)
    ensures store.Valid() && store.status == FINALIZED
    ensures store.completeness == Some(CompletenessOf(ReviewedRows(rows, second))) && store.artifact == Some(tree2)
    ensures store.revision == Some(Revision(CompletenessOf(ReviewedRows(rows, first)), tree1))
  {
    RowsForFit(engine, base, plan);
    hide RowsFor, Built, ReviewedRows, CompletenessOf, Sound, CountsOf, CountsMean, Raises, RowsFit, Evolves, Made, AllFine;
    store := new Store(engine, plan, base);
    var _ := ProcessGenerate(store, calm, false);
    var _ := ProcessFinalize(store, first, false);
    var _ := ProcessGenerate(store, calm, false);
    var _ := ProcessFinalize(store, second, false);
    FinishedIsComplete(store);
  }

  // ----- an example -----

  function Appending(): Engine {
    Engine((a: PlanAction, path: string, text: string) => Patched(text, "", ""),
           (a: PlanAction, path: string, text: string) => Patched(text + a.id, "", ""),
           path => true, text => false)
  }

  function Act(id: string): PlanAction {
    PlanAction(id, SAFE_AUTOMATIC, ["f"], None, None)
  }

  function TwoActions(): seq<PlanAction> {
    [Act("1"), Act("2")]
  }

  function Text(text: string): Tree {
    map["f" := text]
  }

  function Change(id: string, verdict: Verdict): Row {
    Row(id, "f", verdict, Some(""), Some(""))
  }

  function Reversed(rows: seq<Row>): seq<Row> {
    if |rows| == 2 then [rows[1], rows[0]] else rows
  }

  function Answering(fails: bool, acceptAll: bool, reverse: bool): Surroundings {
    Surroundings(k => if fails && k == 13 then FailsBefore else Fine, k => if acceptAll && k == 0 then [AcceptAll(true)] else [],
                 rows => if reverse then Reversed(rows) else rows)
  }

  lemma ChangeFor(id: string, text: string)
    ensures RowFor(Appending(), Text(text), Act(id)) == Some(Change(id, PROPOSED))
  {
    UniqueOne();
  }

  lemma UniqueOne()
    ensures UniqueBy(Identity<string>, ["f"]) == ["f"]
  {
  }

  lemma RowsForTwo(text: string)
    ensures RowsFor(Appending(), Text(text), TwoActions()) == Some(Pair(PROPOSED))
  {
    ChangeFor("1", text);
    ChangeFor("2", text);
    hide RowFor;
    var base := Text(text);
    var one, two := [Act("1")], TwoActions();
    var first: seq<Row> := [];
    assert two[..1] == one && one[..0] == [] && first + [Change("1", PROPOSED)] == [Change("1", PROPOSED)];
    assert RowsFor(Appending(), base, one[..0]) == Some(first);
    assert one[0] == Act("1") && two[1] == Act("2");
    assert RowsFor(Appending(), base, one) == Some([Change("1", PROPOSED)]);
    assert RowsFor(Appending(), base, two[..1]) == Some([Change("1", PROPOSED)]);
    assert [Change("1", PROPOSED)] + [Change("2", PROPOSED)] == [Change("1", PROPOSED), Change("2", PROPOSED)];
  }

  function Pair(verdict: Verdict): seq<Row> {
    [Change("1", verdict), Change("2", verdict)]
  }

  lemma Reviews(env: Surroundings)
    requires env.calls(0) == [] || env.calls(0) == [AcceptAll(true)]
    requires env.calls(1) == [] && env.calls(3) == []
    ensures ReviewedRows(Pair(PROPOSED), env) == Pair(if env.calls(0) == [] then SKIPPED else ACCEPTED)
  {
    var rows := Pair(PROPOSED);
    assert Settle(rows, ACCEPTED) == Pair(ACCEPTED) && Settle(rows, SKIPPED) == Pair(SKIPPED);
    assert Settle(Pair(ACCEPTED), SKIPPED) == Pair(ACCEPTED);
    if env.calls(0) != [] {
      assert env.calls(0)[..0] == [];
      assert DecidedAll(rows, env.calls(0)) == Pair(ACCEPTED);
    }
  }

  lemma PairCompleteness(verdict: Verdict)
    ensures CompletenessOf(Pair(verdict)) == if verdict == ACCEPTED then COMPLETE else PARTIAL
  {
    assert Pair(verdict)[0] in Pair(verdict);
  }

  lemma AcceptedPair(verdict: Verdict)
    ensures AcceptedRows(Pair(verdict)) == if verdict == ACCEPTED then Pair(ACCEPTED) else []
  {
    assert Pair(verdict)[1..] == [Change("2", verdict)] && Pair(verdict)[1..][1..] == [];
  }

  lemma AppendId(text: string, id: string)
    requires id == "1" || id == "2"
    ensures ApplyRow(Appending(), TwoActions(), Text(text), Change(id, ACCEPTED)) == Some(Text(text + id))
  {
    var two := TwoActions();
    assert two[..1] == [Act("1")];
    assert FindAction([Act("1")], "1") == Some(Act("1"));
    assert FindAction(two, id) == Some(Act(id));
    assert Text(text)["f" := text + id] == Text(text + id);
  }

  lemma AppendTwo(text: string, a: string, b: string)
    requires {a, b} <= {"1", "2"}
    ensures ApplyRows(Appending(), TwoActions(), Text(text), [Change(a, ACCEPTED), Change(b, ACCEPTED)])
            == Some(Text(text + a + b))
  {
    AppendId(text, a);
    AppendId(text + a, b);
    hide ApplyRow;
    var one, two := [Change(a, ACCEPTED)], [Change(a, ACCEPTED), Change(b, ACCEPTED)];
    assert two[..1] == one && one[..0] == [];
    assert ApplyRows(Appending(), TwoActions(), Text(text), one) == Some(Text(text + a));
  }

  lemma NothingApplied()
    ensures ApplyRows(Appending(), TwoActions(), Text("x"), []) == Some(Text("x"))
  {
  }

  lemma BuiltAccepted(env: Surroundings, reverse: bool)
    requires env.arrange == Answering(false, false, reverse).arrange
    ensures Built(Appending(), TwoActions(), Text("x"), Pair(ACCEPTED), env) == Some(Text(if reverse then "x21" else "x12"))
  {
    AcceptedPair(ACCEPTED);
    AppendTwo("x", "1", "2");
    AppendTwo("x", "2", "1");
    hide ApplyRows, AcceptedRows, Appending, TwoActions, Text;
    var accepted := AcceptedRows(Pair(ACCEPTED));
    var other := [Change("2", ACCEPTED), Change("1", ACCEPTED)];
    assert multiset(other) == multiset(accepted);
    assert env.arrange(accepted) == if reverse then other else accepted;
    assert "x" + "1" + "2" == "x12" && "x" + "2" + "1" == "x21";
  }

  lemma BuiltSkipped(env: Surroundings, reverse: bool)
    requires env.arrange == Answering(false, false, reverse).arrange
    ensures Built(Appending(), TwoActions(), Text("x"), Pair(SKIPPED), env) == Some(Text("x"))
  {
    AcceptedPair(SKIPPED);
    NothingApplied();
    hide ApplyRows, AcceptedRows, Appending, TwoActions, Text;
  }

  lemma AnswersCalmly(fails: bool, acceptAll: bool, reverse: bool)
    ensures var env := Answering(fails, acceptAll, reverse);
            && Calm(env) && env.fate(13) == (if fails then FailsBefore else Fine) && (!fails ==> AllFine(env))
            && env.calls(0) == (if acceptAll then [AcceptAll(true)] else []) && env.calls(1) == [] && env.calls(3) == []
            && env.arrange == Answering(false, false, reverse).arrange
  {
  }

  lemma Answers(fails: bool, acceptAll: bool, reverse: bool)
    ensures var env := Answering(fails, acceptAll, reverse);
            && Calm(env) && env.fate(13) == (if fails then FailsBefore else Fine) && (!fails ==> AllFine(env))
            && ReviewedRows(Pair(PROPOSED), env) == Pair(if acceptAll then ACCEPTED else SKIPPED)
            && Built(Appending(), TwoActions(), Text("x"), Pair(if acceptAll then ACCEPTED else SKIPPED), env) ==
               Some(Text(if !acceptAll then "x" else if reverse then "x21" else "x12"))
  {
    var env := Answering(fails, acceptAll, reverse);
    AnswersCalmly(fails, acceptAll, reverse);
    hide *;
    Reviews(env);
    if acceptAll { BuiltAccepted(env, reverse); } else { BuiltSkipped(env, reverse); }
  }

  lemma StaleText(text: string)
    requires text == "x" || text == "x12"
    ensures Text(text) != Text("x21")
  {
    assert Text(text)["f"] == text && Text("x21")["f"] == "x21";
  }

  /** Two actions on one file. The first finalization, of everything or of nothing, writes its revision and fails; the
      second, with everything accepted and listed the other way round, goes through. The change set is complete, but the
      revision is still the first one: with everything accepted its content is another, with nothing it is partial. */
  method StaleRevision(accept: bool) returns (store: Store)
    ensures store.Valid() && store.status == FINALIZED && store.completeness == Some(COMPLETE)
    ensures store.artifact == Some(Text("x21"))
    ensures store.revision == Some(if accept then Revision(COMPLETE, Text("x12")) else Revision(PARTIAL, Text("x")))
    ensures !Describes(store.revision, store.Value())
  {
    RowsForTwo("x");
    Answers(false, false, false);
    Answers(true, accept, false);
    Answers(false, true, true);
    PairCompleteness(ACCEPTED);
    PairCompleteness(SKIPPED);
    StaleText(if accept then "x12" else "x");
    hide *;
    store := FinalizeTwice(Appending(), TwoActions(), Text("x"), Answering(false, false, false), Answering(true, accept, false),
                           Answering(false, true, true), Pair(PROPOSED), Text(if accept then "x12" else "x"), Text("x21"));
    NotDescribed(store);
  }

  lemma NotDescribed(store: Store)
    requires store.artifact.Some? && store.revision.Some? && store.revision.value.hashed != store.artifact.value
    ensures !Describes(store.revision, store.Value())
  {
  }
}
