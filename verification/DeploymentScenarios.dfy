/** Executions of the deployment protocol that show what it can do, and what it cannot prevent. */
module DeploymentScenarios {
  import opened DeploymentCredentialUse
  import opened DeploymentDiscipline
  import opened DeploymentProtocol
  import opened DeploymentRun
  import opened Options

  // ----- building executions -----

  /** Some execution from `from` ends in `w`; if `disciplined`, one that keeps the delivery discipline. */
  ghost predicate Reached(from: World, w: World, disciplined: bool) {
    exists actions: seq<Action> :: Execution(from, actions) == w && (disciplined ==> Disciplined(from, actions))
  }

  lemma ReachedStart(from: World)
    ensures Reached(from, from, true)
  {
    var none: seq<Action> := [];
    assert Execution(from, none) == from && Disciplined(from, none);
  }

  lemma Undisciplined(from: World, w: World)
    requires Reached(from, w, true)
    ensures Reached(from, w, false)
  {
  }

  lemma Extend(from: World, w: World, a: Action, disciplined: bool)
    requires Reached(from, w, disciplined)
    requires disciplined && a.Deliver? ==> NobodyWorks(w) && Deliverable(a.job, w.run)
    ensures Reached(from, Act(w, a), disciplined)
  {
    var actions: seq<Action> :| Execution(from, actions) == w && (disciplined ==> Disciplined(from, actions));
    var all := actions + [a];
    assert all[..|all| - 1] == actions && all[|all| - 1] == a;
    assert Execution(from, all) == Act(w, a);
  }

  lemma Give(from: World, w: World, p: nat, job: Job, disciplined: bool) returns (w': World)
    requires Reached(from, w, disciplined) && p < |w.procs| && w.procs[p].pc == At(Idle)
    requires disciplined ==> NobodyWorks(w) && Deliverable(job, w.run)
    ensures Reached(from, w', disciplined)
    ensures w' == w.(procs := w.procs[p := w.procs[p].(pc := At(Entrance(job)))])
  {
    Extend(from, w, Deliver(p, job), disciplined);
    w' := Act(w, Deliver(p, job));
  }

  lemma Advance(from: World, w: World, p: nat, c: Choice, o: Outcome, disciplined: bool) returns (w': World)
    requires Reached(from, w, disciplined) && p < |w.procs|
    requires Next(w.run, w.procs[p].live, w.procs[p].pc, c) == o
    ensures Reached(from, w', disciplined) && w' == Perform(w, p, o)
  {
    Extend(from, w, Step(p, c), disciplined);
    w' := Act(w, Step(p, c));
  }

  /** A step without an effect. */
  lemma Move(from: World, w: World, p: nat, c: Choice, o: Outcome, disciplined: bool) returns (w': World)
    requires Reached(from, w, disciplined) && p < |w.procs|
    requires o.effect == Nothing && Next(w.run, w.procs[p].live, w.procs[p].pc, c) == o
    ensures Reached(from, w', disciplined)
    ensures w' == w.(procs := w.procs[p := w.procs[p].(pc := o.pc)])
  {
    w' := Advance(from, w, p, c, o, disciplined);
  }

  /** A claim whose edge is in the table, written without asking what is stored. */
  lemma Write(from: World, w: World, p: nat, disciplined: bool) returns (w': World)
    requires Reached(from, w, disciplined) && p < |w.procs|
    requires w.procs[p].pc.Claim? && Allowed(w.procs[p].pc.from, w.procs[p].pc.to)
    ensures Reached(from, w', disciplined)
    ensures var pc := w.procs[p].pc;
            w' == w.(run := ApplyTransition(w.run, pc.from, pc.to), procs := w.procs[p := w.procs[p].(pc := At(pc.next))])
  {
    var pc := w.procs[p].pc;
    w' := Advance(from, w, p, GOOD, Outcome(At(pc.next), Claimed(pc.from, pc.to)), disciplined);
  }

  // ----- a run that succeeds -----

  /** The claims of a preparation before it allocates a workspace. */
  function Opening(status: Status): seq<Event> {
    if status == QUEUED then [Event(QUEUED, CHECKING_ELIGIBILITY), Event(CHECKING_ELIGIBILITY, PREPARING)]
    else if status == CHECKING_ELIGIBILITY then [Event(CHECKING_ELIGIBILITY, PREPARING)]
    else []
  }

  /** A preparation that goes well, on any run from which it does not return early. */
  lemma PrepareWell(from: World, w: World, p: nat, disciplined: bool) returns (w': World)
    requires Reached(from, w, disciplined) && p < |w.procs| && w.procs[p].pc == At(Idle)
    requires (Early(w.run.status) && w.run.status != PREPARED) || w.run.status == FAILED
    requires disciplined ==> NobodyWorks(w) && Deliverable(Prepare, w.run)
    ensures Reached(from, w', disciplined)
    ensures w'.run.status == PREPARED && w'.run.txs == w.run.txs
    ensures w'.run.events == w.run.events + Opening(w.run.status) + [Event(PREPARING, SIMULATING), Event(SIMULATING, PREPARED)]
    ensures w'.procs == w.procs[p := Process(Some(w.issued), At(Idle))]
    ensures w'.issued == w.issued + 1 && w'.history == w.history + [Issued(p, w.issued)]
  {
    hide Reached, Deliverable, NobodyWorks;
    var a := Give(from, w, p, Prepare, disciplined);
    if w.run.status == QUEUED {
      a := Move(from, a, p, GOOD, Try(QUEUED, CHECKING_ELIGIBILITY, PrepareChecks, Idle), disciplined);
      a := Write(from, a, p, disciplined);
    } else {
      a := Move(from, a, p, GOOD, Go(PrepareChecks), disciplined);
    }
    hide Next, Early;
    a := PrepareOpening(from, a, p, disciplined);
    w' := PrepareRest(from, a, p, disciplined);
  }

  lemma PrepareOpening(from: World, w: World, p: nat, disciplined: bool) returns (w': World)
    requires Reached(from, w, disciplined) && p < |w.procs| && w.procs[p].pc == At(PrepareChecks)
    ensures Reached(from, w', disciplined) && w' == w.(run := w'.run, procs := w.procs[p := w.procs[p].(pc := At(PrepareAllocate))])
    ensures w'.run == if w.run.status == CHECKING_ELIGIBILITY then ApplyTransition(w.run, CHECKING_ELIGIBILITY, PREPARING) else w.run
  {
    hide Reached;
    w' := Move(from, w, p, GOOD, Go(PrepareLatest), disciplined);
    if w.run.status == CHECKING_ELIGIBILITY {
      w' := Move(from, w', p, GOOD, Try(CHECKING_ELIGIBILITY, PREPARING, PrepareAllocate, Idle), disciplined);
      w' := Write(from, w', p, disciplined);
    } else {
      w' := Move(from, w', p, GOOD, Go(PrepareAllocate), disciplined);
    }
  }

  lemma PrepareRest(from: World, w: World, p: nat, disciplined: bool) returns (w': World)
    requires Reached(from, w, disciplined) && p < |w.procs| && w.procs[p].pc == At(PrepareAllocate)
    ensures Reached(from, w', disciplined)
    ensures w'.run == Run(PREPARED, w.run.events + [Event(PREPARING, SIMULATING), Event(SIMULATING, PREPARED)], w.run.txs)
    ensures w'.procs == w.procs[p := Process(Some(w.issued), At(Idle))]
    ensures w'.issued == w.issued + 1 && w'.history == w.history + [Issued(p, w.issued)]
  {
    hide Reached;
    var a := Move(from, w, p, GOOD, Go(PrepareCandidate), disciplined);
    a := Move(from, a, p, GOOD, Go(PrepareIssue), disciplined);
    a := Advance(from, a, p, GOOD, Outcome(At(PrepareSandbox), Issue), disciplined);
    a := Move(from, a, p, GOOD, Try(PREPARING, SIMULATING, PrepareSimulate, PrepareCatch), disciplined);
    a := Write(from, a, p, disciplined);
    a := Move(from, a, p, GOOD, Try(SIMULATING, PREPARED, Idle, PrepareCatch), disciplined);
    w' := Write(from, a, p, disciplined);
  }

  /** From the start of a funded broadcast to the end of the execution. */
  lemma FundAndExecute(from: World, w: World, p: nat, credential: Credential, c: Choice, disciplined: bool) returns (w': World)
    requires Reached(from, w, disciplined) && p < |w.procs| && w.procs[p].pc == At(BroadcastTarget(PREPARED, credential))
    ensures Reached(from, w', disciplined)
    ensures w'.run == Run(BROADCASTING, w.run.events + [Event(PREPARED, FUNDING), Event(FUNDING, BROADCASTING)], w.run.txs)
    ensures w'.procs == w.procs[p := w.procs[p].(pc :=
              At(if c.throws then BroadcastCatch(true) else BroadcastJournal(c.journal, c.artifacts, 0, c.timedOut, c.good)))]
    ensures w'.issued == w.issued && w'.history == w.history + [Executed(p, credential)]
  {
    hide Reached;
    var a := Move(from, w, p, GOOD, Try(PREPARED, FUNDING, BroadcastFund(credential), Idle), disciplined);
    a := Write(from, a, p, disciplined);
    a := Move(from, a, p, GOOD, Go(BroadcastLookup(credential)), disciplined);
    a := Move(from, a, p, GOOD, Go(BroadcastSandbox(credential)), disciplined);
    a := Move(from, a, p, GOOD, Try(FUNDING, BROADCASTING, BroadcastExecute(credential), BroadcastCatch(false)), disciplined);
    a := Write(from, a, p, disciplined);
    w' := Advance(from, a, p, c,
                  Outcome(At(if c.throws then BroadcastCatch(true)
                             else BroadcastJournal(c.journal, c.artifacts, 0, c.timedOut, c.good)), Execute(credential)),
                  disciplined);
  }

  /** One submitted transaction is recorded. */
  lemma RecordOne(from: World, w: World, p: nat, hash: Hash) returns (w': World)
    requires Reached(from, w, true) && p < |w.procs| && w.procs[p].pc == At(BroadcastJournal([hash], [], 0, false, true))
    requires w.run.txs == []
    ensures Reached(from, w', true) && w'.history == w.history
    ensures w'.run == w.run.(txs := [Tx(hash, 1, SUBMITTED, None, None)])
    ensures |w'.procs| == |w.procs| && w'.procs[p].pc == At(BroadcastDecide([hash], [], false, true))
  {
    hide Reached;
    assert [hash] + [] == [hash];
    var submitted := Tx(hash, 1, SUBMITTED, None, None);
    var a := Advance(from, w, p, GOOD, Outcome(At(BroadcastJournal([hash], [], 1, false, true)), Store(submitted)), true);
    w' := Move(from, a, p, GOOD, Go(BroadcastDecide([hash], [], false, true)), true);
  }

  /** The run goes on to confirmation. */
  lemma GoOn(from: World, w: World, p: nat, journal: seq<Hash>) returns (w': World)
    requires Reached(from, w, true) && p < |w.procs| && w.procs[p].pc == At(BroadcastDecide(journal, [], false, true))
    ensures Reached(from, w', true) && w'.history == w.history
    ensures w'.run == ApplyTransition(w.run, BROADCASTING, CONFIRMING)
    ensures |w'.procs| == |w.procs| && w'.procs[p].pc == At(ConfirmStart(None, true))
  {
    hide Reached;
    var a := Move(from, w, p, GOOD, Try(BROADCASTING, CONFIRMING, ConfirmStart(None, true), BroadcastCatch(true)), true);
    w' := Write(from, a, p, true);
  }

  /** Its receipt is asked for, and found confirmed. */
  lemma ReceiveOne(from: World, w: World, p: nat, hash: Hash) returns (w': World)
    requires Reached(from, w, true) && p < |w.procs| && w.procs[p].pc == At(ConfirmStart(None, true))
    requires w.run.txs == [Tx(hash, 1, SUBMITTED, None, None)]
    ensures Reached(from, w', true) && w'.history == w.history
    ensures w'.run == w.run.(txs := [Tx(hash, 1, CONFIRMED, None, None)])
    ensures |w'.procs| == |w.procs| && w'.procs[p].pc == At(ConfirmCurrent(true))
  {
    assert Hashes(w.run.txs) == [hash];
    hide Reached, Record;
    var a := Move(from, w, p, GOOD, Go(ConfirmReceipts([hash], false, None, true)), true);
    hide Next, Perform;
    w' := ReceiptOne(from, a, p, hash);
  }

  lemma ReceiptOne(from: World, w: World, p: nat, hash: Hash) returns (w': World)
    requires Reached(from, w, true) && p < |w.procs| && w.procs[p].pc == At(ConfirmReceipts([hash], false, None, true))
    requires w.run.txs == [Tx(hash, 1, SUBMITTED, None, None)]
    ensures Reached(from, w', true) && w'.history == w.history
    ensures w'.run == w.run.(txs := [Tx(hash, 1, CONFIRMED, None, None)])
    ensures |w'.procs| == |w.procs| && w'.procs[p].pc == At(ConfirmCurrent(true))
  {
    hide Reached, Record;
    assert [hash][1..] == [];
    ConfirmedRow(hash);
    var a := Advance(from, w, p, GOOD, Outcome(At(ConfirmReceipts([], false, None, true)), Store(Tx(hash, 0, CONFIRMED, None, None))), true);
    w' := Move(from, a, p, GOOD, Go(ConfirmCurrent(true)), true);
  }

  lemma ConfirmedRow(hash: Hash)
    ensures Record([Tx(hash, 1, SUBMITTED, None, None)], Tx(hash, 0, CONFIRMED, None, None)) ==
            [Tx(hash, 1, CONFIRMED, None, None)]
  {
  }

  /** The run goes on to the checks. */
  lemma ToChecks(from: World, w: World, p: nat) returns (w': World)
    requires Reached(from, w, true) && p < |w.procs| && w.procs[p].pc == At(ConfirmCurrent(true))
    requires w.run.status == CONFIRMING
    ensures Reached(from, w', true) && w'.history == w.history
    ensures w'.run == ApplyTransition(w.run, CONFIRMING, VERIFYING)
    ensures |w'.procs| == |w.procs| && w'.procs[p].pc == At(ConfirmChecks(true))
  {
    hide Reached, AllConfirmed;
    var a := Move(from, w, p, GOOD, Go(ConfirmAfter(true)), true);
    a := Move(from, a, p, GOOD, Try(CONFIRMING, VERIFYING, ConfirmChecks(true), BroadcastCatch(true)), true);
    w' := Write(from, a, p, true);
  }

  /** The run is verified. */
  lemma VerifyOne(from: World, w: World, p: nat) returns (w': World)
    requires Reached(from, w, true) && p < |w.procs| && w.procs[p].pc == At(ConfirmChecks(true))
    requires AllConfirmed(w.run.txs)
    ensures Reached(from, w', true) && w'.history == w.history
    ensures w'.run == ApplyTransition(w.run, VERIFYING, COMPLETED)
    ensures w'.procs == w.procs[p := Process(None, At(Idle))]
  {
    hide Reached, AllConfirmed;
    var a := Move(from, w, p, GOOD, Try(VERIFYING, COMPLETED, BroadcastFinally, BroadcastCatch(true)), true);
    a := Write(from, a, p, true);
    w' := Advance(from, a, p, GOOD, Outcome(At(Idle), Destroy), true);
  }

  function PrepareLog(): seq<Event> {
    [Event(QUEUED, CHECKING_ELIGIBILITY), Event(CHECKING_ELIGIBILITY, PREPARING), Event(PREPARING, SIMULATING),
     Event(SIMULATING, PREPARED)]
  }

  /** From a prepared run to the end of the execution, in one process. */
  lemma BroadcastPrepared(from: World, w: World, p: nat, c: Choice, disciplined: bool) returns (w': World)
    requires Reached(from, w, disciplined) && p < |w.procs| && w.procs[p].pc == At(Idle) && w.procs[p].live.Some?
    requires w.run.status == PREPARED && (disciplined ==> NobodyWorks(w))
    ensures Reached(from, w', disciplined)
    ensures w'.run == Run(BROADCASTING, w.run.events + [Event(PREPARED, FUNDING), Event(FUNDING, BROADCASTING)], w.run.txs)
    ensures w'.procs == w.procs[p := w.procs[p].(pc :=
              At(if c.throws then BroadcastCatch(true) else BroadcastJournal(c.journal, c.artifacts, 0, c.timedOut, c.good)))]
    ensures w'.issued == w.issued && w'.history == w.history + [Executed(p, w.procs[p].live.value)]
  {
    hide Reached, NobodyWorks;
    var a := Give(from, w, p, Broadcast, disciplined);
    a := Move(from, a, p, GOOD, Go(BroadcastTarget(PREPARED, w.procs[p].live.value)), disciplined);
    w' := FundAndExecute(from, a, p, w.procs[p].live.value, c, disciplined);
  }

  /** One issue, one execution. */
  lemma OneExecution(h: seq<Entry>)
    requires h == [Issued(0, 0), Executed(0, 0)]
    ensures CountExecuted(h) == 1
  {
    var first := h[..1];
    assert first == [Issued(0, 0)] && first[..0] == [];
    assert CountExecuted(first) == 0;
  }

  /** A disciplined execution can complete, through every status of the flow, with one execution of the script. */
  lemma CanComplete(hash: Hash) returns (w: World)
    ensures Reached(Start(1), w, true) && w.run.status == COMPLETED && CountExecuted(w.history) == 1
    ensures w.run.txs == [Tx(hash, 1, CONFIRMED, None, None)] && w.procs == [Process(None, At(Idle))]
    ensures w.run.events == PrepareLog() +
              [Event(PREPARED, FUNDING), Event(FUNDING, BROADCASTING), Event(BROADCASTING, CONFIRMING),
               Event(CONFIRMING, VERIFYING), Event(VERIFYING, COMPLETED)]
  {
    hide Reached, CountExecuted;
    w := ExecutedWith(hash);
    w := RecordOne(Start(1), w, 0, hash);
    w := GoOn(Start(1), w, 0, [hash]);
    w := ReceiveOne(Start(1), w, 0, hash);
    w := ToChecks(Start(1), w, 0);
    w := VerifyOne(Start(1), w, 0);
  }

  /** Prepared and executed, with one transaction in the journal. */
  lemma ExecutedWith(hash: Hash) returns (w: World)
    ensures Reached(Start(1), w, true) && CountExecuted(w.history) == 1
    ensures w.run == Run(BROADCASTING, PrepareLog() + [Event(PREPARED, FUNDING), Event(FUNDING, BROADCASTING)], [])
    ensures |w.procs| == 1 && w.procs[0].pc == At(BroadcastJournal([hash], [], 0, false, true))
  {
    hide Reached, Execution, Disciplined;
    ReachedStart(Start(1));
    w := PrepareWell(Start(1), Start(1), 0, true);
    w := BroadcastPrepared(Start(1), w, 0, GOOD.(journal := [hash]), true);
    OneExecution(w.history);
  }

  // ----- what interleaving can do -----

  /** A cancellation that reads PREPARED before a broadcast starts, and writes after the broadcast has read PREPARED,
      is overwritten: the log says CANCELLED, and the script runs all the same. Every job was deliverable. */
  lemma CancelOverwritten() returns (w: World)
    ensures Reached(Start(2), w, false) && w.run.status == BROADCASTING && CountExecuted(w.history) == 1
    ensures w.run.events == PrepareLog() +
              [Event(PREPARED, CANCELLED), Event(PREPARED, FUNDING), Event(FUNDING, BROADCASTING)]
    ensures !Consistent(w.run)
  {
    ReachedStart(Start(2));
    Undisciplined(Start(2), Start(2));
    hide Reached, Execution, Disciplined;
    var a := PrepareWell(Start(2), Start(2), 0, false);
    w := CancelRaces(Start(2), a);
    hide CountExecuted, Consistent, PrepareLog;
    OneExecution(w.history);
    CancelledInBetween(w.run);
  }

  lemma CancelledInBetween(run: Run)
    requires run.events == PrepareLog() +
               [Event(PREPARED, CANCELLED), Event(PREPARED, FUNDING), Event(FUNDING, BROADCASTING)]
    ensures !Consistent(run)
  {
    FalseClaim(run, |PrepareLog()| + 1);
  }

  lemma FalseClaim(run: Run, i: nat)
    requires 0 < i < |run.events| && run.events[i].from != run.events[i - 1].to
    ensures !Consistent(run)
  {
    assert !TruthfulAt(run.events, i);
  }

  lemma CancelRaces(from: World, w: World) returns (w': World)
    requires Reached(from, w, false) && |w.procs| == 2 && w.procs[1].pc == At(Idle)
    requires w.run.status == PREPARED && w.procs[0] == Process(Some(0), At(Idle))
    ensures Reached(from, w', false) && w'.history == w.history + [Executed(0, 0)]
    ensures w'.run == Run(BROADCASTING, w.run.events + [Event(PREPARED, CANCELLED)] +
                                        [Event(PREPARED, FUNDING), Event(FUNDING, BROADCASTING)], w.run.txs)
  {
    hide Reached;
    var a := Give(from, w, 1, Cancel, false);
    a := Move(from, a, 1, GOOD, Try(PREPARED, CANCELLED, Idle, Idle), false);
    a := Give(from, a, 0, Broadcast, false);
    a := Move(from, a, 0, GOOD, Go(BroadcastTarget(PREPARED, 0)), false);
    a := Write(from, a, 1, false);
    w' := FundAndExecute(from, a, 0, 0, GOOD, false);
  }

  // ----- what delivering a preparation to a FAILED run can do -----

  /** The script exits badly and leaves no hashes; the run is FAILED and its credential destroyed. */
  lemma FailCleanly(from: World, w: World, p: nat) returns (w': World)
    requires Reached(from, w, false) && p < |w.procs| && w.procs[p].pc == At(BroadcastJournal([], [], 0, false, false))
    requires w.run.status == BROADCASTING
    ensures Reached(from, w', false) && w'.history == w.history && w'.issued == w.issued
    ensures w'.run == ApplyTransition(w.run, BROADCASTING, FAILED)
    ensures w'.procs == w.procs[p := Process(None, At(Idle))]
  {
    hide Reached, Next;
    var a := DecideOnNothing(from, w, p);
    a := Write(from, a, p, false);
    FinallyDestroys(a.run, a.procs[p].live);
    w' := Advance(from, a, p, GOOD, Outcome(At(Idle), Destroy), false);
  }

  lemma DecideOnNothing(from: World, w: World, p: nat) returns (w': World)
    requires Reached(from, w, false) && p < |w.procs| && w.procs[p].pc == At(BroadcastJournal([], [], 0, false, false))
    ensures Reached(from, w', false)
    ensures w' == w.(procs := w.procs[p := w.procs[p].(pc := Fail(BROADCASTING, BroadcastFinally).pc)])
  {
    hide Reached;
    var none: seq<Hash> := [];
    assert none + none == none;
    w' := Move(from, w, p, GOOD, Go(BroadcastDecide([], [], false, false)), false);
    w' := Move(from, w', p, GOOD, Fail(BROADCASTING, BroadcastFinally), false);
  }

  lemma FinallyDestroys(run: Run, live: Option<Credential>)
    ensures Next(run, live, At(BroadcastFinally), GOOD) == Outcome(At(Idle), Destroy)
  {
  }

  /** Prepared, broadcast, failed. */
  lemma FailOnce(from: World, w: World, p: nat) returns (w': World)
    requires Reached(from, w, false) && p < |w.procs| && w.procs[p].pc == At(Idle) && w.procs[p].live.Some?
    requires w.run.status == PREPARED
    ensures Reached(from, w', false) && w'.issued == w.issued
    ensures w'.history == w.history + [Executed(p, w.procs[p].live.value)]
    ensures w'.run == Run(FAILED, w.run.events + [Event(PREPARED, FUNDING), Event(FUNDING, BROADCASTING)] +
                                  [Event(BROADCASTING, FAILED)], w.run.txs)
    ensures w'.procs == w.procs[p := Process(None, At(Idle))]
  {
    hide Reached;
    var a := BroadcastPrepared(from, w, p, BAD, false);
    w' := FailCleanly(from, a, p);
  }

  lemma TwoExecutions(h: seq<Entry>)
    requires h == [Issued(0, 0), Executed(0, 0), Issued(0, 1), Executed(0, 1)]
    ensures CountExecuted(h) == 2
  {
    assert h[..3][..2] == [Issued(0, 0), Executed(0, 0)] && h[..3][2] == Issued(0, 1) && h[3] == Executed(0, 1);
    OneExecution(h[..3][..2]);
    assert CountExecuted(h[..3]) == 1;
  }

  /** What a preparation and a failed broadcast leave in the log. */
  function RoundLog(from: Status): seq<Event> {
    Opening(from) + [Event(PREPARING, SIMULATING), Event(SIMULATING, PREPARED)] +
    ([Event(PREPARED, FUNDING), Event(FUNDING, BROADCASTING)] + [Event(BROADCASTING, FAILED)])
  }

  lemma PrepareAndFail(from: World, w: World, p: nat) returns (w': World)
    requires Reached(from, w, false) && p < |w.procs| && w.procs[p].pc == At(Idle)
    requires w.run.status == QUEUED || w.run.status == FAILED
    ensures Reached(from, w', false) && w'.issued == w.issued + 1
    ensures w'.history == w.history + [Issued(p, w.issued)] + [Executed(p, w.issued)]
    ensures w'.run == Run(FAILED, w.run.events + RoundLog(w.run.status), w.run.txs)
    ensures |w'.procs| == |w.procs| && w'.procs[p].pc == At(Idle)
  {
    hide Reached;
    var a := PrepareWell(from, w, p, false);
    w' := FailOnce(from, a, p);
  }

  lemma RevivedInconsistent(run: Run, failed: seq<Event>, revived: seq<Event>)
    requires run.events == failed + revived
    requires failed != [] && failed[|failed| - 1].to == FAILED && revived != [] && revived[0].from == PREPARING
    ensures !Consistent(run)
  {
    FalseClaim(run, |failed|);
  }

  lemma TwoRounds(from: World, w: World, p: nat) returns (w': World)
    requires Reached(from, w, false) && p < |w.procs| && w.procs[p].pc == At(Idle) && w.run.status == QUEUED
    ensures Reached(from, w', false) && w'.run == Run(FAILED, w.run.events + RoundLog(QUEUED) + RoundLog(FAILED), w.run.txs)
    ensures w'.history == w.history + [Issued(p, w.issued)] + [Executed(p, w.issued)] +
                          [Issued(p, w.issued + 1)] + [Executed(p, w.issued + 1)]
  {
    hide *;
    var a := PrepareAndFail(from, w, p);
    w' := PrepareAndFail(from, a, p);
  }

  /** One process, no crash: a second preparation revives the FAILED run, and the script runs again with a new
      credential. */
  lemma PrepareRevivesFailedRun() returns (w: World)
    ensures Reached(Start(1), w, false) && CountExecuted(w.history) == 2 && !Consistent(w.run)
    ensures w.run.status == FAILED && w.run.events == RoundLog(QUEUED) + RoundLog(FAILED)
  {
    ReachedStart(Start(1));
    Undisciplined(Start(1), Start(1));
    hide Reached, Execution, Disciplined, Consistent, RoundLog, CountExecuted;
    w := TwoRounds(Start(1), Start(1), 0);
    assert w.history == [Issued(0, 0), Executed(0, 0), Issued(0, 1), Executed(0, 1)];
    TwoExecutions(w.history);
    EndsInconsistent(w.run);
  }

  lemma EndsInconsistent(run: Run)
    requires run.events == [] + RoundLog(QUEUED) + RoundLog(FAILED)
    ensures !Consistent(run) && run.events == RoundLog(QUEUED) + RoundLog(FAILED)
  {
    assert [] + RoundLog(QUEUED) == RoundLog(QUEUED);
    RevivedInconsistent(run, RoundLog(QUEUED), RoundLog(FAILED));
  }

  // ----- what losing the journal does -----

  /** A disciplined execution ends without transactions when the sandbox call throws: the journal of the proxy is not
      read. */
  lemma ThrownExecutionStrands() returns (w: World)
    ensures Reached(Start(1), w, true) && NobodyWorks(w) && CountExecuted(w.history) == 1
    ensures w.run.status == RECONCILIATION_REQUIRED && w.run.txs == []
  {
    hide Reached, Execution, Disciplined;
    ReachedStart(Start(1));
    var a := PrepareWell(Start(1), Start(1), 0, true);
    a := BroadcastPrepared(Start(1), a, 0, GOOD.(throws := true), true);
    OneExecution(a.history);
    w := CatchBroadcast(Start(1), a, 0);
  }

  lemma CatchBroadcast(from: World, w: World, p: nat) returns (w': World)
    requires Reached(from, w, true) && p < |w.procs| && w.procs[p].pc == At(BroadcastCatch(true))
    requires w.run.status == BROADCASTING
    ensures Reached(from, w', true) && w'.history == w.history
    ensures w'.run == ApplyTransition(w.run, BROADCASTING, RECONCILIATION_REQUIRED)
    ensures w'.procs == w.procs[p := Process(None, At(Idle))]
  {
    hide Reached;
    var a := Move(from, w, p, GOOD, Try(BROADCASTING, RECONCILIATION_REQUIRED, BroadcastFinally, BroadcastFinally), true);
    a := Write(from, a, p, true);
    w' := Advance(from, a, p, GOOD, Outcome(At(Idle), Destroy), true);
  }

  lemma CrashOne(w: World) returns (w': World)
    requires Reached(Start(1), w, true) && |w.procs| == 1
    ensures Reached(Start(1), w', true) && NobodyWorks(w') && w'.run == w.run
  {
    Extend(Start(1), w, Crash(0), true);
    w' := Act(w, Crash(0));
  }

  /** A script that exits well but leaves no hashes. */
  lemma ConfirmNothing(w: World) returns (w': World)
    requires Reached(Start(1), w, true) && |w.procs| == 1 && w.procs[0].pc == At(BroadcastJournal([], [], 0, false, true))
    requires w.run.txs == []
    ensures Reached(Start(1), w', true) && |w'.procs| == 1 && w'.procs[0].pc == At(ConfirmStart(None, true))
    ensures w'.run.status == CONFIRMING && w'.run.txs == []
  {
    hide Reached;
    var none: seq<Hash> := [];
    assert none + none == none;
    w' := Move(Start(1), w, 0, GOOD, Go(BroadcastDecide([], [], false, true)), true);
    hide Next;
    w' := GoOn(Start(1), w', 0, []);
  }

  lemma ReceiveNothing(w: World) returns (w': World)
    requires Reached(Start(1), w, true) && |w.procs| == 1 && w.procs[0].pc == At(ConfirmStart(None, true)) && w.run.txs == []
    ensures Reached(Start(1), w', true) && |w'.procs| == 1 && w'.procs[0].pc == At(ConfirmCurrent(true)) && w'.run == w.run
  {
    hide Reached, Next;
    w' := AskForNothing(w);
    NothingToWaitFor(w'.run, w'.procs[0].live);
    w' := Move(Start(1), w', 0, GOOD, Go(ConfirmCurrent(true)), true);
  }

  lemma AskForNothing(w: World) returns (w': World)
    requires Reached(Start(1), w, true) && |w.procs| == 1 && w.procs[0].pc == At(ConfirmStart(None, true)) && w.run.txs == []
    ensures Reached(Start(1), w', true) && |w'.procs| == 1 && w'.run == w.run
    ensures w'.procs[0].pc == At(ConfirmReceipts([], false, None, true))
  {
    assert Hashes(w.run.txs) == [];
    hide Reached, Hashes;
    w' := Move(Start(1), w, 0, GOOD, Go(ConfirmReceipts([], false, None, true)), true);
  }

  lemma NothingToWaitFor(run: Run, live: Option<Credential>)
    ensures Next(run, live, At(ConfirmReceipts([], false, None, true)), GOOD) == Go(ConfirmCurrent(true))
  {
  }

  /** A disciplined execution also ends without transactions in CONFIRMING or in VERIFYING: the script exits well without
      hashes, and the process crashes. */
  lemma SilentExecutionStrands(verifying: bool) returns (w: World)
    ensures Reached(Start(1), w, true) && NobodyWorks(w) && w.run.txs == []
    ensures w.run.status == if verifying then VERIFYING else CONFIRMING
  {
    hide Reached, Execution, Disciplined;
    ReachedStart(Start(1));
    w := PrepareWell(Start(1), Start(1), 0, true);
    w := BroadcastPrepared(Start(1), w, 0, GOOD, true);
    w := ConfirmNothing(w);
    if verifying {
      w := ReceiveNothing(w);
      w := ToChecks(Start(1), w, 0);
    }
    w := CrashOne(w);
  }
}
