/** When the status log tells the truth: every processor call, delivered to a run nobody else works on, and all
    executions made of such calls. */
module DeploymentDiscipline {
  import opened DeploymentCredentialUse
  import opened DeploymentProtocol
  import opened DeploymentRun
  import opened Options

  // ----- what a process assumes about the stored run -----

  predicate InFlight(s: Status) {
    s == BROADCASTING || s == CONFIRMING || s == VERIFYING || s == RECONCILIATION_REQUIRED
  }

  /** A reconciliation ends by claiming VERIFYING, so it must find a run in flight, or no transactions at all. */
  predicate Reconcilable(run: Run) {
    run.txs == [] || InFlight(run.status)
  }

  /** A preparation ends by claiming PREPARING and SIMULATING, whatever is stored. */
  predicate Preparable(run: Run) {
    run.status != FAILED && run.status != SIMULATING && run.status != FUNDING
  }

  predicate Deliverable(job: Job, run: Run) {
    match job
    case Prepare => Preparable(run)
    case Reconcile => Reconcilable(run)
    case Broadcast => true
    case Cancel => true
  }

  predicate PointFits(at: Point, run: Run) {
    match at
    case PrepareStart => Preparable(run)
    case PrepareChecks | PrepareLatest => run.status == CHECKING_ELIGIBILITY || run.status == PREPARING
    case PrepareAllocate | PrepareCandidate | PrepareIssue | PrepareSandbox => run.status == PREPARING
    case PrepareSimulate => run.status == SIMULATING
    case BroadcastTarget(status, _) => run.status == status && (status == PREPARED || status == FUNDING)
    case BroadcastFund(_) | BroadcastLookup(_) | BroadcastSandbox(_) => run.status == FUNDING
    case BroadcastExecute(_) | BroadcastJournal(_, _, _, _, _) | BroadcastDecide(_, _, _, _) =>
      run.status == BROADCASTING
    case ReconcileStart => Reconcilable(run)
    case ReconcileList(status) => run.status == status && Reconcilable(run)
    case ReconcileTarget(status) => run.status == status && InFlight(status)
    case ConfirmStart(claimed, _) => InFlight(run.status) && (claimed.Some? ==> claimed.value == run.status)
    case ConfirmReceipts(_, _, claimed, _) => InFlight(run.status) && (claimed.Some? ==> claimed.value == run.status)
    case ConfirmUnknown(claimed, _) => InFlight(run.status) && (claimed.Some? ==> claimed.value == run.status)
    case ConfirmCurrent(_) => InFlight(run.status)
    case ConfirmAfter(_) => InFlight(run.status) && run.status != BROADCASTING
    case ConfirmChecks(_) => run.status == VERIFYING
    case _ => true
  }

  predicate Fits(pc: Pc, run: Run) {
    if pc.At? then PointFits(pc.point, run)
    else
      && pc.from == run.status
      && PointFits(pc.onError, run)
      && (Allowed(pc.from, pc.to) ==> PointFits(pc.next, run.(status := pc.to)) && PointFits(pc.onError, run.(status := pc.to)))
      && (pc.to == COMPLETED ==> AllConfirmed(run.txs))
  }

  ghost predicate KeepsFit(run: Run, o: Outcome) {
    && Fits(o.pc, After(run, o.effect))
    && (o.effect.Store? ==> InFlight(run.status))
    && (o.effect.Claimed? ==>
          && o.effect.from == run.status && Allowed(o.effect.from, o.effect.to)
          && (o.effect.to == COMPLETED ==> AllConfirmed(run.txs)))
  }

  lemma PrepareFits(run: Run, at: Point, c: Choice)
    requires PointFits(at, run)
    ensures KeepsFit(run, NextPrepare(run, at, c))
  {
  }

  lemma FundingFits(run: Run, live: Option<Credential>, at: Point, c: Choice)
    requires PointFits(at, run)
    requires at.BroadcastStart? || at.BroadcastTarget? || at.BroadcastFund? || at.BroadcastLookup? || at.BroadcastSandbox?
    ensures KeepsFit(run, NextBroadcast(run, live, at, c))
  {
    hide AllConfirmed, Record;
  }

  lemma RecordingFits(run: Run, live: Option<Credential>, at: Point, c: Choice)
    requires PointFits(at, run) && (at.BroadcastExecute? || at.BroadcastJournal? || at.BroadcastDecide?)
    ensures KeepsFit(run, NextBroadcast(run, live, at, c))
  {
    hide AllConfirmed, Record;
  }

  lemma BroadcastFits(run: Run, live: Option<Credential>, at: Point, c: Choice)
    requires PointFits(at, run)
    ensures KeepsFit(run, NextBroadcast(run, live, at, c))
  {
    if at.BroadcastStart? || at.BroadcastTarget? || at.BroadcastFund? || at.BroadcastLookup? || at.BroadcastSandbox? {
      FundingFits(run, live, at, c);
    } else if at.BroadcastExecute? || at.BroadcastJournal? || at.BroadcastDecide? {
      RecordingFits(run, live, at, c);
    } else {
      hide AllConfirmed, Record;
    }
  }

  lemma ReconcileFits(run: Run, at: Point, c: Choice)
    requires PointFits(at, run)
    ensures KeepsFit(run, NextReconcile(run, at, c))
  {
  }

  lemma ReceiptsFit(run: Run, at: Point, c: Choice)
    requires PointFits(at, run) && (at.ConfirmStart? || at.ConfirmReceipts? || at.ConfirmUnknown?)
    ensures KeepsFit(run, NextConfirm(run, at, c))
  {
    hide AllConfirmed, Record, Hashes;
  }

  lemma ConfirmFits(run: Run, at: Point, c: Choice)
    requires PointFits(at, run)
    ensures KeepsFit(run, NextConfirm(run, at, c))
  {
    if at.ConfirmStart? || at.ConfirmReceipts? || at.ConfirmUnknown? {
      ReceiptsFit(run, at, c);
    } else {
      hide AllConfirmed, Record, Hashes;
    }
  }

  lemma NextFits(run: Run, live: Option<Credential>, pc: Pc, c: Choice)
    requires Fits(pc, run)
    ensures KeepsFit(run, Next(run, live, pc, c))
  {
    if pc.At? {
      PrepareFits(run, pc.point, c);
      BroadcastFits(run, live, pc.point, c);
      ReconcileFits(run, pc.point, c);
      ConfirmFits(run, pc.point, c);
      hide NextPrepare, NextBroadcast, NextReconcile, NextConfirm;
    }
  }

  // ----- one call on a run nobody else works on -----

  function Steps(p: nat, choices: seq<Choice>): seq<Action> {
    seq(|choices|, i requires 0 <= i < |choices| => Step(p, choices[i]))
  }

  /** The world after a job has been delivered to `p` and `p` alone has taken some steps. */
  function Call(w: World, p: nat, job: Job, choices: seq<Choice>): World {
    Execution(Act(w, Deliver(p, job)), Steps(p, choices))
  }

  lemma PerformRun(w: World, p: nat, o: Outcome)
    requires p < |w.procs|
    ensures Perform(w, p, o).run == After(w.run, o.effect)
    ensures |Perform(w, p, o).procs| == |w.procs| && Perform(w, p, o).procs[p].pc == o.pc
    ensures forall q :: 0 <= q < |w.procs| && q != p ==> Perform(w, p, o).procs[q] == w.procs[q]
  {
  }

  lemma StepFits(w: World, p: nat, c: Choice)
    requires p < |w.procs| && Fits(w.procs[p].pc, w.run) && Consistent(w.run)
    ensures var w' := Act(w, Step(p, c));
            |w'.procs| == |w.procs| && Fits(w'.procs[p].pc, w'.run) && Consistent(w'.run)
  {
    var o := Next(w.run, w.procs[p].live, w.procs[p].pc, c);
    NextFits(w.run, w.procs[p].live, w.procs[p].pc, c);
    PerformRun(w, p, o);
    hide Next, Fits, Perform, Truthful;
    if o.effect.Claimed? {
      ClaimConsistent(w.run, o.effect.from, o.effect.to);
    }
  }

  lemma {:induction false} StepsFit(w: World, p: nat, choices: seq<Choice>)
    requires p < |w.procs| && Fits(w.procs[p].pc, w.run) && Consistent(w.run)
    ensures var w' := Execution(w, Steps(p, choices));
            |w'.procs| == |w.procs| && Fits(w'.procs[p].pc, w'.run) && Consistent(w'.run)
  {
    if choices != [] {
      var before := choices[..|choices| - 1];
      StepsFit(w, p, before);
      assert Steps(p, choices)[..|choices| - 1] == Steps(p, before);
      hide Fits, Consistent, Act;
      StepFits(Execution(w, Steps(p, before)), p, choices[|choices| - 1]);
    }
  }

  // ----- calls that lie -----

  ghost predicate Leads(w: World, p: nat, w': World) {
    exists choices: seq<Choice> :: Execution(w, Steps(p, choices)) == w'
  }

  lemma LeadsToItself(w: World, p: nat)
    ensures Leads(w, p, w)
  {
    assert Execution(w, Steps(p, [])) == w;
  }

  /** One more step of `p`. */
  lemma Take(w0: World, w: World, p: nat, c: Choice) returns (w': World)
    requires Leads(w0, p, w) && p < |w.procs|
    ensures w' == Perform(w, p, Next(w.run, w.procs[p].live, w.procs[p].pc, c)) && Leads(w0, p, w')
  {
    var choices: seq<Choice> :| Execution(w0, Steps(p, choices)) == w;
    var all := Steps(p, choices + [c]);
    assert all[..|all| - 1] == Steps(p, choices) && all[|all| - 1] == Step(p, c);
    w' := Act(w, Step(p, c));
    assert Execution(w0, all) == w';
  }

  /** A step that changes nothing but the place of the process. */
  lemma Walk(w0: World, w: World, p: nat, c: Choice, to: Pc) returns (w': World)
    requires Leads(w0, p, w) && p < |w.procs|
    requires Next(w.run, w.procs[p].live, w.procs[p].pc, c) == Outcome(to, Nothing)
    ensures w' == w.(procs := w.procs[p := w.procs[p].(pc := to)]) && Leads(w0, p, w')
  {
    w' := Take(w0, w, p, c);
  }

  const GOOD := Choice(false, false, true, false, [], [], CONFIRMED)
  const BAD := Choice(false, false, false, false, [], [], CONFIRMED)

  /** A claim is written if its edge is allowed, whatever is stored. */
  lemma ClaimLies(w0: World, w: World, p: nat)
    requires Leads(w0, p, w) && p < |w.procs| && Consistent(w.run)
    requires w.procs[p].pc.Claim? && Allowed(w.procs[p].pc.from, w.procs[p].pc.to) && w.procs[p].pc.from != w.run.status
    ensures exists w' :: Leads(w0, p, w') && !Consistent(w'.run)
  {
    var w' := Take(w0, w, p, GOOD);
    ClaimConsistent(w.run, w.procs[p].pc.from, w.procs[p].pc.to);
  }

  /** A preparation that finds no candidate reports failure from PREPARING, whatever is stored. */
  lemma PrepareLies(w0: World, p: nat)
    requires p < |w0.procs| && w0.procs[p].pc == At(PrepareStart) && Consistent(w0.run) && !Preparable(w0.run)
    ensures exists w' :: Leads(w0, p, w') && !Consistent(w'.run)
  {
    hide Leads, Truthful;
    LeadsToItself(w0, p);
    var w1 := Walk(w0, w0, p, GOOD, At(PrepareChecks));
    var w2 := Walk(w0, w1, p, GOOD, At(PrepareLatest));
    var w3 := Walk(w0, w2, p, GOOD, At(PrepareAllocate));
    var w4 := Walk(w0, w3, p, GOOD, At(PrepareCandidate));
    var w5 := Walk(w0, w4, p, BAD, Claim(PREPARING, FAILED, Idle, Idle));
    ClaimLies(w0, w5, p);
  }

  /** All receipts are confirmed, one after the other. */
  lemma {:induction false} AllReceipts(w0: World, w: World, p: nat, pending: seq<Hash>, claimed: Option<Status>)
    returns (w': World)
    requires Leads(w0, p, w) && p < |w.procs|
    requires w.procs[p].pc == At(ConfirmReceipts(pending, false, claimed, false))
    ensures Leads(w0, p, w') && |w'.procs| == |w.procs|
    ensures w'.procs[p].pc == At(ConfirmCurrent(false))
    ensures w'.run.status == w.run.status && w'.run.events == w.run.events && w'.history == w.history
    decreases |pending|
  {
    if pending == [] {
      w' := Walk(w0, w, p, GOOD, At(ConfirmCurrent(false)));
    } else {
      var next := Take(w0, w, p, GOOD);
      w' := AllReceipts(w0, next, p, pending[1..], claimed);
    }
  }

  /** A reconciliation of a run with transactions gets all of them confirmed. */
  lemma ToConfirmed(w0: World, p: nat) returns (w: World)
    requires p < |w0.procs| && w0.procs[p].pc == At(ReconcileStart) && w0.run.txs != []
    ensures Leads(w0, p, w) && |w.procs| == |w0.procs| && w.procs[p].pc == At(ConfirmCurrent(false))
    ensures w.run.status == w0.run.status && w.run.events == w0.run.events && w.history == w0.history
  {
    hide Leads;
    var s := w0.run.status;
    LeadsToItself(w0, p);
    w := Walk(w0, w0, p, GOOD, At(ReconcileList(s)));
    w := Walk(w0, w, p, GOOD, At(ReconcileTarget(s)));
    w := Walk(w0, w, p, GOOD, At(ConfirmStart(Some(s), false)));
    w := Walk(w0, w, p, GOOD, At(ConfirmReceipts(Hashes(w0.run.txs), false, Some(s), false)));
    w := AllReceipts(w0, w, p, Hashes(w0.run.txs), Some(s));
  }

  /** A reconciliation that reconstructs all receipts ends by claiming VERIFYING, whatever is stored. */
  lemma ReconcileLies(w0: World, p: nat)
    requires p < |w0.procs| && w0.procs[p].pc == At(ReconcileStart) && Consistent(w0.run) && !Reconcilable(w0.run)
    ensures exists w' :: Leads(w0, p, w') && !Consistent(w'.run)
  {
    hide Leads, Truthful;
    var w1 := ToConfirmed(w0, p);
    var w2 := Walk(w0, w1, p, GOOD, At(ConfirmAfter(false)));
    var w3 := Walk(w0, w2, p, GOOD, At(ConfirmChecks(false)));
    hide AllConfirmed;
    var to := if AllConfirmed(w3.run.txs) then COMPLETED else FAILED;
    var w4 := Walk(w0, w3, p, GOOD, Claim(VERIFYING, to, Idle, ReconcileCatch));
    ClaimLies(w0, w4, p);
  }

  /** A call on a run nobody else works on keeps the log truthful, whatever its operations answer, exactly when the job
      is deliverable: a preparation not to a FAILED, SIMULATING or FUNDING run, a reconciliation only to a run in
      flight or without transactions; a broadcast and a cancellation always. */
  lemma CallTruthful(w: World, p: nat, job: Job)
    requires p < |w.procs| && w.procs[p].pc == At(Idle) && Consistent(w.run)
    ensures (forall choices: seq<Choice> :: Consistent(Call(w, p, job, choices).run)) <==> Deliverable(job, w.run)
  {
    var w0 := Act(w, Deliver(p, job));
    assert w0.procs[p].pc == At(Entrance(job)) && w0.run == w.run;
    if Deliverable(job, w.run) {
      forall choices: seq<Choice>
        ensures Consistent(Call(w, p, job, choices).run)
      {
        StepsFit(w0, p, choices);
      }
    } else {
      if job == Prepare { PrepareLies(w0, p); } else { ReconcileLies(w0, p); }
      var w' :| Leads(w0, p, w') && !Consistent(w'.run);
      var choices: seq<Choice> :| Execution(w0, Steps(p, choices)) == w';
      assert !Consistent(Call(w, p, job, choices).run);
    }
  }

  // ----- disciplined executions -----

  ghost predicate NobodyWorks(w: World) {
    forall p :: 0 <= p < |w.procs| ==> w.procs[p].pc == At(Idle)
  }

  /** Jobs are delivered one at a time, and only deliverable ones; processes may crash at any point. */
  ghost predicate Disciplined(w: World, actions: seq<Action>) {
    actions == [] ||
    var before, last := actions[..|actions| - 1], actions[|actions| - 1];
    && Disciplined(w, before)
    && (last.Deliver? ==> NobodyWorks(Execution(w, before)) && Deliverable(last.job, Execution(w, before).run))
  }

  ghost predicate OneWorks(w: World) {
    forall p, q :: 0 <= p < |w.procs| && 0 <= q < |w.procs| && p != q && w.procs[p].pc != At(Idle) ==> w.procs[q].pc == At(Idle)
  }

  ghost predicate NothingExecuted(h: seq<Entry>) {
    forall i :: 0 <= i < |h| ==> !h[i].Executed?
  }

  /** Nothing is executed before the broadcast boundary, nor while a call may still execute. */
  ghost predicate ScriptOk(w: World) {
    && CountExecuted(w.history) <= 1
    && (Early(w.run.status) ==> NothingExecuted(w.history))
    && (forall p, d: Credential :: 0 <= p < |w.procs| && MayExecute(w.procs[p].pc, d) ==> NothingExecuted(w.history))
  }

  ghost predicate StoredOk(run: Run) {
    && Consistent(run)
    && (run.txs != [] ==> !Early(run.status) && run.status != CANCELLED)
    && (run.status == COMPLETED ==> AllConfirmed(run.txs))
  }

  ghost predicate SerialInv(w: World) {
    && OneWorks(w)
    && StoredOk(w.run)
    && ScriptOk(w)
    && forall p :: 0 <= p < |w.procs| ==> Fits(w.procs[p].pc, w.run)
  }

  lemma {:induction false} NothingCounted(h: seq<Entry>)
    requires NothingExecuted(h)
    ensures CountExecuted(h) == 0
  {
    if h != [] {
      NothingCounted(h[..|h| - 1]);
    }
  }

  /** The table leads into the early statuses, and to CANCELLED, only from early ones. */
  lemma EarlyEdges(from: Status, to: Status)
    requires Allowed(from, to)
    ensures Early(to) || to == CANCELLED ==> Early(from)
  {
  }

  lemma StoredStep(run: Run, live: Option<Credential>, pc: Pc, c: Choice)
    requires StoredOk(run) && Fits(pc, run)
    ensures StoredOk(After(run, Next(run, live, pc, c).effect))
  {
    var o := Next(run, live, pc, c);
    NextFits(run, live, pc, c);
    hide Next, Fits, Truthful;
    if o.effect.Claimed? {
      ClaimConsistent(run, o.effect.from, o.effect.to);
      EarlyEdges(o.effect.from, o.effect.to);
    }
  }

  /** A broadcast executes with the status already past the boundary. */
  lemma StartOfBroadcast(run: Run, live: Option<Credential>, c: Choice, d: Credential)
    requires MayExecute(Next(run, live, At(BroadcastStart), c).pc, d)
    ensures Early(run.status)
  {
  }

  lemma ExecutesInFlight(run: Run, live: Option<Credential>, pc: Pc, c: Choice)
    requires Fits(pc, run) && Next(run, live, pc, c).effect.Execute?
    ensures run.status == BROADCASTING && forall d: Credential :: !MayExecute(Next(run, live, pc, c).pc, d)
  {
  }

  lemma StepMayExecute(w: World, p: nat, c: Choice)
    requires SerialInv(w) && p < |w.procs|
    ensures var o := Next(w.run, w.procs[p].live, w.procs[p].pc, c);
            && ((exists d: Credential :: MayExecute(o.pc, d)) ==> NothingExecuted(w.history))
            && (o.effect.Execute? ==> NothingExecuted(w.history) && !Early(w.run.status))
            && (o.effect.Claimed? && Early(o.effect.to) ==> NothingExecuted(w.history))
  {
    var Process(live, pc) := w.procs[p];
    var o := Next(w.run, live, pc, c);
    NextCareful(w.run, live, pc, c);
    NextFits(w.run, live, pc, c);
    if d: Credential :| MayExecute(o.pc, d) {
      if pc == At(BroadcastStart) {
        StartOfBroadcast(w.run, live, c, d);
      } else {
        assert MayExecute(pc, d);
      }
    }
    if o.effect.Execute? {
      ExecutesInFlight(w.run, live, pc, c);
      assert MayExecute(pc, o.effect.credential);
    }
    if o.effect.Claimed? {
      EarlyEdges(o.effect.from, o.effect.to);
    }
  }

  lemma IdleStays(w: World, p: nat, c: Choice)
    requires p < |w.procs| && w.procs[p].pc == At(Idle)
    ensures Act(w, Step(p, c)) == w
  {
    assert w.procs[p := w.procs[p].(pc := At(Idle))] == w.procs;
  }

  lemma ScriptStep(w: World, p: nat, c: Choice)
    requires SerialInv(w) && p < |w.procs| && w.procs[p].pc != At(Idle)
    ensures ScriptOk(Act(w, Step(p, c)))
  {
    var o := Next(w.run, w.procs[p].live, w.procs[p].pc, c);
    StepMayExecute(w, p, c);
    hide Next, MayExecute, Fits, Consistent, Perform, StoredOk;
    ScriptHistory(w, p, o);
  }

  lemma ScriptHistory(w: World, p: nat, o: Outcome)
    requires p < |w.procs| && CountExecuted(w.history) <= 1
    requires (exists d: Credential :: MayExecute(o.pc, d)) ==> NothingExecuted(w.history) && !o.effect.Execute?
    requires o.effect.Execute? ==> NothingExecuted(w.history) && !Early(w.run.status)
    requires Early(w.run.status) ==> NothingExecuted(w.history)
    requires o.effect.Claimed? && Early(o.effect.to) ==> NothingExecuted(w.history)
    requires forall q :: 0 <= q < |w.procs| && q != p ==> w.procs[q].pc == At(Idle)
    ensures ScriptOk(Perform(w, p, o))
  {
    var w' := Perform(w, p, o);
    assert forall d: Credential :: !MayExecute(At(Idle), d);
    hide MayExecute, NothingExecuted, CountExecuted;
    if o.effect.Issue? || o.effect.Execute? {
      EntryAdded(w.history, w'.history[|w.history|]);
      assert w'.history == w.history + [w'.history[|w.history|]];
    }
    if NothingExecuted(w.history) {
      NothingCounted(w.history);
    }
  }

  lemma EntryAdded(h: seq<Entry>, e: Entry)
    ensures CountExecuted(h + [e]) == CountExecuted(h) + if e.Executed? then 1 else 0
    ensures NothingExecuted(h) && !e.Executed? ==> NothingExecuted(h + [e])
  {
    assert (h + [e])[..|h|] == h;
  }

  lemma SerialStep(w: World, p: nat, c: Choice)
    requires SerialInv(w) && p < |w.procs| && w.procs[p].pc != At(Idle)
    ensures SerialInv(Act(w, Step(p, c)))
  {
    var o := Next(w.run, w.procs[p].live, w.procs[p].pc, c);
    ScriptStep(w, p, c);
    StoredStep(w.run, w.procs[p].live, w.procs[p].pc, c);
    NextFits(w.run, w.procs[p].live, w.procs[p].pc, c);
    PerformRun(w, p, o);
    hide Next, Perform, ScriptOk, StoredOk;
    var w' := Act(w, Step(p, c));
    forall q | 0 <= q < |w'.procs|
      ensures Fits(w'.procs[q].pc, w'.run)
    {
      assert q != p ==> w.procs[q].pc == At(Idle);
    }
  }

  lemma SerialDeliver(w: World, p: nat, job: Job)
    requires SerialInv(w) && NobodyWorks(w) && Deliverable(job, w.run)
    ensures SerialInv(Act(w, Deliver(p, job)))
  {
    var w' := Act(w, Deliver(p, job));
    if p < |w.procs| {
      assert forall d: Credential :: !MayExecute(At(Entrance(job)), d);
      hide MayExecute, StoredOk, Early, CountExecuted;
      assert ScriptOk(w');
    }
  }

  lemma SerialCrash(w: World, p: nat)
    requires SerialInv(w) && p < |w.procs|
    ensures SerialInv(Act(w, Crash(p)))
  {
    var w' := Act(w, Crash(p));
    assert forall d: Credential :: !MayExecute(At(Idle), d);
    hide MayExecute, StoredOk, Early, CountExecuted;
    assert ScriptOk(w');
  }

  lemma {:induction false} DisciplinedInv(n: nat, actions: seq<Action>)
    requires Disciplined(Start(n), actions)
    ensures SerialInv(Execution(Start(n), actions))
  {
    if actions == [] {
      assert forall d: Credential :: !MayExecute(At(Idle), d);
    } else {
      var before, last := actions[..|actions| - 1], actions[|actions| - 1];
      var w := Execution(Start(n), before);
      DisciplinedInv(n, before);
      hide SerialInv, Start, Deliverable, NobodyWorks;
      match last
      case Deliver(p, job) => SerialDeliver(w, p, job);
      case Step(p, choice) =>
        if p < |w.procs| {
          if w.procs[p].pc == At(Idle) { IdleStays(w, p, choice); } else { SerialStep(w, p, choice); }
        }
      case Crash(p) =>
        if p < |w.procs| { SerialCrash(w, p); }
    }
  }

  /** In every disciplined execution, with crashes at any point: the log is a path through the table that ends at the
      stored status; the script runs at most once; a COMPLETED run has only confirmed transactions; and the only runs
      to which a reconciliation must not be delivered are COMPLETED and FAILED ones. */
  lemma DisciplineSuffices(n: nat, actions: seq<Action>)
    requires Disciplined(Start(n), actions)
    ensures var w := Execution(Start(n), actions);
            && Consistent(w.run)
            && CountExecuted(w.history) <= 1
            && (w.run.status == COMPLETED ==> AllConfirmed(w.run.txs))
            && (w.run.status != COMPLETED && w.run.status != FAILED ==> Reconcilable(w.run))
  {
    DisciplinedInv(n, actions);
  }
}
