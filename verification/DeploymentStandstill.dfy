/** When a run stands still: runs that wait for a reconciliation that cannot help them, and cancellations that nobody
    overwrites. Executions here are arbitrary: any jobs, in any interleaving, with crashes. */
module DeploymentStandstill {
  import opened DeploymentDiscipline
  import opened DeploymentProtocol
  import opened DeploymentRun
  import opened Options

  // ----- executions from a given world -----

  lemma {:induction false} ExecutionFrom(w: World, a: Action, actions: seq<Action>)
    ensures Execution(w, [a] + actions) == Execution(Act(w, a), actions)
  {
    var all := [a] + actions;
    if actions == [] {
      assert all[..0] == [] && all[0] == a;
    } else {
      var before := actions[..|actions| - 1];
      assert all[..|all| - 1] == [a] + before && all[|all| - 1] == actions[|actions| - 1];
      ExecutionFrom(w, a, before);
    }
  }

  ghost predicate CanReach(w: World, w': World) {
    exists actions: seq<Action> :: Execution(w, actions) == w'
  }

  lemma LeadsReaches(w: World, p: nat, w': World)
    requires Leads(w, p, w')
    ensures CanReach(w, w')
  {
    var choices: seq<Choice> :| Execution(w, Steps(p, choices)) == w';
  }

  lemma ReachAfter(w: World, a: Action, w': World)
    requires CanReach(Act(w, a), w')
    ensures CanReach(w, w')
  {
    var actions: seq<Action> :| Execution(Act(w, a), actions) == w';
    ExecutionFrom(w, a, actions);
  }

  // ----- a run in flight -----

  /** A place of a call on a run that waits without transactions: every way on leads nowhere. */
  predicate Waiting(pc: Pc, status: Status) {
    match pc
    case At(at) => at == Idle || at == PrepareStart || at == BroadcastStart || at == ReconcileStart || at == CancelStart
                   || at == ReconcileList(status)
    case Claim(from, to, _, onError) => !Allowed(from, to) && onError == Idle
  }

  predicate Stranded(run: Run) {
    run.txs == [] && (run.status == CONFIRMING || run.status == VERIFYING || run.status == RECONCILIATION_REQUIRED)
  }

  lemma WaitingStep(run: Run, live: Option<Credential>, pc: Pc, c: Choice)
    requires Stranded(run) && Waiting(pc, run.status)
    ensures var o := Next(run, live, pc, c); Waiting(o.pc, run.status) && o.effect == Nothing
  {
  }

  /** A run that is confirming, verifying or needs reconciliation, but has no transaction, stays as it is for ever, and
      nothing is issued or executed: no job, in any interleaving, can change that. */
  lemma {:induction false} StrandedForEver(w: World, actions: seq<Action>)
    requires Stranded(w.run) && forall p :: 0 <= p < |w.procs| ==> Waiting(w.procs[p].pc, w.run.status)
    ensures var w' := Execution(w, actions);
            && w'.run == w.run && w'.history == w.history
            && |w'.procs| == |w.procs| && forall p :: 0 <= p < |w'.procs| ==> Waiting(w'.procs[p].pc, w.run.status)
  {
    if actions != [] {
      var last := actions[|actions| - 1];
      StrandedForEver(w, actions[..|actions| - 1]);
      var before := Execution(w, actions[..|actions| - 1]);
      hide Next;
      match last
      case Deliver(_, _) =>
      case Step(p, c) =>
        if p < |before.procs| {
          WaitingStep(before.run, before.procs[p].live, before.procs[p].pc, c);
        }
      case Crash(_) =>
    }
  }

  lemma WriteClaim(w0: World, w: World, p: nat) returns (w': World)
    requires Leads(w0, p, w) && p < |w.procs| && w.procs[p].pc.Claim? && Allowed(w.procs[p].pc.from, w.procs[p].pc.to)
    ensures Leads(w0, p, w') && w'.run.status == w.procs[p].pc.to && |w'.run.events| == |w.run.events| + 1
  {
    w' := Take(w0, w, p, GOOD);
  }

  lemma ConfirmedMovesOn(w0: World, w: World, p: nat) returns (w': World)
    requires Leads(w0, p, w) && p < |w.procs| && w.procs[p].pc == At(ConfirmCurrent(false)) && InFlight(w.run.status)
    ensures Leads(w0, p, w') && w'.run.status != w.run.status
  {
    if w.run.status == BROADCASTING {
      hide Leads;
      w' := Walk(w0, w, p, GOOD, Claim(BROADCASTING, CONFIRMING, ConfirmAfter(false), ReconcileCatch));
      w' := WriteClaim(w0, w', p);
    } else {
      hide Leads;
      w' := Walk(w0, w, p, GOOD, At(ConfirmAfter(false)));
      hide NextConfirm;
      w' := AfterMovesOn(w0, w', p);
    }
  }

  lemma AfterMovesOn(w0: World, w: World, p: nat) returns (w': World)
    requires Leads(w0, p, w) && p < |w.procs| && w.procs[p].pc == At(ConfirmAfter(false))
    requires InFlight(w.run.status) && w.run.status != BROADCASTING
    ensures Leads(w0, p, w') && w'.run.status != w.run.status
  {
    if w.run.status == VERIFYING {
      hide Leads, AllConfirmed;
      w' := Walk(w0, w, p, GOOD, At(ConfirmChecks(false)));
      w' := WriteVerdict(w0, w', p);
    } else {
      hide Leads;
      w' := Walk(w0, w, p, GOOD, Claim(w.run.status, VERIFYING, ConfirmChecks(false), ReconcileCatch));
      w' := WriteClaim(w0, w', p);
    }
  }

  /** The last claim of a confirmation. */
  lemma WriteVerdict(w0: World, w: World, p: nat) returns (w': World)
    requires Leads(w0, p, w) && p < |w.procs| && w.procs[p].pc == At(ConfirmChecks(false))
    ensures Leads(w0, p, w') && |w'.run.events| == |w.run.events| + 1
    ensures w'.run.status == COMPLETED || w'.run.status == FAILED
  {
    hide Leads, AllConfirmed;
    var verdict := if AllConfirmed(w.run.txs) then COMPLETED else FAILED;
    w' := Walk(w0, w, p, GOOD, Claim(VERIFYING, verdict, Idle, ReconcileCatch));
    w' := WriteClaim(w0, w', p);
  }

  lemma ReconcileMoves(w0: World, p: nat) returns (w': World)
    requires p < |w0.procs| && w0.procs[p].pc == At(ReconcileStart)
    requires (InFlight(w0.run.status) && w0.run.txs != []) || w0.run.status == BROADCASTING
    ensures Leads(w0, p, w') && w'.run.status != w0.run.status
  {
    hide Leads;
    if w0.run.txs != [] {
      w' := ToConfirmed(w0, p);
      w' := ConfirmedMovesOn(w0, w', p);
    } else {
      LeadsToItself(w0, p);
      w' := Walk(w0, w0, p, GOOD, At(ReconcileList(BROADCASTING)));
      w' := Walk(w0, w', p, GOOD, Claim(BROADCASTING, RECONCILIATION_REQUIRED, Idle, Idle));
      w' := WriteClaim(w0, w', p);
    }
  }

  lemma ReconcileDelivered(w: World) returns (actions: seq<Action>)
    requires NobodyWorks(w) && |w.procs| > 0
    requires (InFlight(w.run.status) && w.run.txs != []) || w.run.status == BROADCASTING
    ensures Execution(w, actions).run.status != w.run.status
  {
    var a := Deliver(0, Reconcile);
    var w0 := Act(w, a);
    assert w0.run == w.run && w0.procs[0].pc == At(ReconcileStart);
    hide Act, Leads;
    var w' := ReconcileMoves(w0, 0);
    LeadsReaches(w0, 0, w');
    ReachAfter(w, a, w');
    hide Execution;
    actions :| Execution(w, actions) == w';
  }

  lemma NobodyWaits(w: World)
    requires NobodyWorks(w)
    ensures forall p :: 0 <= p < |w.procs| ==> Waiting(w.procs[p].pc, w.run.status)
  {
  }

  /** When nobody works on a run in flight, its status can still change exactly when it has a transaction or is still
      broadcasting. */
  lemma StrandedExactly(w: World)
    requires NobodyWorks(w) && |w.procs| > 0 && InFlight(w.run.status)
    ensures (exists actions: seq<Action> :: Execution(w, actions).run.status != w.run.status) <==>
              w.run.txs != [] || w.run.status == BROADCASTING
  {
    hide Execution;
    if w.run.txs != [] || w.run.status == BROADCASTING {
      hide NobodyWorks;
      var actions := ReconcileDelivered(w);
    } else {
      NobodyWaits(w);
      hide Waiting, NobodyWorks;
      forall actions: seq<Action>
        ensures Execution(w, actions).run == w.run
      {
        StrandedForEver(w, actions);
      }
    }
  }

  // ----- a cancelled run -----

  /** A reconciliation that needs reconciling: whether the claim of `confirmAndVerify` is refused. */
  predicate RefusedReconciling(claimed: Option<Status>) {
    claimed.None? || !Allowed(claimed.value, RECONCILIATION_REQUIRED)
  }

  predicate PointSettled(at: Point) {
    match at
    case Idle | PrepareStart | PrepareCatch | BroadcastStart | BroadcastCatch(_) | BroadcastFinally
         | ReconcileStart | ReconcileCatch | CancelStart => true
    case ReconcileList(status) => status != BROADCASTING
    case ConfirmReceipts(pending, unknown, claimed, _) => pending == [] && unknown && RefusedReconciling(claimed)
    case ConfirmUnknown(claimed, _) => RefusedReconciling(claimed)
    case _ => false
  }

  /** A place from which a call can do nothing to a cancelled run: it has read nothing that lets it go on, and what it
      still claims is refused. */
  predicate Settled(pc: Pc) {
    match pc
    case At(at) => PointSettled(at)
    case Claim(from, to, _, onError) => !Allowed(from, to) && PointSettled(onError)
  }

  predicate CancelledEmpty(run: Run) {
    run.status == CANCELLED && run.txs == []
  }

  lemma SettledStep(run: Run, live: Option<Credential>, pc: Pc, c: Choice)
    requires CancelledEmpty(run) && Settled(pc)
    ensures var o := Next(run, live, pc, c); Settled(o.pc) && (o.effect == Nothing || o.effect == Destroy)
  {
    hide AllConfirmed, Record;
  }

  lemma {:induction false} CancellationStands(w: World, actions: seq<Action>)
    requires CancelledEmpty(w.run) && forall p :: 0 <= p < |w.procs| ==> Settled(w.procs[p].pc)
    ensures var w' := Execution(w, actions);
            && w'.run == w.run && w'.history == w.history
            && |w'.procs| == |w.procs| && forall p :: 0 <= p < |w'.procs| ==> Settled(w'.procs[p].pc)
  {
    if actions != [] {
      var last := actions[|actions| - 1];
      CancellationStands(w, actions[..|actions| - 1]);
      var before := Execution(w, actions[..|actions| - 1]);
      hide Next;
      match last
      case Deliver(_, _) =>
      case Step(p, c) =>
        if p < |before.procs| {
          SettledStep(before.run, before.procs[p].live, before.procs[p].pc, c);
        }
      case Crash(_) =>
    }
  }

  // ----- every other place of a process undoes the cancellation -----

  /** How far a call, favourably answered, is from its next write. */
  function Distance(pc: Pc): nat {
    match pc
    case Claim(from, to, _, _) => if Allowed(from, to) then 0 else 50
    case At(at) =>
      (match at
       case PrepareChecks => 40
       case PrepareLatest => 39
       case PrepareAllocate => 38
       case PrepareCandidate => 37
       case PrepareIssue => 36
       case PrepareSandbox => 35
       case PrepareSimulate => 34
       case BroadcastTarget(_, _) => 30
       case BroadcastFund(_) => 29
       case BroadcastLookup(_) => 28
       case BroadcastSandbox(_) => 27
       case BroadcastExecute(_) => 26
       case BroadcastJournal(_, _, _, _, _) => 25
       case BroadcastDecide(_, _, _, _) => 24
       case ReconcileList(_) => 23
       case ReconcileTarget(_) => 22
       case ConfirmStart(_, _) => 21
       case ConfirmReceipts(_, _, _, _) => 20
       case ConfirmUnknown(_, _) => 19
       case ConfirmCurrent(_) => 18
       case ConfirmAfter(_) => 17
       case ConfirmChecks(_) => 16
       case _ => 1)
  }

  /** A step that writes, or brings the call nearer to its write. */
  predicate Approaches(run: Run, pc: Pc, o: Outcome) {
    o.effect.Claimed? || o.effect.Store? || (After(run, o.effect) == run && !Settled(o.pc) && Distance(o.pc) < Distance(pc))
  }

  lemma PrepareApproaches(run: Run, at: Point)
    requires CancelledEmpty(run) && !PointSettled(at)
    requires at.PrepareChecks? || at.PrepareLatest? || at.PrepareAllocate? || at.PrepareCandidate? || at.PrepareIssue?
             || at.PrepareSandbox? || at.PrepareSimulate?
    ensures Approaches(run, At(at), NextPrepare(run, at, GOOD))
  {
  }

  lemma BroadcastApproaches(run: Run, live: Option<Credential>, at: Point)
    requires CancelledEmpty(run) && !PointSettled(at)
    requires at.BroadcastTarget? || at.BroadcastFund? || at.BroadcastLookup? || at.BroadcastSandbox?
             || at.BroadcastExecute? || at.BroadcastJournal? || at.BroadcastDecide?
    ensures Approaches(run, At(at), NextBroadcast(run, live, at, GOOD))
  {
    hide Record;
  }

  lemma ReconcileApproaches(run: Run, at: Point)
    requires CancelledEmpty(run) && !PointSettled(at) && (at.ReconcileList? || at.ReconcileTarget?)
    ensures Approaches(run, At(at), NextReconcile(run, at, GOOD))
  {
  }

  lemma ReceiptsApproach(run: Run, at: Point)
    requires CancelledEmpty(run) && !PointSettled(at)
    requires at.ConfirmStart? || at.ConfirmReceipts? || at.ConfirmUnknown?
    ensures Approaches(run, At(at), NextConfirm(run, at, GOOD))
  {
    assert Hashes(run.txs) == [];
    hide Record, AllConfirmed, Hashes;
  }

  lemma ConfirmApproaches(run: Run, at: Point)
    requires CancelledEmpty(run) && !PointSettled(at)
    requires at.ConfirmCurrent? || at.ConfirmAfter? || at.ConfirmChecks?
    ensures Approaches(run, At(at), NextConfirm(run, at, GOOD))
  {
    hide Record, AllConfirmed, Hashes;
  }

  lemma UnsettledStep(run: Run, live: Option<Credential>, pc: Pc)
    requires CancelledEmpty(run) && !Settled(pc)
    ensures Approaches(run, pc, Next(run, live, pc, GOOD))
  {
    if pc.At? {
      var at := pc.point;
      if at.ReconcileList? || at.ReconcileTarget? {
        ReconcileApproaches(run, at);
      } else if at.ConfirmStart? || at.ConfirmReceipts? || at.ConfirmUnknown? {
        ReceiptsApproach(run, at);
      } else if at.ConfirmCurrent? || at.ConfirmAfter? || at.ConfirmChecks? {
        ConfirmApproaches(run, at);
      } else if at.BroadcastTarget? || at.BroadcastFund? || at.BroadcastLookup? || at.BroadcastSandbox?
             || at.BroadcastExecute? || at.BroadcastJournal? || at.BroadcastDecide? {
        BroadcastApproaches(run, live, at);
      } else {
        PrepareApproaches(run, at);
      }
      hide NextPrepare, NextBroadcast, NextReconcile, NextConfirm, Approaches;
    }
  }

  lemma {:induction false} UnsettledWrites(w0: World, w: World, p: nat) returns (w': World)
    requires Leads(w0, p, w) && p < |w.procs| && CancelledEmpty(w.run) && !Settled(w.procs[p].pc)
    ensures Leads(w0, p, w') && w'.run != w.run
    decreases Distance(w.procs[p].pc)
  {
    var Process(live, pc) := w.procs[p];
    var o := Next(w.run, live, pc, GOOD);
    UnsettledStep(w.run, live, pc);
    hide Next, Leads, Settled, Distance;
    w' := Take(w0, w, p, GOOD);
    PerformRun(w, p, o);
    if !o.effect.Claimed? && !o.effect.Store? {
      hide Perform;
      w' := UnsettledWrites(w0, w', p);
    }
  }

  /** A cancelled run with transactions is reconciled like any other. */
  lemma CancelledReconciles(w: World) returns (actions: seq<Action>)
    requires |w.procs| > 0 && w.run.status == CANCELLED && w.run.txs != []
    ensures Execution(w, actions).run != w.run
  {
    var crashed := Act(w, Crash(0));
    var w0 := Act(crashed, Deliver(0, Reconcile));
    assert w0.run == w.run && w0.procs[0].pc == At(ReconcileStart);
    hide Act, Leads;
    var w' := ToConfirmed(w0, 0);
    assert w'.run.status == CANCELLED;
    w' := CancelledVerdict(w0, w', 0);
    LeadsReaches(w0, 0, w');
    ReachAfter(crashed, Deliver(0, Reconcile), w');
    ReachAfter(w, Crash(0), w');
    hide Execution;
    actions :| Execution(w, actions) == w';
  }

  lemma CancelledVerdict(w0: World, w: World, p: nat) returns (w': World)
    requires Leads(w0, p, w) && p < |w.procs| && w.procs[p].pc == At(ConfirmCurrent(false)) && w.run.status == CANCELLED
    ensures Leads(w0, p, w') && w'.run.status != CANCELLED
  {
    hide Leads;
    w' := Walk(w0, w, p, GOOD, At(ConfirmAfter(false)));
    w' := Walk(w0, w', p, GOOD, At(ConfirmChecks(false)));
    w' := WriteVerdict(w0, w', p);
  }

  lemma UnsettledOverwrites(w: World, p: nat) returns (actions: seq<Action>)
    requires p < |w.procs| && CancelledEmpty(w.run) && !Settled(w.procs[p].pc)
    ensures Execution(w, actions).run != w.run
  {
    LeadsToItself(w, p);
    hide Leads;
    var w' := UnsettledWrites(w, w, p);
    LeadsReaches(w, p, w');
    hide Execution;
    actions :| Execution(w, actions) == w';
  }

  /** A cancelled run stays as it is in every execution exactly when it has no transaction and every process is at a
      settled place. */
  lemma CancellationStandsExactly(w: World)
    requires w.run.status == CANCELLED && |w.procs| > 0
    ensures (forall actions: seq<Action> :: Execution(w, actions).run == w.run) <==>
              w.run.txs == [] && forall p :: 0 <= p < |w.procs| ==> Settled(w.procs[p].pc)
  {
    hide Execution, Settled;
    if w.run.txs != [] {
      var actions := CancelledReconciles(w);
    } else if p :| 0 <= p < |w.procs| && !Settled(w.procs[p].pc) {
      var actions := UnsettledOverwrites(w, p);
    } else {
      forall actions: seq<Action>
        ensures Execution(w, actions).run == w.run
      {
        CancellationStands(w, actions);
      }
    }
  }
}
