/** How often the script of a run is executed: to which runs it can still happen, and how many deliveries it takes. */
module DeploymentReruns {
  import opened DeploymentCredentialUse
  import opened DeploymentDiscipline
  import opened DeploymentProtocol
  import opened DeploymentRun
  import opened DeploymentScenarios
  import opened Options

  // ----- runs whose script is never executed any more -----

  /** Past the broadcast boundary or given up, and without a transaction to reconcile. */
  predicate Dead(run: Run) {
    run.txs == [] && !Early(run.status) && run.status != FAILED
  }

  /** A place of a call on a dead run. The only claim that is not refused asks for reconciliation. */
  predicate Harmless(pc: Pc) {
    match pc
    case At(at) => at == Idle || at == PrepareStart || at == BroadcastStart || at == ReconcileStart || at == CancelStart
                   || at.ReconcileList?
    case Claim(from, to, next, onError) =>
      next == Idle && onError == Idle && (to == RECONCILIATION_REQUIRED || !Allowed(from, to))
  }

  lemma HarmlessStep(run: Run, live: Option<Credential>, pc: Pc, c: Choice)
    requires Dead(run) && Harmless(pc)
    ensures var o := Next(run, live, pc, c);
            && Harmless(o.pc)
            && (o.effect == Nothing || (o.effect.Claimed? && o.effect.to == RECONCILIATION_REQUIRED))
  {
  }

  /** Whatever is delivered to a dead run, nothing is issued or executed, and it stays in its status or comes to need
      reconciliation. */
  lemma {:induction false} DeadForEver(w: World, actions: seq<Action>)
    requires Dead(w.run) && forall p :: 0 <= p < |w.procs| ==> Harmless(w.procs[p].pc)
    ensures var w' := Execution(w, actions);
            && Dead(w'.run) && w'.history == w.history
            && (w'.run.status == w.run.status || w'.run.status == RECONCILIATION_REQUIRED)
            && |w'.procs| == |w.procs| && forall p :: 0 <= p < |w'.procs| ==> Harmless(w'.procs[p].pc)
  {
    if actions != [] {
      var last := actions[|actions| - 1];
      DeadForEver(w, actions[..|actions| - 1]);
      var before := Execution(w, actions[..|actions| - 1]);
      hide Next;
      match last
      case Deliver(_, _) =>
      case Step(p, c) =>
        if p < |before.procs| {
          HarmlessStep(before.run, before.procs[p].live, before.procs[p].pc, c);
        }
      case Crash(_) =>
    }
  }

  lemma NobodyHarms(w: World)
    requires NobodyWorks(w)
    ensures forall p :: 0 <= p < |w.procs| ==> Harmless(w.procs[p].pc)
  {
  }

  // ----- runs whose script can be executed -----

  lemma OneMore(h: seq<Entry>, e: Entry)
    ensures CountExecuted(h + [e]) == CountExecuted(h) + if e.Executed? then 1 else 0
  {
    assert (h + [e])[..|h|] == h;
  }

  /** Prepared and broadcast. */
  lemma PrepareAndExecute(from: World, w: World) returns (w': World)
    requires Reached(from, w, false) && |w.procs| > 0 && w.procs[0].pc == At(Idle)
    requires (Early(w.run.status) && w.run.status != PREPARED) || w.run.status == FAILED
    ensures Reached(from, w', false) && CountExecuted(w'.history) == CountExecuted(w.history) + 1
  {
    hide Reached, CountExecuted;
    var a := PrepareWell(from, w, 0, false);
    w' := BroadcastPrepared(from, a, 0, GOOD, false);
    OneMore(w.history, Issued(0, w.issued));
    OneMore(a.history, Executed(0, w.issued));
  }

  /** A crash loses the credential of a prepared run, and the broadcast fails it. */
  lemma LoseCredential(from: World, w: World) returns (w': World)
    requires Reached(from, w, false) && |w.procs| > 0 && w.run.status == PREPARED
    ensures Reached(from, w', false) && w'.history == w.history && w'.run.status == FAILED
    ensures |w'.procs| == |w.procs| && w'.procs[0].pc == At(Idle)
  {
    hide Reached;
    Extend(from, w, Crash(0), false);
    var a := Act(w, Crash(0));
    a := Give(from, a, 0, Broadcast, false);
    a := Move(from, a, 0, GOOD, Fail(PREPARED, Idle), false);
    w' := Write(from, a, 0, false);
  }

  lemma {:induction false} StepsReach(from: World, w: World, p: nat, choices: seq<Choice>)
    requires Reached(from, w, false)
    ensures Reached(from, Execution(w, Steps(p, choices)), false)
  {
    if choices != [] {
      var before := choices[..|choices| - 1];
      StepsReach(from, w, p, before);
      assert Steps(p, choices)[..|choices| - 1] == Steps(p, before);
      Extend(from, Execution(w, Steps(p, before)), Step(p, choices[|choices| - 1]), false);
    }
  }

  lemma LeadsReached(from: World, w: World, p: nat, w': World)
    requires Reached(from, w, false) && Leads(w, p, w')
    ensures Reached(from, w', false)
  {
    var choices: seq<Choice> :| Execution(w, Steps(p, choices)) == w';
    StepsReach(from, w, p, choices);
  }

  /** Up to the checks after a deployment, whatever is stored. */
  lemma ReconcileToChecks(from: World, w: World) returns (w': World)
    requires Reached(from, w, false) && |w.procs| > 0 && w.procs[0].pc == At(Idle) && w.run.txs != []
    ensures Reached(from, w', false) && w'.history == w.history
    ensures |w'.procs| == |w.procs| && w'.procs[0].pc == At(ConfirmChecks(false))
  {
    hide Reached, Leads;
    var a := Give(from, w, 0, Reconcile, false);
    w' := ToConfirmed(a, 0);
    LeadsReached(from, a, 0, w');
    w' := ConfirmedToAfter(from, w');
    w' := AfterToChecks(from, w');
  }

  lemma ConfirmedToAfter(from: World, w: World) returns (w': World)
    requires Reached(from, w, false) && |w.procs| > 0 && w.procs[0].pc == At(ConfirmCurrent(false))
    ensures Reached(from, w', false) && w'.history == w.history
    ensures |w'.procs| == |w.procs| && w'.procs[0].pc == At(ConfirmAfter(false))
  {
    hide Reached;
    if w.run.status == BROADCASTING {
      w' := Move(from, w, 0, GOOD, Try(BROADCASTING, CONFIRMING, ConfirmAfter(false), ReconcileCatch), false);
      w' := Write(from, w', 0, false);
    } else {
      w' := Move(from, w, 0, GOOD, Go(ConfirmAfter(false)), false);
    }
  }

  lemma AfterToChecks(from: World, w: World) returns (w': World)
    requires Reached(from, w, false) && |w.procs| > 0 && w.procs[0].pc == At(ConfirmAfter(false))
    ensures Reached(from, w', false) && w'.history == w.history
    ensures |w'.procs| == |w.procs| && w'.procs[0].pc == At(ConfirmChecks(false))
  {
    hide Reached;
    var s := w.run.status;
    if s == CONFIRMING || s == RECONCILIATION_REQUIRED {
      w' := Move(from, w, 0, GOOD, Try(s, VERIFYING, ConfirmChecks(false), ReconcileCatch), false);
      w' := Write(from, w', 0, false);
    } else {
      w' := Move(from, w, 0, GOOD, Go(ConfirmChecks(false)), false);
    }
  }

  /** A reconciliation whose checks fail makes any run with transactions a FAILED one, be it COMPLETED or CANCELLED. */
  lemma ReconcileFails(from: World, w: World) returns (w': World)
    requires Reached(from, w, false) && |w.procs| > 0 && w.procs[0].pc == At(Idle) && w.run.txs != []
    ensures Reached(from, w', false) && w'.history == w.history && w'.run.status == FAILED
    ensures |w'.procs| == |w.procs| && w'.procs[0].pc == At(Idle)
  {
    hide Reached;
    w' := ReconcileToChecks(from, w);
    w' := Move(from, w', 0, BAD, Try(VERIFYING, FAILED, Idle, ReconcileCatch), false);
    w' := Write(from, w', 0, false);
  }

  lemma ReachedItself(w: World)
    ensures Reached(w, w, false)
  {
    ReachedStart(w);
    Undisciplined(w, w);
  }

  lemma ReachedBy(from: World, w: World) returns (actions: seq<Action>)
    requires Reached(from, w, false)
    ensures Execution(from, actions) == w
  {
    actions :| Execution(from, actions) == w;
  }

  /** One more execution of the script. */
  lemma ExecuteOnceMore(from: World, w: World) returns (w': World)
    requires Reached(from, w, false) && |w.procs| > 0 && w.procs[0].pc == At(Idle) && !Dead(w.run)
    ensures Reached(from, w', false) && CountExecuted(w'.history) == CountExecuted(w.history) + 1
  {
    hide Reached, CountExecuted;
    w' := w;
    if w.run.status == PREPARED {
      w' := LoseCredential(from, w);
    } else if w.run.status != FAILED && !Early(w.run.status) {
      w' := ReconcileFails(from, w);
    }
    w' := PrepareAndExecute(from, w');
  }

  /** When nobody works on a run, its script can be executed, for the first time or again, exactly when it has a
      transaction, has not reached the broadcast, or is FAILED. */
  lemma ScriptRunsExactly(w: World)
    requires NobodyWorks(w) && |w.procs| > 0
    ensures (exists actions: seq<Action> :: CountExecuted(Execution(w, actions).history) > CountExecuted(w.history)) <==>
              w.run.txs != [] || Early(w.run.status) || w.run.status == FAILED
  {
    if Dead(w.run) {
      NobodyHarms(w);
      hide Execution, Harmless, CountExecuted, NobodyWorks;
      forall actions: seq<Action>
        ensures Execution(w, actions).history == w.history
      {
        DeadForEver(w, actions);
      }
    } else {
      ReachedItself(w);
      hide Execution, Reached, CountExecuted;
      var w' := ExecuteOnceMore(w, w);
      var actions := ReachedBy(w, w');
      assert CountExecuted(Execution(w, actions).history) > CountExecuted(w.history);
    }
  }

  /** When nobody works on a run in flight, it can come to an end exactly when it has a transaction. */
  lemma EndsExactly(w: World)
    requires NobodyWorks(w) && |w.procs| > 0 && InFlight(w.run.status)
    ensures (exists actions: seq<Action> :: Execution(w, actions).run.status in {COMPLETED, FAILED}) <==> w.run.txs != []
  {
    if w.run.txs == [] {
      NobodyHarms(w);
      hide Execution, Harmless, NobodyWorks;
      forall actions: seq<Action>
        ensures Execution(w, actions).run.status == w.run.status || Execution(w, actions).run.status == RECONCILIATION_REQUIRED
      {
        DeadForEver(w, actions);
      }
    } else {
      ReachedItself(w);
      hide Execution, Reached;
      var w' := ReconcileFails(w, w);
      var actions := ReachedBy(w, w');
    }
  }

  /** A disciplined execution that completes a run with one execution of the script; a reconciliation, a preparation and
      a broadcast, one after the other, then execute it again. */
  lemma CompletedRunsAgain(hash: Hash) returns (w: World, w': World)
    ensures Reached(Start(1), w, true) && NobodyWorks(w) && w.run.status == COMPLETED && CountExecuted(w.history) == 1
    ensures Reached(w, w', false) && CountExecuted(w'.history) == 2
  {
    hide Reached, Execution, CountExecuted, PrepareLog;
    w := CanComplete(hash);
    ReachedItself(w);
    w' := ExecuteOnceMore(w, w);
  }

  // ----- what an execution takes -----

  /** The jobs of a kind that idle processes have taken up. */
  function Deliveries(w: World, job: Job, actions: seq<Action>): nat {
    if actions == [] then 0
    else
      var before, last := actions[..|actions| - 1], actions[|actions| - 1];
      var procs := Execution(w, before).procs;
      Deliveries(w, job, before) +
      if last.Deliver? && last.job == job && last.p < |procs| && procs[last.p].pc == At(Idle) then 1 else 0
  }

  /** A place of a preparation before it issues its credential, or of a broadcast before it executes the script. */
  predicate PointArmed(job: Job, at: Point) {
    match job
    case Prepare => at.PrepareStart? || at.PrepareChecks? || at.PrepareLatest? || at.PrepareAllocate? || at.PrepareCandidate?
                    || at.PrepareIssue?
    case Broadcast => at.BroadcastStart? || at.BroadcastTarget? || at.BroadcastFund? || at.BroadcastLookup?
                      || at.BroadcastSandbox? || at.BroadcastExecute?
    case _ => false
  }

  predicate Armed(job: Job, pc: Pc) {
    if pc.At? then PointArmed(job, pc.point) else PointArmed(job, pc.next) || PointArmed(job, pc.onError)
  }

  function CountArmed(job: Job, procs: seq<Process>): nat {
    if procs == [] then 0
    else CountArmed(job, procs[..|procs| - 1]) + if Armed(job, procs[|procs| - 1].pc) then 1 else 0
  }

  /** What the job does once: issues, or executions. */
  function Done(job: Job, w: World): nat {
    match job
    case Prepare => w.issued
    case Broadcast => CountExecuted(w.history)
    case _ => 0
  }

  predicate Does(job: Job, effect: Effect) {
    (job == Prepare && effect.Issue?) || (job == Broadcast && effect.Execute?)
  }

  lemma {:induction false} ArmedUpdate(job: Job, procs: seq<Process>, p: nat, proc: Process)
    requires p < |procs|
    ensures CountArmed(job, procs[p := proc]) ==
            CountArmed(job, procs) - (if Armed(job, procs[p].pc) then 1 else 0) + (if Armed(job, proc.pc) then 1 else 0)
  {
    var last := |procs| - 1;
    hide Armed;
    if p == last {
      assert procs[p := proc][..last] == procs[..last];
    } else {
      assert procs[p := proc][..last] == procs[..last][p := proc];
      ArmedUpdate(job, procs[..last], p, proc);
    }
  }

  lemma {:induction false} NobodyArmed(job: Job, procs: seq<Process>)
    requires forall p :: 0 <= p < |procs| ==> procs[p].pc == At(Idle)
    ensures CountArmed(job, procs) == 0
  {
    if procs != [] {
      NobodyArmed(job, procs[..|procs| - 1]);
    }
  }

  predicate KeepsArms(job: Job, pc: Pc, o: Outcome) {
    && (Armed(job, o.pc) ==> Armed(job, pc))
    && (Does(job, o.effect) ==> Armed(job, pc) && !Armed(job, o.pc))
  }

  lemma PrepareKeepsArms(job: Job, run: Run, at: Point, c: Choice)
    ensures KeepsArms(job, At(at), NextPrepare(run, at, c))
  {
  }

  lemma BroadcastKeepsArms(job: Job, run: Run, live: Option<Credential>, at: Point, c: Choice)
    ensures KeepsArms(job, At(at), NextBroadcast(run, live, at, c))
  {
    hide Record;
  }

  lemma ReconcileKeepsArms(job: Job, run: Run, at: Point, c: Choice)
    ensures KeepsArms(job, At(at), NextReconcile(run, at, c))
  {
  }

  lemma ConfirmKeepsArms(job: Job, run: Run, at: Point, c: Choice)
    ensures KeepsArms(job, At(at), NextConfirm(run, at, c))
  {
    hide AllConfirmed, Record, Hashes;
  }

  /** No step arms a process, and what the job does once disarms it. */
  lemma ArmedStep(job: Job, run: Run, live: Option<Credential>, pc: Pc, c: Choice)
    ensures KeepsArms(job, pc, Next(run, live, pc, c))
  {
    if pc.At? {
      PrepareKeepsArms(job, run, pc.point, c);
      BroadcastKeepsArms(job, run, live, pc.point, c);
      ReconcileKeepsArms(job, run, pc.point, c);
      ConfirmKeepsArms(job, run, pc.point, c);
      hide NextPrepare, NextBroadcast, NextReconcile, NextConfirm, KeepsArms;
      assert Next(run, live, At(Idle), c) == Go(Idle);
      if pc.point == Idle { IdleKeepsArms(job); }
    }
  }

  lemma IdleKeepsArms(job: Job)
    ensures KeepsArms(job, At(Idle), Go(Idle))
  {
  }

  lemma DonePerformed(job: Job, w: World, p: nat, o: Outcome)
    requires p < |w.procs|
    ensures Done(job, Perform(w, p, o)) == Done(job, w) + if Does(job, o.effect) then 1 else 0
    ensures |Perform(w, p, o).procs| == |w.procs| && Perform(w, p, o).procs == w.procs[p := Perform(w, p, o).procs[p]]
    ensures Perform(w, p, o).procs[p].pc == o.pc
  {
    if o.effect.Issue? {
      OneMore(w.history, Issued(p, w.issued));
    } else if o.effect.Execute? {
      OneMore(w.history, Executed(p, o.effect.credential));
    }
    hide CountExecuted;
  }

  lemma StepTakes(job: Job, w: World, p: nat, c: Choice)
    requires p < |w.procs|
    ensures var w' := Act(w, Step(p, c));
            Done(job, w') + CountArmed(job, w'.procs) <= Done(job, w) + CountArmed(job, w.procs)
  {
    var o := Next(w.run, w.procs[p].live, w.procs[p].pc, c);
    ArmedStep(job, w.run, w.procs[p].live, w.procs[p].pc, c);
    DonePerformed(job, w, p, o);
    ArmedUpdate(job, w.procs, p, Perform(w, p, o).procs[p]);
    hide Next, Perform, Armed, Done, Does, CountArmed;
  }

  lemma DeliveryTakes(job: Job, w: World, p: nat, delivered: Job)
    requires p < |w.procs| && w.procs[p].pc == At(Idle)
    ensures var w' := Act(w, Deliver(p, delivered));
            Done(job, w') + CountArmed(job, w'.procs) <= Done(job, w) + CountArmed(job, w.procs) + if delivered == job then 1 else 0
  {
    ArmedUpdate(job, w.procs, p, w.procs[p].(pc := At(Entrance(delivered))));
    hide CountArmed, CountExecuted;
  }

  lemma CrashTakes(job: Job, w: World, p: nat)
    requires p < |w.procs|
    ensures var w' := Act(w, Crash(p));
            Done(job, w') + CountArmed(job, w'.procs) <= Done(job, w) + CountArmed(job, w.procs)
  {
    ArmedUpdate(job, w.procs, p, Process(None, At(Idle)));
    hide CountArmed, CountExecuted;
  }

  lemma {:induction false} DeliveriesBound(job: Job, w: World, actions: seq<Action>)
    ensures var w' := Execution(w, actions);
            Done(job, w') + CountArmed(job, w'.procs) <= Done(job, w) + CountArmed(job, w.procs) + Deliveries(w, job, actions)
  {
    if actions != [] {
      var before, last := actions[..|actions| - 1], actions[|actions| - 1];
      DeliveriesBound(job, w, before);
      var a := Execution(w, before);
      hide Done, CountArmed, Next;
      if last.p < |a.procs| {
        match last
        case Deliver(p, delivered) =>
          if a.procs[p].pc == At(Idle) { DeliveryTakes(job, a, p, delivered); }
        case Step(p, c) => StepTakes(job, a, p, c);
        case Crash(p) => CrashTakes(job, a, p);
      }
    }
  }

  /** From a world where nobody works, with any interleaving and crashes: the script is executed at most once for every
      broadcast that a process takes up, and credentials are issued at most once for every preparation. */
  lemma ExecutionsNeedDeliveries(w: World, actions: seq<Action>)
    requires NobodyWorks(w)
    ensures CountExecuted(Execution(w, actions).history) <= CountExecuted(w.history) + Deliveries(w, Broadcast, actions)
    ensures Execution(w, actions).issued <= w.issued + Deliveries(w, Prepare, actions)
  {
    DeliveriesBound(Broadcast, w, actions);
    DeliveriesBound(Prepare, w, actions);
    NobodyArmed(Broadcast, w.procs);
    NobodyArmed(Prepare, w.procs);
    hide Execution, CountArmed, CountExecuted, Deliveries;
  }

  /** From the beginning, a second execution takes a second broadcast and a second preparation. */
  lemma SecondExecutionTakes(n: nat, actions: seq<Action>)
    ensures CountExecuted(Execution(Start(n), actions).history) <= Deliveries(Start(n), Broadcast, actions)
    ensures CountExecuted(Execution(Start(n), actions).history) <= Deliveries(Start(n), Prepare, actions)
  {
    ExecutionsNeedDeliveries(Start(n), actions);
    CredentialsAreUsedOnce(n, actions);
    hide Execution, Deliveries;
  }
}
