/** What becomes of the hashes read back from the proxy journal and the artifacts once the script has run
    (apps/worker/src/deployment-processor.ts:447-487, packages/db/src/deployment-repository.ts:276-328). */
module DeploymentJournal {
  import opened DeploymentProtocol
  import opened DeploymentRun
  import opened Options
  import opened Sequences
  import RpcProxy

  /** Every one of these hashes has a row. */
  predicate Recorded(hashes: seq<Hash>, run: Run) {
    forall h :: h in hashes ==> h in Hashes(run.txs)
  }

  predicate PointRecorded(at: Point, run: Run) {
    match at
    case BroadcastJournal(journal, artifacts, recorded, _, _) =>
      recorded <= |journal + artifacts| && Recorded((journal + artifacts)[..recorded], run)
    case BroadcastDecide(journal, artifacts, _, _) => Recorded(journal + artifacts, run)
    case _ => true
  }

  /** What the process has read and passed over is recorded. The places a claim leads to hold no hashes any more. */
  predicate HasRecorded(pc: Pc, run: Run) {
    if pc.At? then PointRecorded(pc.point, run)
    else PointRecorded(pc.next, run) && PointRecorded(pc.onError, run)
  }

  /** The places that remember hashes: while a process is at one of them its hashes are fixed. */
  predicate Remembers(at: Point) {
    at.BroadcastJournal? || at.BroadcastDecide?
  }

  predicate ClaimForgets(pc: Pc) {
    if pc.At? then !Remembers(pc.point) else !Remembers(pc.next) && !Remembers(pc.onError)
  }

  lemma ElsewhereForgets(run: Run, live: Option<Credential>, at: Point, c: Choice)
    requires !at.BroadcastExecute? && !Remembers(at)
    ensures ClaimForgets(NextAt(run, live, at, c).pc)
  {
    ConfirmForgets(run, at, c);
    hide NextConfirm;
  }

  lemma ConfirmForgets(run: Run, at: Point, c: Choice)
    requires !Remembers(at)
    ensures ClaimForgets(NextConfirm(run, at, c).pc)
  {
  }

  lemma DecideForgets(run: Run, live: Option<Credential>, at: Point, c: Choice)
    requires at.BroadcastDecide?
    ensures ClaimForgets(NextAt(run, live, at, c).pc)
  {
  }

  /** Writing a row removes no hash. */
  lemma RunKeepsHashes(run: Run, effect: Effect)
    ensures Hashes(run.txs) <= Hashes(After(run, effect).txs)
    ensures Distinct(Hashes(run.txs)) ==> Distinct(Hashes(After(run, effect).txs))
  {
    if effect.Store? {
      RecordHashes(run.txs, effect.tx);
    }
  }

  lemma RecordNext(run: Run, all: seq<Hash>, k: nat, tx: Tx)
    requires k < |all| && Recorded(all[..k], run) && tx.hash == all[k]
    ensures Recorded(all[..k + 1], run.(txs := Record(run.txs, tx)))
  {
    RecordHashes(run.txs, tx);
    hide Record, Hashes;
    assert all[..k + 1] == all[..k] + [tx.hash];
  }

  /** The loop over the journal and the artifacts: one more hash has a row. */
  lemma JournalStep(run: Run, live: Option<Credential>, at: Point, c: Choice)
    requires at.BroadcastJournal? && PointRecorded(at, run)
    ensures var o := NextAt(run, live, at, c); HasRecorded(o.pc, After(run, o.effect))
  {
    var all := at.journal + at.artifacts;
    if at.recorded >= |all| {
      assert all[..at.recorded] == all;
    } else if !c.throws {
      var o := NextAt(run, live, at, c);
      assert o.effect.Store? && o.effect.tx.hash == all[at.recorded];
      RecordNext(run, all, at.recorded, o.effect.tx);
      hide Record, Hashes, Recorded;
    }
  }

  lemma NextRecorded(run: Run, live: Option<Credential>, pc: Pc, c: Choice)
    requires HasRecorded(pc, run) && (pc.Claim? ==> ClaimForgets(pc))
    ensures var o := Next(run, live, pc, c);
            HasRecorded(o.pc, After(run, o.effect)) && (o.pc.Claim? ==> ClaimForgets(o.pc))
  {
    if pc.At? {
      if pc.point.BroadcastJournal? {
        JournalStep(run, live, pc.point, c);
      } else if !pc.point.BroadcastExecute? {
        if pc.point.BroadcastDecide? {
          DecideForgets(run, live, pc.point, c);
        } else {
          ElsewhereForgets(run, live, pc.point, c);
        }
        hide NextAt;
      }
    }
  }

  // ----- every execution -----

  ghost predicate Inv(w: World) {
    && Distinct(Hashes(w.run.txs))
    && forall p :: 0 <= p < |w.procs| ==> HasRecorded(w.procs[p].pc, w.run) && (w.procs[p].pc.Claim? ==> ClaimForgets(w.procs[p].pc))
  }

  lemma StaysRecorded(pc: Pc, run: Run, run': Run)
    requires HasRecorded(pc, run) && Hashes(run.txs) <= Hashes(run'.txs)
    ensures HasRecorded(pc, run')
  {
    assert forall h: Hash :: h in Hashes(run.txs) ==> h in Hashes(run'.txs);
    hide Hashes;
  }

  lemma ActRun(w: World, a: Action)
    ensures Act(w, a).run == (if a.Step? && a.p < |w.procs| then
              After(w.run, Next(w.run, w.procs[a.p].live, w.procs[a.p].pc, a.choice).effect) else w.run)
    ensures |Act(w, a).procs| == |w.procs|
    ensures forall q :: 0 <= q < |w.procs| && q != a.p ==> Act(w, a).procs[q] == w.procs[q]
    ensures a.p < |w.procs| ==>
              Act(w, a).procs[a.p].pc ==
              match a {
                case Deliver(p, job) => if w.procs[p].pc == At(Idle) then At(Entrance(job)) else w.procs[p].pc
                case Step(p, c) => Next(w.run, w.procs[p].live, w.procs[p].pc, c).pc
                case Crash(_) => At(Idle)
              }
  {
    hide Next;
  }

  /** Nothing anybody does removes a recorded hash. */
  lemma ActKeepsHashes(w: World, a: Action)
    ensures Hashes(w.run.txs) <= Hashes(Act(w, a).run.txs)
  {
    ActRun(w, a);
    hide Act, Next;
    if a.Step? && a.p < |w.procs| {
      RunKeepsHashes(w.run, Next(w.run, w.procs[a.p].live, w.procs[a.p].pc, a.choice).effect);
    }
  }

  lemma ActKeepsInv(w: World, a: Action)
    requires Inv(w)
    ensures Inv(Act(w, a))
  {
    var w' := Act(w, a);
    ActRun(w, a);
    ActKeepsHashes(w, a);
    if a.Step? && a.p < |w.procs| {
      NextRecorded(w.run, w.procs[a.p].live, w.procs[a.p].pc, a.choice);
      RunKeepsHashes(w.run, Next(w.run, w.procs[a.p].live, w.procs[a.p].pc, a.choice).effect);
    }
    assert a.Deliver? ==> HasRecorded(At(Entrance(a.job)), w.run);
    assert HasRecorded(At(Idle), w.run);
    hide Act, Next, HasRecorded, ClaimForgets, Hashes, After;
    forall q | 0 <= q < |w'.procs|
      ensures HasRecorded(w'.procs[q].pc, w'.run) && (w'.procs[q].pc.Claim? ==> ClaimForgets(w'.procs[q].pc))
    {
      if q != a.p {
        StaysRecorded(w.procs[q].pc, w.run, w'.run);
      }
    }
  }

  lemma {:induction false} ExecutionKeepsInv(n: nat, actions: seq<Action>)
    ensures Inv(Execution(Start(n), actions))
  {
    if actions != [] {
      ExecutionKeepsInv(n, actions[..|actions| - 1]);
      hide Act, Inv;
      ActKeepsInv(Execution(Start(n), actions[..|actions| - 1]), actions[|actions| - 1]);
    }
  }

  /** In every execution, however interleaved and whoever crashes, a process that comes to decide what its broadcast
      amounts to has recorded every hash of the journal and of the artifacts, and each hash has one row. */
  lemma DecidesOnRecordedHashes(n: nat, actions: seq<Action>, p: nat)
    requires p < |Execution(Start(n), actions).procs|
    ensures var w := Execution(Start(n), actions);
            && Distinct(Hashes(w.run.txs))
            && (w.procs[p].pc.At? && w.procs[p].pc.point.BroadcastDecide? ==>
                  Recorded(w.procs[p].pc.point.journal + w.procs[p].pc.point.artifacts, w.run))
  {
    ExecutionKeepsInv(n, actions);
    hide Hashes, Execution;
  }

  /** A recorded hash keeps its place in the list of transactions for ever. */
  lemma {:induction false} RecordedForEver(w: World, actions: seq<Action>)
    ensures Hashes(w.run.txs) <= Hashes(Execution(w, actions).run.txs)
  {
    if actions != [] {
      var before := actions[..|actions| - 1];
      RecordedForEver(w, before);
      ActKeepsHashes(Execution(w, before), actions[|actions| - 1]);
    }
  }

  // ----- what a process has read, and the claims it writes -----

  /** What the execution of the script in the current call of a process has yielded, and whether the process has come
      through its decision on it. */
  datatype Reading = Unread | Read(hashes: seq<Hash>, timedOut: bool, succeeded: bool, decided: bool)

  function NextReading(reading: Reading, pc: Pc, c: Choice, pc': Pc): Reading {
    if pc.At? && pc.point.BroadcastExecute? then
      if c.throws then Unread else Read(c.journal + c.artifacts, c.timedOut, c.good, false)
    else if pc.At? && pc.point.BroadcastDecide? && reading.Read? then reading.(decided := true)
    else if pc' == At(Idle) then Unread
    else reading
  }

  function ReadingAfter(w: World, reading: Reading, p: nat, a: Action): Reading {
    if a.p != p || p >= |w.procs| then reading
    else
      match a
      case Deliver(_, _) => reading
      case Step(_, c) => NextReading(reading, w.procs[p].pc, c, Next(w.run, w.procs[p].live, w.procs[p].pc, c).pc)
      case Crash(_) => Unread
  }

  /** What the execution of the script in the current call of `p` has yielded. */
  function ReadingOf(w: World, actions: seq<Action>, p: nat): Reading {
    if actions == [] then Unread
    else
      var before := actions[..|actions| - 1];
      ReadingAfter(Execution(w, before), ReadingOf(w, before, p), p, actions[|actions| - 1])
  }

  /** The script ended in time, badly, and left no hash. */
  predicate Failed(reading: Reading) {
    reading.Read? && !reading.timedOut && !reading.succeeded && reading.hashes == []
  }

  /** The script ended in time, and well or with a hash. */
  predicate Deployed(reading: Reading) {
    reading.Read? && !reading.timedOut && (reading.succeeded || reading.hashes != [])
  }

  /** Where a process can be that has read hashes and not yet decided on them. */
  predicate Undecided(pc: Pc, reading: Reading)
    requires reading.Read?
  {
    match pc
    case At(at) =>
      (match at
       case BroadcastJournal(journal, artifacts, _, timedOut, succeeded) =>
         reading.hashes == journal + artifacts && reading.timedOut == timedOut && reading.succeeded == succeeded
       case BroadcastDecide(journal, artifacts, timedOut, succeeded) =>
         reading.hashes == journal + artifacts && reading.timedOut == timedOut && reading.succeeded == succeeded
       case BroadcastCatch(began) => began
       case BroadcastFinally => true
       case _ => false)
    case Claim(_, to, next, onError) =>
      to == RECONCILIATION_REQUIRED && next == BroadcastFinally && onError == BroadcastFinally
  }

  predicate Confirming(at: Point) {
    match at
    case ConfirmStart(_, b) => b
    case ConfirmReceipts(_, _, _, b) => b
    case ConfirmUnknown(_, b) => b
    case ConfirmCurrent(b) => b
    case ConfirmAfter(b) => b
    case ConfirmChecks(b) => b
    case _ => false
  }

  predicate Ending(at: Point) {
    at == BroadcastCatch(true) || at == BroadcastFinally
  }

  /** Where a process can be that has decided. */
  predicate Decided(pc: Pc, reading: Reading) {
    match pc
    case At(at) => Ending(at) || (Confirming(at) && Deployed(reading))
    case Claim(from, to, next, onError) =>
      && (Ending(next) || (Confirming(next) && Deployed(reading))) && Ending(onError)
      && (|| to == RECONCILIATION_REQUIRED
          || (Failed(reading) && from == BROADCASTING && to == FAILED)
          || (Deployed(reading) && !(from == BROADCASTING && to == FAILED)))
  }

  predicate ReadingFits(reading: Reading, pc: Pc, run: Run) {
    && (pc.At? && Remembers(pc.point) ==> reading.Read? && !reading.decided)
    && (reading.Read? ==>
          if reading.decided then Recorded(reading.hashes, run) && Decided(pc, reading) else Undecided(pc, reading))
  }

  lemma UndecidedStep(run: Run, live: Option<Credential>, pc: Pc, c: Choice, reading: Reading)
    requires reading.Read? && Undecided(pc, reading) && !(pc.At? && pc.point.BroadcastDecide?)
    ensures var o := Next(run, live, pc, c);
            o.pc == At(Idle) || Undecided(o.pc, reading)
  {
  }

  lemma DecidingStep(run: Run, live: Option<Credential>, pc: Pc, c: Choice, reading: Reading)
    requires reading.Read? && Undecided(pc, reading) && pc.At? && pc.point.BroadcastDecide?
    ensures Decided(Next(run, live, pc, c).pc, reading)
  {
  }

  lemma ConfirmingStep(run: Run, at: Point, c: Choice, reading: Reading)
    requires Confirming(at) && Deployed(reading)
    ensures Decided(NextConfirm(run, at, c).pc, reading)
  {
    hide AllConfirmed, Hashes, Record, Deployed, Failed;
  }

  lemma EndingStep(run: Run, live: Option<Credential>, at: Point, c: Choice, reading: Reading)
    requires Ending(at)
    ensures var o := NextBroadcast(run, live, at, c); o.pc == At(Idle) || Decided(o.pc, reading)
  {
  }

  lemma DecidedStep(run: Run, live: Option<Credential>, pc: Pc, c: Choice, reading: Reading)
    requires Decided(pc, reading)
    ensures var o := Next(run, live, pc, c); o.pc == At(Idle) || Decided(o.pc, reading)
  {
    if pc.At? {
      if Ending(pc.point) {
        EndingStep(run, live, pc.point, c, reading);
      } else {
        ConfirmingStep(run, pc.point, c, reading);
      }
      hide NextConfirm, NextBroadcast, Decided, Deployed;
    } else {
      hide Deployed, Failed;
    }
  }

  lemma ReadingStep(run: Run, live: Option<Credential>, pc: Pc, c: Choice, reading: Reading)
    requires ReadingFits(reading, pc, run) && HasRecorded(pc, run) && (pc.Claim? ==> ClaimForgets(pc))
    ensures var o := Next(run, live, pc, c);
            ReadingFits(NextReading(reading, pc, c, o.pc), o.pc, After(run, o.effect))
  {
    var o := Next(run, live, pc, c);
    RunKeepsHashes(run, o.effect);
    if reading.Read? && reading.decided {
      StaysRecordedList(reading.hashes, run, After(run, o.effect));
      DecidedStep(run, live, pc, c, reading);
    }
    if pc.At? && pc.point.BroadcastDecide? {
      DecideForgets(run, live, pc.point, c);
      DecidingStep(run, live, pc, c, reading);
      ChangedDecision(o.pc, reading);
      StaysRecordedList(reading.hashes, run, After(run, o.effect));
      hide Recorded, Next, After, Decided;
    } else if pc.At? && pc.point.BroadcastExecute? {
      hide Recorded, Decided;
    } else {
      if reading.Read? && !reading.decided {
        UndecidedStep(run, live, pc, c, reading);
      }
      if pc.At? && !Remembers(pc.point) {
        ElsewhereForgets(run, live, pc.point, c);
      }
      hide Recorded, NextAt, After, Decided, Undecided;
    }
  }

  lemma ChangedDecision(pc: Pc, reading: Reading)
    requires reading.Read? && Decided(pc, reading)
    ensures Decided(pc, reading.(decided := true))
  {
  }

  lemma StaysRecordedList(hashes: seq<Hash>, run: Run, run': Run)
    requires Recorded(hashes, run) && Hashes(run.txs) <= Hashes(run'.txs)
    ensures Recorded(hashes, run')
  {
    hide Hashes;
  }

  lemma ReadingAct(w: World, a: Action, reading: Reading, p: nat)
    requires Inv(w) && p < |w.procs| && ReadingFits(reading, w.procs[p].pc, w.run)
    ensures ReadingFits(ReadingAfter(w, reading, p, a), Act(w, a).procs[p].pc, Act(w, a).run)
  {
    ActRun(w, a);
    if a.p == p && a.Step? {
      ReadingStep(w.run, w.procs[p].live, w.procs[p].pc, a.choice, reading);
      hide Inv, ReadingFits, NextReading, Act, Next, After;
    } else {
      ActKeepsHashes(w, a);
      hide Act, Next, After;
      if reading.Read? && reading.decided {
        StaysRecordedList(reading.hashes, w.run, Act(w, a).run);
      }
      hide Recorded;
    }
  }

  lemma {:induction false} ReadingInv(n: nat, actions: seq<Action>, p: nat)
    ensures var w := Execution(Start(n), actions);
            p < |w.procs| ==> ReadingFits(ReadingOf(Start(n), actions, p), w.procs[p].pc, w.run)
  {
    if actions != [] {
      var before := actions[..|actions| - 1];
      var w := Execution(Start(n), before);
      ReadingInv(n, before, p);
      ExecutionKeepsInv(n, before);
      ActRun(w, actions[|actions| - 1]);
      hide Inv, ReadingFits, ReadingAfter, Act, Next, After;
      if p < |w.procs| {
        ReadingAct(w, actions[|actions| - 1], ReadingOf(Start(n), before, p), p);
      }
    }
  }

  /** In every execution: a claim that a process writes after its execution of the script has yielded hashes is written
      with a row for each of them, or asks for reconciliation. */
  lemma ClaimsOnRecordedHashes(n: nat, actions: seq<Action>, p: nat, c: Choice)
    requires p < |Execution(Start(n), actions).procs| && ReadingOf(Start(n), actions, p).Read?
    ensures var w := Execution(Start(n), actions);
            var o := Next(w.run, w.procs[p].live, w.procs[p].pc, c);
            o.effect.Claimed? ==>
              Recorded(ReadingOf(Start(n), actions, p).hashes, w.run) || o.effect.to == RECONCILIATION_REQUIRED
  {
    ReadingInv(n, actions, p);
    var w := Execution(Start(n), actions);
    OnlyClaimsWrite(w.run, w.procs[p].live, w.procs[p].pc, c);
    hide Recorded, Next, Execution, ReadingOf;
  }

  /** In every execution, what a process claims after its execution of the script is what the script has yielded: that the
      run has FAILED while broadcasting, only if the script ended in time, badly, and left no hash; anything else but a
      reconciliation, only if it ended in time, and well or with a hash. */
  lemma ClaimsByOutcome(n: nat, actions: seq<Action>, p: nat, c: Choice)
    requires p < |Execution(Start(n), actions).procs| && ReadingOf(Start(n), actions, p).Read?
    ensures var w := Execution(Start(n), actions);
            var reading, o := ReadingOf(Start(n), actions, p), Next(w.run, w.procs[p].live, w.procs[p].pc, c);
            o.effect.Claimed? && o.effect.to != RECONCILIATION_REQUIRED ==>
              if o.effect.from == BROADCASTING && o.effect.to == FAILED then Failed(reading) else Deployed(reading)
  {
    ReadingInv(n, actions, p);
    var w := Execution(Start(n), actions);
    OnlyClaimsWrite(w.run, w.procs[p].live, w.procs[p].pc, c);
    hide Recorded, Next, Execution, ReadingOf;
  }

  lemma OnlyClaimsWrite(run: Run, live: Option<Credential>, pc: Pc, c: Choice)
    ensures var o := Next(run, live, pc, c); o.effect.Claimed? ==> pc.Claim? && o.effect.from == pc.from && o.effect.to == pc.to
  {
  }

  /** A transaction the proxy has forwarded by the time its journal is read has a row as soon as the process that reads
      it comes to decide, and keeps it for ever: in every execution, whatever other processes do before and after. */
  lemma ForwardedIsRecorded(n: nat, actions: seq<Action>, p: nat, later: seq<Action>, keccak: string -> Option<Hash>,
                            forwarded: seq<RpcProxy.Forwarded>, journal: seq<RpcProxy.Entry>, i: nat)
    requires RpcProxy.WriteAhead(forwarded, journal) && i < |forwarded|
    requires forwarded[i].request.name == RpcProxy.SEND && forwarded[i].request.first.Some?
    requires keccak(RpcProxy.Prefixed(forwarded[i].request.first.value)).Some?
    requires p < |Execution(Start(n), actions).procs|
    requires var pc := Execution(Start(n), actions).procs[p].pc;
             pc.At? && pc.point.BroadcastDecide? &&
             pc.point.journal == RpcProxy.JournalHashes(keccak, RpcProxy.FileLines(journal))
    ensures keccak(RpcProxy.Prefixed(forwarded[i].request.first.value)).value in
              Hashes(Execution(Execution(Start(n), actions), later).run.txs)
  {
    var w := Execution(Start(n), actions);
    var hash := keccak(RpcProxy.Prefixed(forwarded[i].request.first.value)).value;
    hide Execution, Hashes, RpcProxy.Prefixed, RpcProxy.WriteAhead;
    RpcProxy.ForwardedIsRead(keccak, forwarded, journal, i);
    DecidesOnRecordedHashes(n, actions, p);
    assert hash in w.procs[p].pc.point.journal + w.procs[p].pc.point.artifacts;
    RecordedForEver(w, later);
  }
}
