/** No credential is ever used for two executions, whatever the processes interleave, lose or write. */
module DeploymentCredentialUse {
  import opened DeploymentProtocol
  import opened DeploymentRun
  import opened Options

  // ----- what a process can still do -----

  predicate PointMayExecute(at: Point, d: Credential) {
    match at
    case BroadcastTarget(_, credential) => d == credential
    case BroadcastFund(credential) => d == credential
    case BroadcastLookup(credential) => d == credential
    case BroadcastSandbox(credential) => d == credential
    case BroadcastExecute(credential) => d == credential
    case _ => false
  }

  /** The current call may still execute the script with this credential. */
  predicate MayExecute(pc: Pc, d: Credential) {
    if pc.At? then PointMayExecute(pc.point, d) else PointMayExecute(pc.next, d) || PointMayExecute(pc.onError, d)
  }

  predicate PointCleaning(at: Point) {
    match at
    case BroadcastJournal(_, _, _, _, _) | BroadcastDecide(_, _, _, _) | BroadcastCatch(_) | BroadcastFinally => true
    case ConfirmStart(_, b) => b
    case ConfirmReceipts(_, _, _, b) => b
    case ConfirmUnknown(_, b) => b
    case ConfirmCurrent(b) => b
    case ConfirmAfter(b) => b
    case ConfirmChecks(b) => b
    case _ => false
  }

  /** Every way the current call can end leads through the destruction of the credential. */
  predicate Cleaning(pc: Pc) {
    if pc.At? then PointCleaning(pc.point) else PointCleaning(pc.next) && PointCleaning(pc.onError)
  }

  lemma CleaningIsOver(pc: Pc, d: Credential)
    requires Cleaning(pc)
    ensures !MayExecute(pc, d)
  {
  }

  /** A step never adds a credential to execute with, except the live one at the start of a broadcast; an execution
      uses such a credential and is followed by its destruction. */
  ghost predicate Careful(live: Option<Credential>, pc: Pc, o: Outcome) {
    && (forall d: Credential :: MayExecute(o.pc, d) ==> MayExecute(pc, d) || (pc == At(BroadcastStart) && live == Some(d)))
    && (Cleaning(pc) ==> (Cleaning(o.pc) || o.effect == Destroy) && !o.effect.Execute? && !o.effect.Issue?)
    && (o.effect == Destroy ==> o.pc == At(Idle))
    && (o.effect == Issue ==> o.pc == At(PrepareSandbox))
    && (o.effect.Execute? ==> MayExecute(pc, o.effect.credential) && Cleaning(o.pc))
  }

  lemma PrepareCareful(run: Run, live: Option<Credential>, at: Point, c: Choice)
    ensures Careful(live, At(at), NextPrepare(run, at, c))
  {
  }

  lemma RecordingCareful(run: Run, live: Option<Credential>, at: Point, c: Choice)
    requires at.BroadcastExecute? || at.BroadcastJournal? || at.BroadcastDecide? || at.BroadcastCatch? || at.BroadcastFinally?
    ensures Careful(live, At(at), NextBroadcast(run, live, at, c))
  {
    hide Allowed;
  }

  lemma BroadcastCareful(run: Run, live: Option<Credential>, at: Point, c: Choice)
    ensures Careful(live, At(at), NextBroadcast(run, live, at, c))
  {
    if at.BroadcastExecute? || at.BroadcastJournal? || at.BroadcastDecide? || at.BroadcastCatch? || at.BroadcastFinally? {
      RecordingCareful(run, live, at, c);
    } else {
      hide Allowed;
    }
  }

  lemma ReconcileCareful(run: Run, live: Option<Credential>, at: Point, c: Choice)
    ensures Careful(live, At(at), NextReconcile(run, at, c))
  {
  }

  lemma ReceiptsCareful(run: Run, live: Option<Credential>, at: Point, c: Choice)
    requires at.ConfirmStart? || at.ConfirmReceipts? || at.ConfirmUnknown?
    ensures Careful(live, At(at), NextConfirm(run, at, c))
  {
    hide AllConfirmed, Hashes;
  }

  lemma ConfirmCareful(run: Run, live: Option<Credential>, at: Point, c: Choice)
    ensures Careful(live, At(at), NextConfirm(run, at, c))
  {
    if at.ConfirmStart? || at.ConfirmReceipts? || at.ConfirmUnknown? {
      ReceiptsCareful(run, live, at, c);
    } else {
      hide AllConfirmed, Hashes;
    }
  }

  lemma NextCareful(run: Run, live: Option<Credential>, pc: Pc, c: Choice)
    ensures Careful(live, pc, Next(run, live, pc, c))
  {
    if pc.At? {
      PrepareCareful(run, live, pc.point, c);
      BroadcastCareful(run, live, pc.point, c);
      ReconcileCareful(run, live, pc.point, c);
      ConfirmCareful(run, live, pc.point, c);
      hide NextPrepare, NextBroadcast, NextReconcile, NextConfirm;
    }
  }

  // ----- the invariant -----

  ghost predicate IsExecuted(history: seq<Entry>, credential: Credential) {
    exists i :: 0 <= i < |history| && history[i].Executed? && history[i].credential == credential
  }

  /** `p` has issued the credential and has not executed anything since. */
  ghost predicate IssuedSince(history: seq<Entry>, p: nat, credential: Credential) {
    exists k :: 0 <= k < |history| && history[k] == Issued(p, credential) &&
      forall i :: k < i < |history| ==> !(history[i].Executed? && history[i].p == p)
  }

  /** Executions use different credentials, and two of one process have a fresh issue between them. */
  ghost predicate UsedOnce(history: seq<Entry>) {
    forall i, j :: 0 <= i < j < |history| && history[i].Executed? && history[j].Executed? ==>
      && history[i].credential != history[j].credential
      && (history[i].p == history[j].p ==> exists k :: i < k < j && history[k] == Issued(history[j].p, history[j].credential))
  }

  ghost predicate Known(w: World) {
    forall i :: 0 <= i < |w.history| ==> w.history[i].credential < w.issued
  }

  ghost predicate ProcessOk(w: World, p: nat)
    requires p < |w.procs|
  {
    var Process(live, pc) := w.procs[p];
    && (live.Some? ==>
          && live.value < w.issued
          && (if IsExecuted(w.history, live.value) then Cleaning(pc) else IssuedSince(w.history, p, live.value)))
    && (forall d: Credential :: MayExecute(pc, d) ==> live == Some(d) && !IsExecuted(w.history, d))
  }

  ghost predicate SeparateProcesses(procs: seq<Process>) {
    forall p, q :: 0 <= p < q < |procs| && procs[p].live.Some? ==> procs[p].live != procs[q].live
  }

  ghost predicate Inv(w: World) {
    && UsedOnce(w.history)
    && Known(w)
    && SeparateProcesses(w.procs)
    && forall p :: 0 <= p < |w.procs| ==> ProcessOk(w, p)
  }

  /** Moving on without touching credentials. */
  lemma MoveOn(w: World, p: nat, pc: Pc, run: Run)
    requires Inv(w) && p < |w.procs|
    requires forall d: Credential :: MayExecute(pc, d) ==>
               MayExecute(w.procs[p].pc, d) || (w.procs[p].pc == At(BroadcastStart) && w.procs[p].live == Some(d))
    requires Cleaning(w.procs[p].pc) ==> Cleaning(pc)
    ensures Inv(w.(run := run, procs := w.procs[p := w.procs[p].(pc := pc)]))
  {
    var w' := w.(run := run, procs := w.procs[p := w.procs[p].(pc := pc)]);
    assert w.procs[p].pc == At(BroadcastStart) ==> !Cleaning(w.procs[p].pc);
    hide MayExecute, IssuedSince, Cleaning;
    assert ProcessOk(w, p);
    forall q | 0 <= q < |w'.procs|
      ensures ProcessOk(w', q)
    {
      assert ProcessOk(w, q);
    }
  }

  lemma Forget(w: World, p: nat)
    requires Inv(w) && p < |w.procs|
    ensures Inv(w.(procs := w.procs[p := Process(None, At(Idle))]))
  {
    var w' := w.(procs := w.procs[p := Process(None, At(Idle))]);
    assert !Cleaning(At(Idle)) && forall d: Credential :: !MayExecute(At(Idle), d);
    hide MayExecute, Cleaning, IssuedSince;
    forall q | 0 <= q < |w'.procs|
      ensures ProcessOk(w', q)
    {
      assert ProcessOk(w, q);
    }
  }

  lemma IssueNew(w: World, p: nat)
    requires Inv(w) && p < |w.procs|
    ensures Inv(w.(procs := w.procs[p := Process(Some(w.issued), At(PrepareSandbox))], issued := w.issued + 1,
                   history := w.history + [Issued(p, w.issued)]))
  {
    var w' := w.(procs := w.procs[p := Process(Some(w.issued), At(PrepareSandbox))], issued := w.issued + 1,
                 history := w.history + [Issued(p, w.issued)]);
    assert forall d: Credential :: !MayExecute(At(PrepareSandbox), d);
    hide MayExecute, Cleaning;
    HistoryIssue(w.history, p, w.issued);
    assert !IsExecuted(w'.history, w.issued);
    forall q | 0 <= q < |w'.procs|
      ensures ProcessOk(w', q)
    {
      assert ProcessOk(w, q);
    }
    assert SeparateProcesses(w'.procs) by {
      forall a, b | 0 <= a < b < |w'.procs| && w'.procs[a].live.Some?
        ensures w'.procs[a].live != w'.procs[b].live
      {
        assert ProcessOk(w, a) && ProcessOk(w, b);
      }
    }
  }

  lemma HistoryIssue(h: seq<Entry>, p: nat, credential: Credential)
    requires UsedOnce(h)
    ensures UsedOnce(h + [Issued(p, credential)])
    ensures forall d :: IsExecuted(h + [Issued(p, credential)], d) <==> IsExecuted(h, d)
    ensures IssuedSince(h + [Issued(p, credential)], p, credential)
    ensures forall q, d :: IssuedSince(h, q, d) ==> IssuedSince(h + [Issued(p, credential)], q, d)
  {
    var h' := h + [Issued(p, credential)];
    assert h'[|h|] == Issued(p, credential);
    forall d
      ensures IsExecuted(h', d) <==> IsExecuted(h, d)
    {
      if IsExecuted(h, d) {
        var i :| 0 <= i < |h| && h[i].Executed? && h[i].credential == d;
        assert h'[i] == h[i];
      }
    }
    forall q, d | IssuedSince(h, q, d)
      ensures IssuedSince(h', q, d)
    {
      var k :| 0 <= k < |h| && h[k] == Issued(q, d) && forall i :: k < i < |h| ==> !(h[i].Executed? && h[i].p == q);
      assert h'[k] == h[k];
    }
    UsedOnceExtends(h, Issued(p, credential));
  }

  lemma UsedOnceExtends(h: seq<Entry>, e: Entry)
    requires UsedOnce(h)
    requires e.Executed? ==> !IsExecuted(h, e.credential) && IssuedSince(h, e.p, e.credential)
    ensures UsedOnce(h + [e])
  {
    var h' := h + [e];
    forall i, j | 0 <= i < j < |h'| && h'[i].Executed? && h'[j].Executed?
      ensures h'[i].credential != h'[j].credential
      ensures h'[i].p == h'[j].p ==> exists k :: i < k < j && h'[k] == Issued(h'[j].p, h'[j].credential)
    {
      if j < |h| {
        assert h[i] == h'[i] && h[j] == h'[j];
        if h[i].p == h[j].p {
          var k :| i < k < j && h[k] == Issued(h[j].p, h[j].credential);
          assert h'[k] == h[k];
        }
      } else {
        assert h[i] == h'[i];
        var k :| 0 <= k < |h| && h[k] == Issued(e.p, e.credential) &&
                 forall m :: k < m < |h| ==> !(h[m].Executed? && h[m].p == e.p);
        assert h'[k] == h[k];
      }
    }
  }

  lemma HistoryExecute(h: seq<Entry>, p: nat, credential: Credential)
    requires UsedOnce(h) && !IsExecuted(h, credential) && IssuedSince(h, p, credential)
    ensures UsedOnce(h + [Executed(p, credential)])
    ensures forall d :: IsExecuted(h + [Executed(p, credential)], d) <==> IsExecuted(h, d) || d == credential
    ensures forall q, d :: q != p && IssuedSince(h, q, d) ==> IssuedSince(h + [Executed(p, credential)], q, d)
  {
    var e := Executed(p, credential);
    var h' := h + [e];
    assert h'[|h|] == e;
    UsedOnceExtends(h, e);
    forall d
      ensures IsExecuted(h', d) <==> IsExecuted(h, d) || d == credential
    {
      if IsExecuted(h, d) {
        var i :| 0 <= i < |h| && h[i].Executed? && h[i].credential == d;
        assert h'[i] == h[i];
      }
    }
    forall q, d | q != p && IssuedSince(h, q, d)
      ensures IssuedSince(h', q, d)
    {
      var k :| 0 <= k < |h| && h[k] == Issued(q, d) && forall i :: k < i < |h| ==> !(h[i].Executed? && h[i].p == q);
      assert h'[k] == h[k];
    }
  }

  lemma ExecuteOnce(w: World, p: nat, credential: Credential, pc: Pc)
    requires Inv(w) && p < |w.procs|
    requires MayExecute(w.procs[p].pc, credential) && Cleaning(pc) && forall d: Credential :: !MayExecute(pc, d)
    ensures Inv(w.(procs := w.procs[p := w.procs[p].(pc := pc)], history := w.history + [Executed(p, credential)]))
  {
    hide MayExecute, Cleaning;
    var w' := w.(procs := w.procs[p := w.procs[p].(pc := pc)], history := w.history + [Executed(p, credential)]);
    assert ProcessOk(w, p);
    HistoryExecute(w.history, p, credential);
    hide IssuedSince, UsedOnce, IsExecuted;
    forall q | 0 <= q < |w'.procs|
      ensures ProcessOk(w', q)
    {
      assert ProcessOk(w, q);
      assert q != p ==> w.procs[q].live != Some(credential);
      assert q == p ==> w.procs[q].live == Some(credential);
    }
  }

  // ----- every execution -----

  lemma StepKeepsInv(w: World, p: nat, choice: Choice)
    requires Inv(w) && p < |w.procs|
    ensures Inv(Perform(w, p, Next(w.run, w.procs[p].live, w.procs[p].pc, choice)))
  {
    var Process(live, pc) := w.procs[p];
    var o := Next(w.run, live, pc, choice);
    NextCareful(w.run, live, pc, choice);
    hide Next, Inv, MayExecute, Cleaning;
    match o.effect
    case Nothing => MoveOn(w, p, o.pc, w.run);
    case Claimed(from, to) => MoveOn(w, p, o.pc, ApplyTransition(w.run, from, to));
    case Issue => IssueNew(w, p);
    case Destroy => Forget(w, p);
    case Execute(credential) =>
      forall d: Credential ensures !MayExecute(o.pc, d) { CleaningIsOver(o.pc, d); }
      ExecuteOnce(w, p, credential, o.pc);
    case Store(tx) => MoveOn(w, p, o.pc, w.run.(txs := Record(w.run.txs, tx)));
  }

  lemma ActKeepsInv(w: World, a: Action)
    requires Inv(w)
    ensures Inv(Act(w, a))
  {
    if a.p < |w.procs| {
      match a
      case Deliver(p, job) =>
        if w.procs[p].pc == At(Idle) {
          assert !Cleaning(At(Idle)) && forall d: Credential :: !MayExecute(At(Entrance(job)), d);
          hide Inv, MayExecute, Cleaning;
          MoveOn(w, p, At(Entrance(job)), w.run);
        }
      case Step(p, choice) => StepKeepsInv(w, p, choice);
      case Crash(p) => Forget(w, p);
    }
  }

  lemma {:induction false} ExecutionKeepsInv(n: nat, actions: seq<Action>)
    ensures Inv(Execution(Start(n), actions))
  {
    if actions != [] {
      ExecutionKeepsInv(n, actions[..|actions| - 1]);
      ActKeepsInv(Execution(Start(n), actions[..|actions| - 1]), actions[|actions| - 1]);
    }
  }

  function CountExecuted(h: seq<Entry>): nat {
    if h == [] then 0 else CountExecuted(h[..|h| - 1]) + if h[|h| - 1].Executed? then 1 else 0
  }

  /** With any number of processes, in any interleaving of jobs, cancellations and crashes, whatever is stored or fails
      to be stored: no credential is used twice, two executions of one process are separated by the issue of the
      credential of the second, and there are at most as many executions as issued credentials. */
  lemma CredentialsAreUsedOnce(n: nat, actions: seq<Action>)
    ensures var w := Execution(Start(n), actions);
            UsedOnce(w.history) && CountExecuted(w.history) <= w.issued
  {
    var w := Execution(Start(n), actions);
    ExecutionKeepsInv(n, actions);
    var used := ExecutedCredentials(w.history, w.issued);
    BelowCount(used, w.issued);
  }

  lemma {:induction false} ExecutedCredentials(h: seq<Entry>, bound: nat) returns (used: set<Credential>)
    requires UsedOnce(h) && forall i :: 0 <= i < |h| ==> h[i].credential < bound
    ensures |used| == CountExecuted(h)
    ensures forall d: Credential :: d in used ==> d < bound && IsExecuted(h, d)
  {
    used := {};
    if h != [] {
      var h', e := h[..|h| - 1], h[|h| - 1];
      assert UsedOnce(h') by {
        forall i, j | 0 <= i < j < |h'| && h'[i].Executed? && h'[j].Executed?
          ensures h'[i].credential != h'[j].credential
          ensures h'[i].p == h'[j].p ==> exists k :: i < k < j && h'[k] == Issued(h'[j].p, h'[j].credential)
        {
          assert h[i] == h'[i] && h[j] == h'[j];
          if h[i].p == h[j].p {
            var k :| i < k < j && h[k] == Issued(h[j].p, h[j].credential);
            assert h'[k] == h[k];
          }
        }
      }
      used := ExecutedCredentials(h', bound);
      forall d | d in used
        ensures IsExecuted(h, d) && (e.Executed? ==> d != e.credential)
      {
        var i :| 0 <= i < |h'| && h'[i].Executed? && h'[i].credential == d;
        assert h[i] == h'[i];
      }
      if e.Executed? {
        used := used + {e.credential};
        assert h[|h| - 1] == e;
      }
    }
  }

  lemma {:induction false} BelowCount(s: set<nat>, n: nat)
    requires forall x :: x in s ==> x < n
    ensures |s| <= n
  {
    if n == 0 {
      assert s == {};
    } else {
      BelowCount(s - {n - 1}, n - 1);
      assert s <= (s - {n - 1}) + {n - 1};
    }
  }
}
