/** What a call of a processor comes to when nothing else interferes, for every way in which its operations answer. */
module DeploymentCalls {
  import opened DeploymentDiscipline
  import opened DeploymentProtocol
  import opened DeploymentRun
  import opened Options
  import opened Sequences

  /** How the operations answer: what is awaited at a place of the process. */
  type Answers = Pc -> Choice

  /** Nothing throws. */
  ghost predicate Calm(answers: Answers) {
    forall pc :: !answers(pc).throws && !answers(pc).late
  }

  predicate Good(answers: Answers, at: Point) {
    answers(At(at)).good
  }

  /** `n` steps of process `p` alone. */
  function Play(w: World, p: nat, answers: Answers, n: nat): World {
    if n == 0 then w
    else
      var before := Play(w, p, answers, n - 1);
      if p < |before.procs| then Act(before, Step(p, answers(before.procs[p].pc))) else before
  }

  /** Process `p` alone comes to `w'`. */
  ghost predicate Comes(w: World, p: nat, answers: Answers, w': World) {
    exists n: nat :: Play(w, p, answers, n) == w'
  }

  lemma ComesItself(w: World, p: nat, answers: Answers)
    ensures Comes(w, p, answers, w)
  {
    assert Play(w, p, answers, 0) == w;
  }

  lemma {:induction false} PlayParts(w: World, p: nat, answers: Answers, m: nat, n: nat)
    ensures Play(Play(w, p, answers, m), p, answers, n) == Play(w, p, answers, m + n)
  {
    hide Act;
    if n > 0 {
      PlayParts(w, p, answers, m, n - 1);
    }
  }

  /** Where a call ends is settled: an idle process stays idle, so all plays that end, end alike. */
  lemma EndsAlike(w: World, p: nat, answers: Answers, a: World, b: World)
    requires Comes(w, p, answers, a) && Comes(w, p, answers, b)
    requires p < |a.procs| && a.procs[p].pc == At(Idle) && p < |b.procs| && b.procs[p].pc == At(Idle)
    ensures a == b
  {
    var m: nat :| Play(w, p, answers, m) == a;
    var n: nat :| Play(w, p, answers, n) == b;
    hide Play;
    if m <= n {
      PlayedLater(w, p, answers, m, n);
    } else {
      PlayedLater(w, p, answers, n, m);
    }
  }

  lemma PlayedLater(w: World, p: nat, answers: Answers, m: nat, n: nat)
    requires m <= n && p < |Play(w, p, answers, m).procs| && Play(w, p, answers, m).procs[p].pc == At(Idle)
    ensures Play(w, p, answers, n) == Play(w, p, answers, m)
  {
    hide Play;
    PlayParts(w, p, answers, m, n - m);
    IdlePlays(Play(w, p, answers, m), p, answers, n - m);
  }

  lemma {:induction false} IdlePlays(w: World, p: nat, answers: Answers, n: nat)
    requires p < |w.procs| && w.procs[p].pc == At(Idle)
    ensures Play(w, p, answers, n) == w
  {
    if n > 0 {
      IdlePlays(w, p, answers, n - 1);
      IdleStays(w, p, answers(At(Idle)));
    }
  }

  lemma Further(w0: World, w: World, p: nat, answers: Answers, o: Outcome) returns (w': World)
    requires Comes(w0, p, answers, w) && p < |w.procs|
    requires Next(w.run, w.procs[p].live, w.procs[p].pc, answers(w.procs[p].pc)) == o
    ensures w' == Perform(w, p, o) && Comes(w0, p, answers, w')
  {
    var n: nat :| Play(w0, p, answers, n) == w;
    w' := Act(w, Step(p, answers(w.procs[p].pc)));
    assert Play(w0, p, answers, n + 1) == w';
  }

  lemma Onward(w0: World, w: World, p: nat, answers: Answers, to: Pc) returns (w': World)
    requires Comes(w0, p, answers, w) && p < |w.procs|
    requires Next(w.run, w.procs[p].live, w.procs[p].pc, answers(w.procs[p].pc)) == Outcome(to, Nothing)
    ensures w' == w.(procs := w.procs[p := w.procs[p].(pc := to)]) && Comes(w0, p, answers, w')
  {
    w' := Further(w0, w, p, answers, Outcome(to, Nothing));
  }

  /** A claim whose edge is in the table. */
  lemma Written(w0: World, w: World, p: nat, answers: Answers) returns (w': World)
    requires Comes(w0, p, answers, w) && p < |w.procs| && !answers(w.procs[p].pc).throws && !answers(w.procs[p].pc).late
    requires w.procs[p].pc.Claim? && Allowed(w.procs[p].pc.from, w.procs[p].pc.to)
    ensures Comes(w0, p, answers, w')
    ensures var pc := w.procs[p].pc;
            w' == w.(run := ApplyTransition(w.run, pc.from, pc.to), procs := w.procs[p := w.procs[p].(pc := At(pc.next))])
  {
    var pc := w.procs[p].pc;
    w' := Further(w0, w, p, answers, Outcome(At(pc.next), Claimed(pc.from, pc.to)));
  }

  // ----- preparation -----

  /** A preparation of a run that is queued, or whose preparation was interrupted: it is PREPARED, with a new credential,
      exactly when the checks pass, there is a candidate, and the simulation succeeds; otherwise it is FAILED. */
  lemma PrepareEnds(w: World, p: nat, answers: Answers) returns (w': World)
    requires Calm(answers) && p < |w.procs| && w.procs[p].pc == At(PrepareStart)
    requires w.run.status == QUEUED || w.run.status == CHECKING_ELIGIBILITY || w.run.status == PREPARING
    ensures Comes(w, p, answers, w') && |w'.procs| == |w.procs| && w'.procs[p].pc == At(Idle) && w'.run.txs == w.run.txs
    ensures w'.run.status ==
            if Good(answers, PrepareChecks) && Good(answers, PrepareCandidate) && Good(answers, PrepareSimulate) then PREPARED
            else FAILED
    ensures var issued := Good(answers, PrepareChecks) && Good(answers, PrepareCandidate);
            && w'.procs[p].live == (if issued then Some(w.issued) else w.procs[p].live)
            && w'.history == w.history + if issued then [Issued(p, w.issued)] else []
  {
    ComesItself(w, p, answers);
    hide Comes;
    w' := w;
    if w.run.status == QUEUED {
      w' := Onward(w, w', p, answers, Claim(QUEUED, CHECKING_ELIGIBILITY, PrepareChecks, Idle));
      w' := Written(w, w', p, answers);
    } else {
      w' := Onward(w, w', p, answers, At(PrepareChecks));
    }
    hide Next, Calm;
    w' := ChecksEnd(w, w', p, answers);
  }

  lemma ChecksEnd(w0: World, w: World, p: nat, answers: Answers) returns (w': World)
    requires Calm(answers) && Comes(w0, p, answers, w) && p < |w.procs| && w.procs[p].pc == At(PrepareChecks)
    requires w.run.status == CHECKING_ELIGIBILITY || w.run.status == PREPARING
    ensures Comes(w0, p, answers, w') && |w'.procs| == |w.procs| && w'.procs[p].pc == At(Idle) && w'.run.txs == w.run.txs
    ensures w'.run.status ==
            if Good(answers, PrepareChecks) && Good(answers, PrepareCandidate) && Good(answers, PrepareSimulate) then PREPARED
            else FAILED
    ensures var issued := Good(answers, PrepareChecks) && Good(answers, PrepareCandidate);
            && w'.procs[p].live == (if issued then Some(w.issued) else w.procs[p].live)
            && w'.history == w.history + if issued then [Issued(p, w.issued)] else []
  {
    hide Comes;
    if !Good(answers, PrepareChecks) {
      w' := Onward(w0, w, p, answers, At(PrepareCatch));
      w' := Onward(w0, w', p, answers, Claim(w.run.status, FAILED, Idle, Idle));
      w' := Written(w0, w', p, answers);
    } else {
      w' := Onward(w0, w, p, answers, At(PrepareLatest));
      if w.run.status == CHECKING_ELIGIBILITY {
        w' := Onward(w0, w', p, answers, Claim(CHECKING_ELIGIBILITY, PREPARING, PrepareAllocate, Idle));
        w' := Written(w0, w', p, answers);
      } else {
        w' := Onward(w0, w', p, answers, At(PrepareAllocate));
      }
      hide Next, Calm;
      w' := CandidateEnds(w0, w', p, answers);
    }
  }

  lemma CandidateEnds(w0: World, w: World, p: nat, answers: Answers) returns (w': World)
    requires Calm(answers) && Comes(w0, p, answers, w) && p < |w.procs| && w.procs[p].pc == At(PrepareAllocate)
    requires w.run.status == PREPARING
    ensures Comes(w0, p, answers, w') && |w'.procs| == |w.procs| && w'.procs[p].pc == At(Idle) && w'.run.txs == w.run.txs
    ensures w'.run.status == if Good(answers, PrepareCandidate) && Good(answers, PrepareSimulate) then PREPARED else FAILED
    ensures var issued := Good(answers, PrepareCandidate);
            && w'.procs[p].live == (if issued then Some(w.issued) else w.procs[p].live)
            && w'.history == w.history + if issued then [Issued(p, w.issued)] else []
  {
    hide Comes;
    w' := Onward(w0, w, p, answers, At(PrepareCandidate));
    if !Good(answers, PrepareCandidate) {
      w' := Onward(w0, w', p, answers, Claim(PREPARING, FAILED, Idle, Idle));
      w' := Written(w0, w', p, answers);
    } else {
      w' := Onward(w0, w', p, answers, At(PrepareIssue));
      w' := Further(w0, w', p, answers, Outcome(At(PrepareSandbox), Issue));
      hide Next, Calm;
      w' := SimulationEnds(w0, w', p, answers);
    }
  }

  lemma SimulationEnds(w0: World, w: World, p: nat, answers: Answers) returns (w': World)
    requires Calm(answers) && Comes(w0, p, answers, w) && p < |w.procs| && w.procs[p].pc == At(PrepareSandbox)
    requires w.run.status == PREPARING
    ensures Comes(w0, p, answers, w') && |w'.procs| == |w.procs| && w'.procs[p].pc == At(Idle) && w'.run.txs == w.run.txs
    ensures w'.run.status == if Good(answers, PrepareSimulate) then PREPARED else FAILED
    ensures w'.procs[p].live == w.procs[p].live && w'.history == w.history
  {
    hide Comes;
    w' := Onward(w0, w, p, answers, Claim(PREPARING, SIMULATING, PrepareSimulate, PrepareCatch));
    w' := Written(w0, w', p, answers);
    if Good(answers, PrepareSimulate) {
      w' := Onward(w0, w', p, answers, Claim(SIMULATING, PREPARED, Idle, PrepareCatch));
    } else {
      w' := Onward(w0, w', p, answers, Claim(SIMULATING, FAILED, Idle, Idle));
    }
    w' := Written(w0, w', p, answers);
  }

  // ----- broadcast -----

  /** What the script yields, by the answer of its execution. */
  datatype Yield = TimedOut | Failed | Deployed

  function YieldOf(c: Choice): Yield {
    if c.timedOut then TimedOut
    else if c.good then Deployed
    else if |c.journal| == 0 && |c.artifacts| == 0 then Failed
    else Deployed
  }

  /** Where a broadcast is after what the script has yielded. */
  predicate Yields(w: World, p: nat, d: Credential, outcome: Yield)
    requires p < |w.procs|
  {
    match outcome
    case TimedOut => w.procs[p] == Process(None, At(Idle)) && w.run.status == RECONCILIATION_REQUIRED
    case Failed => w.procs[p] == Process(None, At(Idle)) && w.run.status == FAILED
    case Deployed => w.procs[p] == Process(Some(d), At(ConfirmStart(None, true))) && w.run.status == CONFIRMING
  }

  /** The script has been executed once, and every hash that it has yielded has a row. */
  ghost predicate Executes(w: World, w': World, p: nat, d: Credential, c: Choice)
    requires p < |w'.procs|
  {
    && w'.history == w.history + [Executed(p, d)]
    && (forall h :: h in Hashes(w'.run.txs) <==> h in Hashes(w.run.txs) || h in c.journal || h in c.artifacts)
    && (Distinct(Hashes(w.run.txs)) ==> Distinct(Hashes(w'.run.txs)))
    && Yields(w', p, d, YieldOf(c))
  }

  /** A broadcast of a prepared run with a live credential. When what it needs cannot be looked up, the run is FAILED and
      nothing is executed. Otherwise the script is executed once, every hash it yields has a row, and the run needs
      reconciliation if the script timed out, is FAILED if it ended badly without a hash, and is CONFIRMING else, with the
      receipts still to be asked for. */
  lemma BroadcastEnds(w: World, p: nat, d: Credential, answers: Answers) returns (w': World)
    requires Calm(answers) && p < |w.procs| && w.procs[p] == Process(Some(d), At(BroadcastStart)) && w.run.status == PREPARED
    ensures Comes(w, p, answers, w') && |w'.procs| == |w.procs|
    ensures !Good(answers, BroadcastLookup(d)) ==>
              w'.procs[p] == Process(Some(d), At(Idle)) && w'.run.status == FAILED && w'.run.txs == w.run.txs && w'.history == w.history
    ensures Good(answers, BroadcastLookup(d)) ==> Executes(w, w', p, d, answers(At(BroadcastExecute(d))))
  {
    ComesItself(w, p, answers);
    hide Comes;
    w' := Onward(w, w, p, answers, At(BroadcastTarget(PREPARED, d)));
    w' := Onward(w, w', p, answers, Claim(PREPARED, FUNDING, BroadcastFund(d), Idle));
    w' := Written(w, w', p, answers);
    w' := Onward(w, w', p, answers, At(BroadcastLookup(d)));
    hide Next, Calm;
    w' := LookupEnds(w, w', p, d, answers);
  }

  lemma LookupEnds(w0: World, w: World, p: nat, d: Credential, answers: Answers) returns (w': World)
    requires Calm(answers) && Comes(w0, p, answers, w) && p < |w.procs| && w.procs[p] == Process(Some(d), At(BroadcastLookup(d)))
    ensures Comes(w0, p, answers, w') && |w'.procs| == |w.procs|
    ensures !Good(answers, BroadcastLookup(d)) ==>
              w'.procs[p] == Process(Some(d), At(Idle)) && w'.run.status == FAILED && w'.run.txs == w.run.txs && w'.history == w.history
    ensures Good(answers, BroadcastLookup(d)) ==> Executes(w, w', p, d, answers(At(BroadcastExecute(d))))
  {
    hide Comes;
    if !Good(answers, BroadcastLookup(d)) {
      w' := Onward(w0, w, p, answers, Claim(FUNDING, FAILED, Idle, Idle));
      w' := Written(w0, w', p, answers);
    } else {
      w' := Onward(w0, w, p, answers, At(BroadcastSandbox(d)));
      hide Next, Calm;
      w' := SandboxEnds(w0, w', p, d, answers);
    }
  }

  lemma SandboxEnds(w0: World, w: World, p: nat, d: Credential, answers: Answers) returns (w': World)
    requires Calm(answers) && Comes(w0, p, answers, w) && p < |w.procs| && w.procs[p] == Process(Some(d), At(BroadcastSandbox(d)))
    ensures Comes(w0, p, answers, w') && |w'.procs| == |w.procs|
    ensures Executes(w, w', p, d, answers(At(BroadcastExecute(d))))
  {
    hide Comes;
    w' := Onward(w0, w, p, answers, Claim(FUNDING, BROADCASTING, BroadcastExecute(d), BroadcastCatch(false)));
    w' := Written(w0, w', p, answers);
    var c := answers(At(BroadcastExecute(d)));
    w' := Further(w0, w', p, answers,
                  Outcome(At(BroadcastJournal(c.journal, c.artifacts, 0, c.timedOut, c.good)), Execute(d)));
    hide Next, Calm;
    assert (c.journal + c.artifacts)[..0] == [];
    w' := AllRecorded(w0, w', p, answers, c.journal, c.artifacts, 0, c.timedOut, c.good);
    w' := DecisionEnds(w0, w', p, d, answers, c);
  }

  lemma {:induction false} AllRecorded(w0: World, w: World, p: nat, answers: Answers, journal: seq<Hash>, artifacts: seq<Hash>,
                                       recorded: nat, timedOut: bool, good: bool) returns (w': World)
    requires Calm(answers) && Comes(w0, p, answers, w) && p < |w.procs| && recorded <= |journal + artifacts|
    requires w.procs[p].pc == At(BroadcastJournal(journal, artifacts, recorded, timedOut, good))
    ensures Comes(w0, p, answers, w') && w'.history == w.history && w'.run.status == w.run.status
    ensures w'.procs == w.procs[p := w.procs[p].(pc := At(BroadcastDecide(journal, artifacts, timedOut, good)))]
    ensures forall h :: h in Hashes(w'.run.txs) <==> h in Hashes(w.run.txs) || h in (journal + artifacts)[recorded..]
    ensures Distinct(Hashes(w.run.txs)) ==> Distinct(Hashes(w'.run.txs))
    decreases |journal + artifacts| - recorded
  {
    var all := journal + artifacts;
    hide Comes, Record, Hashes, Distinct;
    if recorded == |all| {
      w' := Onward(w0, w, p, answers, At(BroadcastDecide(journal, artifacts, timedOut, good)));
    } else {
      var sequence := if recorded < |journal| then recorded + 1 else recorded - |journal| + 1;
      var tx := Tx(all[recorded], sequence, SUBMITTED, None, None);
      var next := Further(w0, w, p, answers, Outcome(At(BroadcastJournal(journal, artifacts, recorded + 1, timedOut, good)), Store(tx)));
      RecordAdds(w.run.txs, tx);
      hide Next, Calm;
      w' := AllRecorded(w0, next, p, answers, journal, artifacts, recorded + 1, timedOut, good);
      FromNext(all, recorded);
    }
  }

  lemma FromNext(hashes: seq<Hash>, i: nat)
    requires i < |hashes|
    ensures hashes[i..] == [hashes[i]] + hashes[i + 1..]
  {
  }

  lemma RecordAdds(txs: seq<Tx>, tx: Tx)
    ensures forall h :: h in Hashes(Record(txs, tx)) <==> h in Hashes(txs) || h == tx.hash
    ensures Distinct(Hashes(txs)) ==> Distinct(Hashes(Record(txs, tx)))
  {
    RecordHashes(txs, tx);
  }

  lemma DecisionEnds(w0: World, w: World, p: nat, d: Credential, answers: Answers, c: Choice) returns (w': World)
    requires Calm(answers) && Comes(w0, p, answers, w) && p < |w.procs|
    requires w.procs[p] == Process(Some(d), At(BroadcastDecide(c.journal, c.artifacts, c.timedOut, c.good)))
    ensures Comes(w0, p, answers, w') && |w'.procs| == |w.procs| && w'.history == w.history && w'.run.txs == w.run.txs
    ensures Yields(w', p, d, YieldOf(c))
  {
    hide Comes;
    match YieldOf(c)
    case TimedOut =>
      w' := Onward(w0, w, p, answers, Claim(BROADCASTING, RECONCILIATION_REQUIRED, BroadcastFinally, BroadcastCatch(true)));
      w' := Written(w0, w', p, answers);
      w' := Further(w0, w', p, answers, Outcome(At(Idle), Destroy));
    case Failed =>
      w' := Onward(w0, w, p, answers, Claim(BROADCASTING, FAILED, BroadcastFinally, BroadcastFinally));
      w' := Written(w0, w', p, answers);
      w' := Further(w0, w', p, answers, Outcome(At(Idle), Destroy));
    case Deployed =>
      w' := Onward(w0, w, p, answers, Claim(BROADCASTING, CONFIRMING, ConfirmStart(None, true), BroadcastCatch(true)));
      w' := Written(w0, w', p, answers);
  }

  // ----- receipts and verification -----

  predicate InDoubt(status: TxStatus) {
    status == UNKNOWN || status == PENDING
  }

  /** What is answered for the receipt of each hash, asked for at this stage of the confirmation. */
  ghost predicate Receipts(answers: Answers, claimed: Option<Status>, b: bool, receipts: Hash -> TxStatus) {
    forall pending: seq<Hash>, unknown: bool :: pending != [] ==>
      var c := answers(At(ConfirmReceipts(pending, unknown, claimed, b)));
      c.good && c.receipt == receipts(pending[0])
  }

  /** The rows that are not pending any more have the status of their receipt. */
  predicate Received(txs: seq<Tx>, pending: seq<Hash>, receipts: Hash -> TxStatus) {
    forall i :: 0 <= i < |txs| && txs[i].hash !in pending ==> txs[i].status == receipts(txs[i].hash)
  }

  lemma ReceivedNext(txs: seq<Tx>, pending: seq<Hash>, receipts: Hash -> TxStatus, tx: Tx)
    requires pending != [] && Received(txs, pending, receipts) && Distinct(Hashes(txs))
    requires tx.hash == pending[0] && tx.status == receipts(tx.hash) && pending[0] in Hashes(txs)
    ensures Received(Record(txs, tx), pending[1..], receipts) && Hashes(Record(txs, tx)) == Hashes(txs)
  {
    hide Record, Distinct, Hashes;
    RecordHashes(txs, tx);
    RecordStatus(txs, tx);
    SameLength(txs, Record(txs, tx));
    assert pending == [pending[0]] + pending[1..];
  }

  lemma SameLength(txs: seq<Tx>, more: seq<Tx>)
    requires Hashes(more) == Hashes(txs)
    ensures |more| == |txs|
  {
    assert |Hashes(more)| == |more| && |Hashes(txs)| == |txs|;
  }

  lemma {:induction false} AllAsked(w0: World, w: World, p: nat, answers: Answers, pending: seq<Hash>, unknown: bool,
                                    claimed: Option<Status>, b: bool, receipts: Hash -> TxStatus) returns (w': World)
    requires Calm(answers) && Comes(w0, p, answers, w) && p < |w.procs| && Receipts(answers, claimed, b, receipts)
    requires w.procs[p].pc == At(ConfirmReceipts(pending, unknown, claimed, b))
    requires Distinct(Hashes(w.run.txs)) && Received(w.run.txs, pending, receipts)
    requires forall h :: h in pending ==> h in Hashes(w.run.txs)
    ensures Comes(w0, p, answers, w') && w'.run.status == w.run.status && w'.history == w.history
    ensures Hashes(w'.run.txs) == Hashes(w.run.txs) && Received(w'.run.txs, [], receipts)
    ensures var doubt := unknown || exists h :: h in pending && InDoubt(receipts(h));
            w'.procs == w.procs[p := w.procs[p].(pc := At(if doubt then ConfirmUnknown(claimed, b) else ConfirmCurrent(b)))]
    decreases |pending|
  {
    hide Comes, Record, Hashes, Distinct;
    if pending == [] {
      w' := Onward(w0, w, p, answers, At(if unknown then ConfirmUnknown(claimed, b) else ConfirmCurrent(b)));
    } else {
      var tx := Tx(pending[0], 0, receipts(pending[0]), None, None);
      var unknown' := unknown || InDoubt(tx.status);
      assert answers(w.procs[p].pc).receipt == tx.status;
      var next := Further(w0, w, p, answers, Outcome(At(ConfirmReceipts(pending[1..], unknown', claimed, b)), Store(tx)));
      ReceivedNext(w.run.txs, pending, receipts, tx);
      assert pending == [pending[0]] + pending[1..];
      hide Next, Calm, Received, Receipts;
      w' := AllAsked(w0, next, p, answers, pending[1..], unknown', claimed, b, receipts);
    }
  }

  /** Where a confirmation returns to: the broadcast still has its credential to destroy. */
  predicate Returned(w: World, p: nat, b: bool)
    requires p < |w.procs|
  {
    w.procs[p].pc == At(if b then BroadcastFinally else Idle)
  }

  /** What receipts make of a run in flight. */
  ghost function Verdict(hashes: seq<Hash>, receipts: Hash -> TxStatus, checks: bool): Status {
    if exists h :: h in hashes && InDoubt(receipts(h)) then RECONCILIATION_REQUIRED
    else if checks && hashes != [] && (forall h :: h in hashes ==> receipts(h) == CONFIRMED) then COMPLETED
    else FAILED
  }

  /** The confirmation of a run in flight asks for the receipt of every hash. The run needs reconciliation exactly when one
      of them is in doubt; otherwise it is COMPLETED exactly when there is a transaction, all are confirmed, and the checks
      pass, and FAILED else. */
  lemma ConfirmEnds(w0: World, w: World, p: nat, answers: Answers, claimed: Option<Status>, b: bool, receipts: Hash -> TxStatus)
    returns (w': World)
    requires Calm(answers) && Comes(w0, p, answers, w) && p < |w.procs| && Receipts(answers, claimed, b, receipts)
    requires w.procs[p].pc == At(ConfirmStart(claimed, b)) && InFlight(w.run.status) && Distinct(Hashes(w.run.txs))
    requires claimed.Some? ==> claimed.value == w.run.status
    ensures Comes(w0, p, answers, w') && |w'.procs| == |w.procs| && Returned(w', p, b) && w'.history == w.history
    ensures Hashes(w'.run.txs) == Hashes(w.run.txs)
    ensures forall i :: 0 <= i < |w'.run.txs| ==> w'.run.txs[i].status == receipts(w'.run.txs[i].hash)
    ensures w'.run.status == Verdict(Hashes(w.run.txs), receipts, Good(answers, ConfirmChecks(b)))
  {
    var hashes := Hashes(w.run.txs);
    assert Received(w.run.txs, hashes, receipts) by { AllPending(w.run.txs); }
    hide Comes;
    var a := Onward(w0, w, p, answers, At(ConfirmReceipts(hashes, false, claimed, b)));
    hide Next, Hashes, Distinct, Calm, Received;
    w' := AllAsked(w0, a, p, answers, hashes, false, claimed, b, receipts);
    var asked := w'.run.txs;
    NothingPending(asked, receipts);
    if exists h :: h in hashes && InDoubt(receipts(h)) {
      w' := DoubtEnds(w0, w', p, answers, claimed, b);
    } else {
      w' := VerifyEnds(w0, w', p, answers, b);
      ConfirmedRows(asked, receipts);
    }
  }

  /** A whole broadcast that can look up what it needs, for every outcome of the script and all receipts: the script is
      executed once, its credential is destroyed, and a script that has ended well or left a hash is judged by the receipts
      of all hashes on record. */
  lemma BroadcastWhole(w: World, p: nat, d: Credential, answers: Answers, receipts: Hash -> TxStatus) returns (w': World)
    requires Calm(answers) && p < |w.procs| && w.procs[p] == Process(Some(d), At(BroadcastStart)) && w.run.status == PREPARED
    requires Good(answers, BroadcastLookup(d)) && Distinct(Hashes(w.run.txs)) && Receipts(answers, None, true, receipts)
    ensures Comes(w, p, answers, w') && |w'.procs| == |w.procs| && w'.procs[p] == Process(None, At(Idle))
    ensures w'.history == w.history + [Executed(p, d)]
    ensures var c, hashes := answers(At(BroadcastExecute(d))), Hashes(w'.run.txs);
            && (forall h :: h in hashes <==> h in Hashes(w.run.txs) || h in c.journal || h in c.artifacts)
            && w'.run.status ==
                 (match YieldOf(c)
                  case TimedOut => RECONCILIATION_REQUIRED
                  case Failed => FAILED
                  case Deployed => Verdict(hashes, receipts, Good(answers, ConfirmChecks(true))))
            && (YieldOf(c) == Deployed ==>
                  forall i :: 0 <= i < |w'.run.txs| ==> w'.run.txs[i].status == receipts(w'.run.txs[i].hash))
  {
    hide Next, Comes, Calm, Receipts, Hashes, Distinct;
    w' := BroadcastEnds(w, p, d, answers);
    if YieldOf(answers(At(BroadcastExecute(d)))) == Deployed {
      var b := w';
      w' := ConfirmEnds(w, b, p, answers, None, true, receipts);
      w' := Destroyed(w, w', p, answers);
    }
  }

  lemma Destroyed(w0: World, w: World, p: nat, answers: Answers) returns (w': World)
    requires Comes(w0, p, answers, w) && p < |w.procs| && w.procs[p].pc == At(BroadcastFinally)
    ensures Comes(w0, p, answers, w') && w' == w.(procs := w.procs[p := Process(None, At(Idle))])
  {
    hide Comes;
    w' := Further(w0, w, p, answers, Outcome(At(Idle), Destroy));
  }

  lemma AllPending(txs: seq<Tx>)
    ensures forall i :: 0 <= i < |txs| ==> txs[i].hash in Hashes(txs)
  {
    assert forall i :: 0 <= i < |txs| ==> Hashes(txs)[i] == txs[i].hash;
  }

  lemma NothingPending(txs: seq<Tx>, receipts: Hash -> TxStatus)
    requires Received(txs, [], receipts)
    ensures forall i :: 0 <= i < |txs| ==> txs[i].status == receipts(txs[i].hash)
  {
  }

  lemma ConfirmedRows(txs: seq<Tx>, receipts: Hash -> TxStatus)
    requires forall i :: 0 <= i < |txs| ==> txs[i].status == receipts(txs[i].hash)
    ensures AllConfirmed(txs) <==> Hashes(txs) != [] && forall h :: h in Hashes(txs) ==> receipts(h) == CONFIRMED
  {
    AllPending(txs);
    assert |Hashes(txs)| == |txs|;
  }

  lemma DoubtEnds(w0: World, w: World, p: nat, answers: Answers, claimed: Option<Status>, b: bool) returns (w': World)
    requires Calm(answers) && Comes(w0, p, answers, w) && p < |w.procs| && w.procs[p].pc == At(ConfirmUnknown(claimed, b))
    requires InFlight(w.run.status) && (claimed.Some? ==> claimed.value == w.run.status)
    ensures Comes(w0, p, answers, w') && |w'.procs| == |w.procs| && Returned(w', p, b) && w'.history == w.history
    ensures w'.run.txs == w.run.txs && w'.run.status == RECONCILIATION_REQUIRED
  {
    hide Comes;
    if w.run.status == RECONCILIATION_REQUIRED {
      w' := Onward(w0, w, p, answers, At(Return(b)));
    } else {
      w' := Onward(w0, w, p, answers, Claim(w.run.status, RECONCILIATION_REQUIRED, Return(b), Catch(b)));
      w' := Written(w0, w', p, answers);
    }
  }

  lemma VerifyEnds(w0: World, w: World, p: nat, answers: Answers, b: bool) returns (w': World)
    requires Calm(answers) && Comes(w0, p, answers, w) && p < |w.procs| && w.procs[p].pc == At(ConfirmCurrent(b))
    requires InFlight(w.run.status)
    ensures Comes(w0, p, answers, w') && |w'.procs| == |w.procs| && Returned(w', p, b) && w'.history == w.history
    ensures w'.run.txs == w.run.txs
    ensures w'.run.status == if Good(answers, ConfirmChecks(b)) && AllConfirmed(w.run.txs) then COMPLETED else FAILED
  {
    hide Comes, AllConfirmed;
    if w.run.status == BROADCASTING {
      w' := Onward(w0, w, p, answers, Claim(BROADCASTING, CONFIRMING, ConfirmAfter(b), Catch(b)));
      w' := Written(w0, w', p, answers);
    } else {
      w' := Onward(w0, w, p, answers, At(ConfirmAfter(b)));
    }
    hide Next, Calm;
    w' := AfterEnds(w0, w', p, answers, b);
    w' := ChecksVerdict(w0, w', p, answers, b);
  }

  lemma AfterEnds(w0: World, w: World, p: nat, answers: Answers, b: bool) returns (w': World)
    requires Calm(answers) && Comes(w0, p, answers, w) && p < |w.procs| && w.procs[p].pc == At(ConfirmAfter(b))
    requires InFlight(w.run.status) && w.run.status != BROADCASTING
    ensures Comes(w0, p, answers, w') && w'.procs == w.procs[p := w.procs[p].(pc := At(ConfirmChecks(b)))]
    ensures w'.history == w.history && w'.run.txs == w.run.txs && w'.run.status == VERIFYING
  {
    hide Comes;
    if w.run.status == VERIFYING {
      w' := Onward(w0, w, p, answers, At(ConfirmChecks(b)));
    } else {
      w' := Onward(w0, w, p, answers, Claim(w.run.status, VERIFYING, ConfirmChecks(b), Catch(b)));
      w' := Written(w0, w', p, answers);
    }
  }

  lemma ChecksVerdict(w0: World, w: World, p: nat, answers: Answers, b: bool) returns (w': World)
    requires Calm(answers) && Comes(w0, p, answers, w) && p < |w.procs| && w.procs[p].pc == At(ConfirmChecks(b))
    ensures Comes(w0, p, answers, w') && |w'.procs| == |w.procs| && Returned(w', p, b) && w'.history == w.history
    ensures w'.run.txs == w.run.txs
    ensures w'.run.status == if Good(answers, ConfirmChecks(b)) && AllConfirmed(w.run.txs) then COMPLETED else FAILED
  {
    hide Comes, AllConfirmed;
    var verdict := if Good(answers, ConfirmChecks(b)) && AllConfirmed(w.run.txs) then COMPLETED else FAILED;
    w' := Onward(w0, w, p, answers, Claim(VERIFYING, verdict, Return(b), Catch(b)));
    w' := Written(w0, w', p, answers);
  }

  // ----- reconciliation, cancellation, and calls that find nothing to do -----

  /** A reconciliation of a run in flight: without transactions it needs reconciliation if it was broadcasting, and stays
      as it is else; when the chain cannot be reached it needs reconciliation; otherwise the receipts are asked for. */
  lemma ReconcileEnds(w: World, p: nat, answers: Answers) returns (w': World)
    requires Calm(answers) && p < |w.procs| && w.procs[p].pc == At(ReconcileStart) && InFlight(w.run.status)
    ensures Comes(w, p, answers, w') && |w'.procs| == |w.procs| && w'.run.txs == w.run.txs && w'.history == w.history
    ensures var reached := w.run.txs != [] && Good(answers, ReconcileTarget(w.run.status));
            && w'.procs[p].pc == At(if reached then ConfirmStart(Some(w.run.status), false) else Idle)
            && w'.run.status ==
               if (w.run.txs == [] && w.run.status == BROADCASTING) || (w.run.txs != [] && !reached) then RECONCILIATION_REQUIRED
               else w.run.status
  {
    var s := w.run.status;
    ComesItself(w, p, answers);
    hide Comes;
    w' := Onward(w, w, p, answers, At(ReconcileList(s)));
    if w.run.txs == [] {
      if s == BROADCASTING {
        w' := Onward(w, w', p, answers, Claim(s, RECONCILIATION_REQUIRED, Idle, Idle));
        w' := Written(w, w', p, answers);
      } else if s == RECONCILIATION_REQUIRED {
        w' := Onward(w, w', p, answers, Claim(s, s, Idle, Idle));
        w' := Onward(w, w', p, answers, At(Idle));
      } else {
        w' := Onward(w, w', p, answers, At(Idle));
      }
    } else {
      hide Next, Calm;
      w' := TargetEnds(w, w', p, answers);
    }
  }

  lemma TargetEnds(w0: World, w: World, p: nat, answers: Answers) returns (w': World)
    requires Calm(answers) && Comes(w0, p, answers, w) && p < |w.procs| && w.procs[p].pc == At(ReconcileList(w.run.status))
    requires InFlight(w.run.status) && w.run.txs != []
    ensures Comes(w0, p, answers, w') && |w'.procs| == |w.procs| && w'.run.txs == w.run.txs && w'.history == w.history
    ensures var reached := Good(answers, ReconcileTarget(w.run.status));
            && w'.procs[p].pc == At(if reached then ConfirmStart(Some(w.run.status), false) else Idle)
            && w'.run.status == if reached then w.run.status else RECONCILIATION_REQUIRED
  {
    var s := w.run.status;
    hide Comes;
    w' := Onward(w0, w, p, answers, At(ReconcileTarget(s)));
    if Good(answers, ReconcileTarget(s)) {
      w' := Onward(w0, w', p, answers, At(ConfirmStart(Some(s), false)));
    } else if s == RECONCILIATION_REQUIRED {
      w' := Onward(w0, w', p, answers, At(Idle));
    } else {
      w' := Onward(w0, w', p, answers, Claim(s, RECONCILIATION_REQUIRED, Idle, Idle));
      w' := Written(w0, w', p, answers);
    }
  }

  /** A cancellation takes hold of a run that is not funded yet, and of no other. */
  lemma CancelEnds(w: World, p: nat, answers: Answers) returns (w': World)
    requires Calm(answers) && p < |w.procs| && w.procs[p].pc == At(CancelStart)
    ensures Comes(w, p, answers, w') && |w'.procs| == |w.procs| && w'.procs[p].pc == At(Idle) && w'.history == w.history
    ensures if Early(w.run.status) && w.run.status != FUNDING then
              w'.run == w.run.(status := CANCELLED, events := w.run.events + [Event(w.run.status, CANCELLED)])
            else w'.run == w.run
  {
    var s := w.run.status;
    ComesItself(w, p, answers);
    hide Comes;
    if s == BROADCASTING || s == CONFIRMING || s == VERIFYING || s == COMPLETED {
      w' := Onward(w, w, p, answers, At(Idle));
    } else {
      w' := Onward(w, w, p, answers, Claim(s, CANCELLED, Idle, Idle));
      if Early(s) && s != FUNDING {
        w' := Written(w, w', p, answers);
      } else {
        w' := Onward(w, w', p, answers, At(Idle));
      }
    }
  }

  /** A preparation of a run that is prepared, or has ended well or been cancelled, changes nothing; of a run in flight it
      is a reconciliation. A broadcast likewise, but that a run which is ready and has lost its credential is FAILED. */
  lemma NothingToDo(w: World, p: nat, answers: Answers) returns (w': World)
    requires Calm(answers) && p < |w.procs|
    requires w.procs[p].pc == At(PrepareStart) || w.procs[p].pc == At(BroadcastStart)
    requires || InFlight(w.run.status) || w.run.status == COMPLETED || w.run.status == CANCELLED
             || (w.procs[p].pc == At(PrepareStart) && w.run.status == PREPARED)
             || (w.procs[p].pc == At(BroadcastStart) && w.run.status != PREPARED && w.run.status != FUNDING)
             || (w.procs[p].pc == At(BroadcastStart) && w.procs[p].live == None)
    ensures Comes(w, p, answers, w') && |w'.procs| == |w.procs| && w'.history == w.history && w'.run.txs == w.run.txs
    ensures w'.procs[p].pc == At(if InFlight(w.run.status) then ReconcileStart else Idle)
    ensures w'.run.status ==
            if w.procs[p].pc == At(BroadcastStart) && (w.run.status == PREPARED || w.run.status == FUNDING) then FAILED
            else w.run.status
  {
    ComesItself(w, p, answers);
    hide Comes;
    if InFlight(w.run.status) {
      w' := Onward(w, w, p, answers, At(ReconcileStart));
    } else if w.procs[p].pc == At(BroadcastStart) && (w.run.status == PREPARED || w.run.status == FUNDING) {
      w' := Onward(w, w, p, answers, Claim(w.run.status, FAILED, Idle, Idle));
      w' := Written(w, w', p, answers);
    } else {
      w' := Onward(w, w, p, answers, At(Idle));
    }
  }

  // ----- exceptions -----

  /** The operation awaited here throws, and nothing after it. */
  ghost predicate ThrowsAt(answers: Answers, at: Point) {
    answers(At(at)).throws && forall pc :: pc != At(at) ==> !answers(pc).throws && !answers(pc).late
  }

  /** Outside of any `try`: the exception goes to the queue, and the run stays as it is. */
  predicate Uncaught(at: Point) {
    at.PrepareStart? || at.PrepareChecks? || at.PrepareLatest? || at.PrepareAllocate? || at.PrepareCatch? || at.BroadcastStart?
    || at.BroadcastTarget? || at.BroadcastLookup? || at.ReconcileStart? || at.ReconcileList? || at.ReconcileTarget?
    || at.ReconcileCatch? || at.CancelStart?
  }

  /** Caught before the script has begun. */
  predicate CaughtEarly(at: Point) {
    at.PrepareCandidate? || at.PrepareSandbox? || at.PrepareSimulate? || at.BroadcastFund? || at.BroadcastSandbox?
  }

  /** Caught once the script has begun, in the broadcast or in a reconciliation. */
  predicate CaughtLate(at: Point, b: bool) {
    match at
    case BroadcastExecute(_) => b
    case BroadcastJournal(journal, artifacts, recorded, _, _) => b && recorded < |journal + artifacts|
    case ConfirmStart(_, b') => b' == b
    case ConfirmReceipts(pending, _, _, b') => b' == b && pending != []
    case ConfirmUnknown(_, b') => b' == b
    case ConfirmCurrent(b') => b' == b
    case ConfirmAfter(b') => b' == b
    case ConfirmChecks(b') => b' == b
    case _ => false
  }

  /** An exception outside of any `try` leaves the run as it is. */
  lemma UncaughtEnds(w: World, p: nat, at: Point, answers: Answers) returns (w': World)
    requires p < |w.procs| && w.procs[p].pc == At(at) && ThrowsAt(answers, at) && Uncaught(at)
    ensures Comes(w, p, answers, w') && w'.run == w.run && w'.history == w.history
    ensures w'.procs == w.procs[p := w.procs[p].(pc := At(Idle))]
  {
    ComesItself(w, p, answers);
    hide Comes;
    w' := Onward(w, w, p, answers, At(Idle));
  }

  /** An exception before the script has begun makes the run FAILED, and the script is not executed. */
  lemma CaughtEarlyEnds(w: World, p: nat, at: Point, answers: Answers) returns (w': World)
    requires p < |w.procs| && w.procs[p].pc == At(at) && ThrowsAt(answers, at) && CaughtEarly(at) && PointFits(at, w.run)
    ensures Comes(w, p, answers, w') && |w'.procs| == |w.procs| && w'.procs[p].pc == At(Idle)
    ensures w'.run.status == FAILED && w'.run.txs == w.run.txs && w'.history == w.history
  {
    ComesItself(w, p, answers);
    hide Comes;
    if at.BroadcastFund? {
      w' := Onward(w, w, p, answers, Claim(FUNDING, FAILED, Idle, Idle));
      w' := Written(w, w', p, answers);
    } else {
      w' := Onward(w, w, p, answers, At(if at.BroadcastSandbox? then BroadcastCatch(false) else PrepareCatch));
      hide Next;
      w' := FailEnds(w, w', p, answers);
    }
  }

  lemma FailEnds(w0: World, w: World, p: nat, answers: Answers) returns (w': World)
    requires Comes(w0, p, answers, w) && p < |w.procs| && Early(w.run.status)
    requires w.procs[p].pc == At(PrepareCatch) || w.procs[p].pc == At(BroadcastCatch(false))
    requires forall pc: Pc :: (pc.Claim? || pc == w.procs[p].pc) ==> !answers(pc).throws && !answers(pc).late
    ensures Comes(w0, p, answers, w') && |w'.procs| == |w.procs| && w'.procs[p].pc == At(Idle)
    ensures w'.run.status == FAILED && w'.run.txs == w.run.txs && w'.history == w.history
  {
    hide Comes;
    if w.procs[p].pc == At(PrepareCatch) {
      w' := Onward(w0, w, p, answers, Claim(w.run.status, FAILED, Idle, Idle));
      w' := Written(w0, w', p, answers);
    } else {
      w' := Onward(w0, w, p, answers, Claim(w.run.status, FAILED, BroadcastFinally, BroadcastFinally));
      w' := Written(w0, w', p, answers);
      w' := Further(w0, w', p, answers, Outcome(At(Idle), Destroy));
    }
  }

  lemma CatchEnds(w0: World, w: World, p: nat, answers: Answers) returns (w': World)
    requires Comes(w0, p, answers, w) && p < |w.procs| && w.procs[p].pc == At(BroadcastCatch(true)) && InFlight(w.run.status)
    requires forall pc: Pc :: (pc.Claim? || pc == At(BroadcastCatch(true))) ==> !answers(pc).throws && !answers(pc).late
    ensures Comes(w0, p, answers, w') && |w'.procs| == |w.procs| && w'.procs[p] == Process(None, At(Idle))
    ensures w'.run.status == RECONCILIATION_REQUIRED && w'.run.txs == w.run.txs && w'.history == w.history
  {
    hide Comes;
    var s := w.run.status;
    w' := Onward(w0, w, p, answers, Claim(s, RECONCILIATION_REQUIRED, BroadcastFinally, BroadcastFinally));
    if s == RECONCILIATION_REQUIRED {
      w' := Onward(w0, w', p, answers, At(BroadcastFinally));
    } else {
      w' := Written(w0, w', p, answers);
    }
    w' := Further(w0, w', p, answers, Outcome(At(Idle), Destroy));
  }

  /** An exception once the script has begun: the run needs reconciliation. The credential of a broadcast is destroyed. */
  lemma CaughtLateEnds(w: World, p: nat, at: Point, b: bool, answers: Answers) returns (w': World)
    requires p < |w.procs| && w.procs[p].pc == At(at) && ThrowsAt(answers, at) && CaughtLate(at, b) && PointFits(at, w.run)
    ensures Comes(w, p, answers, w') && |w'.procs| == |w.procs|
    ensures w'.procs[p] == Process(if b then None else w.procs[p].live, At(Idle))
    ensures w'.run.status == RECONCILIATION_REQUIRED && w'.run.txs == w.run.txs
    ensures w'.history == w.history + if at.BroadcastExecute? then [Executed(p, at.credential)] else []
  {
    ComesItself(w, p, answers);
    hide Comes;
    if at.BroadcastExecute? {
      w' := Further(w, w, p, answers, Outcome(At(BroadcastCatch(true)), Execute(at.credential)));
    } else {
      w' := Onward(w, w, p, answers, At(Catch(b)));
    }
    if b {
      hide Next;
      w' := CatchEnds(w, w', p, answers);
    } else {
      w' := ReconcileCatchEnds(w, w', p, answers);
    }
  }

  lemma ReconcileCatchEnds(w0: World, w: World, p: nat, answers: Answers) returns (w': World)
    requires Comes(w0, p, answers, w) && p < |w.procs| && w.procs[p].pc == At(ReconcileCatch) && InFlight(w.run.status)
    requires forall pc: Pc :: (pc.Claim? || pc == At(ReconcileCatch)) ==> !answers(pc).throws && !answers(pc).late
    ensures Comes(w0, p, answers, w') && w'.procs == w.procs[p := w.procs[p].(pc := At(Idle))]
    ensures w'.run.status == RECONCILIATION_REQUIRED && w'.run.txs == w.run.txs && w'.history == w.history
  {
    hide Comes;
    if w.run.status == RECONCILIATION_REQUIRED {
      w' := Onward(w0, w, p, answers, At(Idle));
    } else {
      w' := Onward(w0, w, p, answers, Claim(w.run.status, RECONCILIATION_REQUIRED, Idle, Idle));
      w' := Written(w0, w', p, answers);
    }
  }

  /** A receipt that is stored, but whose write throws after its effect, or whose contract cannot be looked up: its row has
      the status of the receipt, the rows of other transactions stay as they are, and the run needs reconciliation. */
  lemma ReceiptCaughtEnds(w: World, p: nat, answers: Answers) returns (w': World)
    requires p < |w.procs| && w.procs[p].pc.At? && w.procs[p].pc.point.ConfirmReceipts? && PointFits(w.procs[p].pc.point, w.run)
    requires w.procs[p].pc.point.pending != [] && Distinct(Hashes(w.run.txs))
    requires var c := answers(w.procs[p].pc); !c.throws && (c.late || !c.good)
    requires forall pc :: pc != w.procs[p].pc ==> !answers(pc).throws && !answers(pc).late
    ensures Comes(w, p, answers, w') && |w'.procs| == |w.procs| && w'.history == w.history
    ensures var at := w.procs[p].pc.point;
            && w'.procs[p] == Process(if at.broadcasting then None else w.procs[p].live, At(Idle))
            && w'.run.status == RECONCILIATION_REQUIRED
            && (forall i :: 0 <= i < |w'.run.txs| ==>
                  if w'.run.txs[i].hash == at.pending[0] then w'.run.txs[i].status == answers(w.procs[p].pc).receipt
                  else i < |w.run.txs| && w'.run.txs[i] == w.run.txs[i])
  {
    ComesItself(w, p, answers);
    hide Comes;
    var at, c := w.procs[p].pc.point, answers(w.procs[p].pc);
    var tx := Tx(at.pending[0], 0, c.receipt, None, None);
    w' := Further(w, w, p, answers, Outcome(At(Catch(at.broadcasting)), Store(tx)));
    RecordStatus(w.run.txs, tx);
    hide Record, Hashes, Distinct;
    if at.broadcasting {
      w' := CatchEnds(w, w', p, answers);
    } else {
      w' := ReconcileCatchEnds(w, w', p, answers);
    }
  }

  // ----- a write of the status that fails -----

  /** The write of this claim fails, before or after its effect, and nothing else. */
  ghost predicate FailsAt(answers: Answers, claim: Pc) {
    (answers(claim).throws || answers(claim).late) && forall pc :: pc != claim ==> !answers(pc).throws && !answers(pc).late
  }

  /** What a `catch` makes of a status, if the table lets it. */
  function Caught(status: Status, to: Status): Status {
    if Allowed(status, to) then to else status
  }

  /** A call in which the write of a status fails ends with the status that is stored then, or with what the `catch` around
      the write makes of it: FAILED before the script has begun, and a need for reconciliation afterwards. A broadcast that
      has got to its `try` destroys its credential. */
  lemma WriteFailsEnds(w: World, p: nat, answers: Answers) returns (w': World)
    requires p < |w.procs| && w.procs[p].pc.Claim? && FailsAt(answers, w.procs[p].pc)
    requires Allowed(w.procs[p].pc.from, w.procs[p].pc.to)
    requires var onError := w.procs[p].pc.onError;
             onError.Idle? || onError.BroadcastFinally? || onError.PrepareCatch? || onError.BroadcastCatch? || onError.ReconcileCatch?
    ensures Comes(w, p, answers, w') && |w'.procs| == |w.procs| && w'.run.txs == w.run.txs && w'.history == w.history
    ensures var pc := w.procs[p].pc;
            && w'.procs[p] == Process(if pc.onError.BroadcastFinally? || pc.onError.BroadcastCatch? then None else w.procs[p].live,
                                      At(Idle))
            && var stored := if answers(pc).throws then w.run.status else pc.to;
               w'.run.status ==
                 (match pc.onError
                  case PrepareCatch => Caught(stored, FAILED)
                  case BroadcastCatch(began) => Caught(stored, if began then RECONCILIATION_REQUIRED else FAILED)
                  case ReconcileCatch => Caught(stored, RECONCILIATION_REQUIRED)
                  case _ => stored)
  {
    ComesItself(w, p, answers);
    hide Comes;
    var pc := w.procs[p].pc;
    if answers(pc).throws {
      w' := Onward(w, w, p, answers, At(pc.onError));
    } else {
      w' := Further(w, w, p, answers, Outcome(At(pc.onError), Claimed(pc.from, pc.to)));
    }
    match pc.onError
    case PrepareCatch => w' := CatchWrites(w, w', p, answers, FAILED, Idle);
    case ReconcileCatch =>
      if w'.run.status == RECONCILIATION_REQUIRED || w'.run.status == COMPLETED {
        w' := Onward(w, w', p, answers, At(Idle));
      } else {
        w' := CatchWrites(w, w', p, answers, RECONCILIATION_REQUIRED, Idle);
      }
    case BroadcastCatch(began) =>
      w' := CatchWrites(w, w', p, answers, if began then RECONCILIATION_REQUIRED else FAILED, BroadcastFinally);
      w' := Destroyed(w, w', p, answers);
    case BroadcastFinally => w' := Destroyed(w, w', p, answers);
    case Idle =>
  }

  /** The write of a `catch`, and that it is refused off the table. */
  lemma CatchWrites(w0: World, w: World, p: nat, answers: Answers, to: Status, next: Point) returns (w': World)
    requires Comes(w0, p, answers, w) && p < |w.procs|
    requires Next(w.run, w.procs[p].live, w.procs[p].pc, answers(w.procs[p].pc)) ==
             Outcome(Claim(w.run.status, to, next, next), Nothing)
    requires !answers(Claim(w.run.status, to, next, next)).throws && !answers(Claim(w.run.status, to, next, next)).late
    ensures Comes(w0, p, answers, w') && w'.procs == w.procs[p := w.procs[p].(pc := At(next))]
    ensures w'.run.status == Caught(w.run.status, to) && w'.run.txs == w.run.txs && w'.history == w.history
  {
    hide Comes;
    w' := Onward(w0, w, p, answers, Claim(w.run.status, to, next, next));
    if Allowed(w.run.status, to) {
      w' := Written(w0, w', p, answers);
    } else {
      w' := Onward(w0, w', p, answers, At(next));
    }
  }
}
