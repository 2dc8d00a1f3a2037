/** The deployment processors as a protocol (apps/worker/src/deployment-processor.ts, apps/api/src/deployment-service.ts).
    Any number of processes work on one run. A processor call is a sequence of steps, one for every awaited operation;
    between two steps of a process any other process may act, and a process may crash. What an operation returns, and
    whether it throws, is the choice that comes with the step. */
module DeploymentProtocol {
  import opened DeploymentRun
  import opened Options

  type Credential = nat

  /** The next awaited operation of a processor. The confirmation steps are shared by broadcast and reconciliation. */
  datatype Point =
    | Idle
    | PrepareStart | PrepareChecks | PrepareLatest | PrepareAllocate | PrepareCandidate | PrepareIssue
    | PrepareSandbox | PrepareSimulate | PrepareCatch
    | BroadcastStart
    | BroadcastTarget(status: Status, credential: Credential)
    | BroadcastFund(credential: Credential)
    | BroadcastLookup(credential: Credential)
    | BroadcastSandbox(credential: Credential)
    | BroadcastExecute(credential: Credential)
    | BroadcastJournal(journal: seq<Hash>, artifacts: seq<Hash>, recorded: nat, timedOut: bool, succeeded: bool)
    | BroadcastDecide(journal: seq<Hash>, artifacts: seq<Hash>, timedOut: bool, succeeded: bool)
    | BroadcastCatch(began: bool)
    | BroadcastFinally
    | ReconcileStart
    | ReconcileList(status: Status)
    | ReconcileTarget(status: Status)
    | ReconcileCatch
    | ConfirmStart(claimed: Option<Status>, broadcasting: bool)
    | ConfirmReceipts(pending: seq<Hash>, unknown: bool, claimed: Option<Status>, broadcasting: bool)
    | ConfirmUnknown(claimed: Option<Status>, broadcasting: bool)
    | ConfirmCurrent(broadcasting: bool)
    | ConfirmAfter(broadcasting: bool)
    | ConfirmChecks(broadcasting: bool)
    | CancelStart

  /** Where a process is. A `Claim` is a call of `deployments.transition`; it continues at `next`, or at `onError` when
      the edge is refused or the database throws. */
  datatype Pc =
    | At(point: Point)
    | Claim(from: Status, to: Status, next: Point, onError: Point)

  /** What the awaited operation does: it throws, a write throws late, when it has been made, or the operation answers
      favourably or not; an execution also yields the hashes of the proxy journal and of the artifacts, a receipt its
      status. */
  datatype Choice = Choice(throws: bool, late: bool, good: bool, timedOut: bool, journal: seq<Hash>, artifacts: seq<Hash>,
                           receipt: TxStatus)

  /** What a step does to the world besides moving the process on. */
  datatype Effect =
    | Nothing
    | Claimed(from: Status, to: Status)
    | Issue
    | Destroy
    | Execute(credential: Credential)
    | Store(tx: Tx)

  datatype Outcome = Outcome(pc: Pc, effect: Effect)

  function Go(point: Point): Outcome {
    Outcome(At(point), Nothing)
  }

  function Try(from: Status, to: Status, next: Point, onError: Point): Outcome {
    Outcome(Claim(from, to, next, onError), Nothing)
  }

  /** `fail`: a refused or failed write is only logged. */
  function Fail(from: Status, next: Point): Outcome {
    Try(from, FAILED, next, next)
  }

  function NextClaim(pc: Pc, c: Choice): Outcome
    requires pc.Claim?
  {
    if c.throws || !Allowed(pc.from, pc.to) then Go(pc.onError)
    else Outcome(At(if c.late then pc.onError else pc.next), Claimed(pc.from, pc.to))
  }

  function NextPrepare(run: Run, at: Point, c: Choice): Outcome {
    match at
    case PrepareStart =>
      if c.throws then Go(Idle)
      else
        (match run.status
         case PREPARED | COMPLETED | CANCELLED => Go(Idle)
         case BROADCASTING | CONFIRMING | VERIFYING | RECONCILIATION_REQUIRED => Go(ReconcileStart)
         case QUEUED => Try(QUEUED, CHECKING_ELIGIBILITY, PrepareChecks, Idle)
         case _ => Go(PrepareChecks))
    case PrepareChecks =>
      if c.throws then Go(Idle) else if c.good then Go(PrepareLatest) else Go(PrepareCatch)
    case PrepareLatest =>
      if c.throws then Go(Idle)
      else if run.status == CHECKING_ELIGIBILITY then Try(CHECKING_ELIGIBILITY, PREPARING, PrepareAllocate, Idle)
      else Go(PrepareAllocate)
    case PrepareAllocate =>
      if c.throws then Go(Idle) else Go(PrepareCandidate)
    case PrepareCandidate =>
      if c.throws then Go(PrepareCatch) else if c.good then Go(PrepareIssue) else Fail(PREPARING, Idle)
    case PrepareIssue =>
      Outcome(At(PrepareSandbox), Issue)
    case PrepareSandbox =>
      if c.throws then Go(PrepareCatch) else Try(PREPARING, SIMULATING, PrepareSimulate, PrepareCatch)
    case PrepareSimulate =>
      if c.throws then Go(PrepareCatch)
      else if c.good then Try(SIMULATING, PREPARED, Idle, PrepareCatch)
      else Fail(SIMULATING, Idle)
    case PrepareCatch =>
      if c.throws then Go(Idle) else Fail(run.status, Idle)
    case _ => Go(at)
  }

  function NextBroadcast(run: Run, live: Option<Credential>, at: Point, c: Choice): Outcome {
    match at
    case BroadcastStart =>
      if c.throws then Go(Idle)
      else
        (match run.status
         case BROADCASTING | CONFIRMING | VERIFYING | RECONCILIATION_REQUIRED => Go(ReconcileStart)
         case PREPARED | FUNDING =>
           if live.None? then Fail(run.status, Idle) else Go(BroadcastTarget(run.status, live.value))
         case _ => Go(Idle))
    case BroadcastTarget(status, credential) =>
      if c.throws then Go(Idle)
      else if status == PREPARED then Try(PREPARED, FUNDING, BroadcastFund(credential), Idle)
      else Go(BroadcastFund(credential))
    case BroadcastFund(credential) =>
      if c.throws then Fail(FUNDING, Idle) else Go(BroadcastLookup(credential))
    case BroadcastLookup(credential) =>
      if c.throws then Go(Idle) else if c.good then Go(BroadcastSandbox(credential)) else Fail(FUNDING, Idle)
    case BroadcastSandbox(credential) =>
      if c.throws then Go(BroadcastCatch(false))
      else Try(FUNDING, BROADCASTING, BroadcastExecute(credential), BroadcastCatch(false))
    case BroadcastExecute(credential) =>
      Outcome(At(if c.throws then BroadcastCatch(true)
                 else BroadcastJournal(c.journal, c.artifacts, 0, c.timedOut, c.good)),
              Execute(credential))
    case BroadcastJournal(journal, artifacts, recorded, timedOut, succeeded) =>
      var all := journal + artifacts;
      if recorded >= |all| then Go(BroadcastDecide(journal, artifacts, timedOut, succeeded))
      else if c.throws then Go(BroadcastCatch(true))
      else
        var sequence := if recorded < |journal| then recorded + 1 else recorded - |journal| + 1;
        Outcome(At(if c.late then BroadcastCatch(true)
                   else BroadcastJournal(journal, artifacts, recorded + 1, timedOut, succeeded)),
                Store(Tx(all[recorded], sequence, SUBMITTED, None, None)))
    case BroadcastDecide(journal, artifacts, timedOut, succeeded) =>
      if timedOut then Try(BROADCASTING, RECONCILIATION_REQUIRED, BroadcastFinally, BroadcastCatch(true))
      else if !succeeded && journal == [] && artifacts == [] then Fail(BROADCASTING, BroadcastFinally)
      else Try(BROADCASTING, CONFIRMING, ConfirmStart(None, true), BroadcastCatch(true))
    case BroadcastCatch(began) =>
      if c.throws then Go(BroadcastFinally)
      else if began then Try(run.status, RECONCILIATION_REQUIRED, BroadcastFinally, BroadcastFinally)
      else Fail(run.status, BroadcastFinally)
    case BroadcastFinally =>
      Outcome(At(Idle), Destroy)
    case _ => Go(at)
  }

  function NextReconcile(run: Run, at: Point, c: Choice): Outcome {
    match at
    case ReconcileStart =>
      if c.throws then Go(Idle) else Go(ReconcileList(run.status))
    case ReconcileList(status) =>
      if c.throws then Go(Idle)
      else if run.txs != [] then Go(ReconcileTarget(status))
      else if status == BROADCASTING || status == RECONCILIATION_REQUIRED then
        Try(status, RECONCILIATION_REQUIRED, Idle, Idle)
      else Go(Idle)
    case ReconcileTarget(status) =>
      if c.throws then Go(Idle)
      else if c.good then Go(ConfirmStart(Some(status), false))
      else if status != RECONCILIATION_REQUIRED then Try(status, RECONCILIATION_REQUIRED, Idle, Idle)
      else Go(Idle)
    case ReconcileCatch =>
      if c.throws || run.status == RECONCILIATION_REQUIRED || run.status == COMPLETED then Go(Idle)
      else Try(run.status, RECONCILIATION_REQUIRED, Idle, Idle)
    case CancelStart =>
      if c.throws then Go(Idle)
      else
        (match run.status
         case BROADCASTING | CONFIRMING | VERIFYING | COMPLETED => Go(Idle)
         case _ => Try(run.status, CANCELLED, Idle, Idle))
    case _ => Go(at)
  }

  /** Where `confirmAndVerify` returns to, and where an exception in it is caught. */
  function Return(broadcasting: bool): Point {
    if broadcasting then BroadcastFinally else Idle
  }

  function Catch(broadcasting: bool): Point {
    if broadcasting then BroadcastCatch(true) else ReconcileCatch
  }

  predicate AllConfirmed(txs: seq<Tx>) {
    txs != [] && forall i :: 0 <= i < |txs| ==> txs[i].status == CONFIRMED
  }

  function NextConfirm(run: Run, at: Point, c: Choice): Outcome {
    match at
    case ConfirmStart(claimed, b) =>
      if c.throws then Go(Catch(b)) else Go(ConfirmReceipts(Hashes(run.txs), false, claimed, b))
    case ConfirmReceipts(pending, unknown, claimed, b) =>
      if pending == [] then
        if unknown then Go(ConfirmUnknown(claimed, b)) else Go(ConfirmCurrent(b))
      else if c.throws then Go(Catch(b))
      else
        var unknown' := unknown || c.receipt == UNKNOWN || c.receipt == PENDING;
        Outcome(At(if c.late || !c.good then Catch(b) else ConfirmReceipts(pending[1..], unknown', claimed, b)),
                Store(Tx(pending[0], 0, c.receipt, None, None)))
    case ConfirmUnknown(claimed, b) =>
      if c.throws then Go(Catch(b))
      else if run.status == RECONCILIATION_REQUIRED then Go(Return(b))
      else Try(if claimed.Some? then claimed.value else run.status, RECONCILIATION_REQUIRED, Return(b), Catch(b))
    case ConfirmCurrent(b) =>
      if c.throws then Go(Catch(b))
      else if run.status == BROADCASTING then Try(BROADCASTING, CONFIRMING, ConfirmAfter(b), Catch(b))
      else Go(ConfirmAfter(b))
    case ConfirmAfter(b) =>
      if c.throws then Go(Catch(b))
      else if run.status == CONFIRMING || run.status == RECONCILIATION_REQUIRED then
        Try(run.status, VERIFYING, ConfirmChecks(b), Catch(b))
      else Go(ConfirmChecks(b))
    case ConfirmChecks(b) =>
      if c.throws then Go(Catch(b))
      else Try(VERIFYING, if c.good && AllConfirmed(run.txs) then COMPLETED else FAILED, Return(b), Catch(b))
    case _ => Go(at)
  }

  function NextAt(run: Run, live: Option<Credential>, at: Point, c: Choice): Outcome {
    match at
    case Idle => Go(Idle)
    case PrepareStart | PrepareChecks | PrepareLatest | PrepareAllocate | PrepareCandidate | PrepareIssue
         | PrepareSandbox | PrepareSimulate | PrepareCatch => NextPrepare(run, at, c)
    case ReconcileStart | ReconcileList(_) | ReconcileTarget(_) | ReconcileCatch | CancelStart =>
      NextReconcile(run, at, c)
    case ConfirmStart(_, _) | ConfirmReceipts(_, _, _, _) | ConfirmUnknown(_, _) | ConfirmCurrent(_)
         | ConfirmAfter(_) | ConfirmChecks(_) => NextConfirm(run, at, c)
    case _ => NextBroadcast(run, live, at, c)
  }

  function Next(run: Run, live: Option<Credential>, pc: Pc, c: Choice): Outcome {
    if pc.At? then NextAt(run, live, pc.point, c) else NextClaim(pc, c)
  }

  // ----- the world -----

  /** `live` is the process's entry for this run in its map of live credentials (`Credentials.LiveCredentials`): `Issue`
      is `StoreCredential`, `Destroy` is `DestroyCredential`, and a broadcast starts with `GetCredential`. */
  datatype Process = Process(live: Option<Credential>, pc: Pc)

  datatype Entry = Issued(p: nat, credential: Credential) | Executed(p: nat, credential: Credential)

  /** `issued` counts the credentials issued so far; `history` is the log of what was issued and executed. */
  datatype World = World(run: Run, procs: seq<Process>, issued: nat, history: seq<Entry>)

  datatype Job = Prepare | Broadcast | Reconcile | Cancel

  /** A job is delivered to an idle process, a process takes a step, or it crashes and loses its memory. Any job may be
      delivered at any time; the queue, which drops a job that it still holds, delivers fewer. */
  datatype Action = Deliver(p: nat, job: Job) | Step(p: nat, choice: Choice) | Crash(p: nat)

  function Entrance(job: Job): Point {
    match job
    case Prepare => PrepareStart
    case Broadcast => BroadcastStart
    case Reconcile => ReconcileStart
    case Cancel => CancelStart
  }

  /** The run after a step. */
  function After(run: Run, effect: Effect): Run {
    match effect
    case Claimed(from, to) => ApplyTransition(run, from, to)
    case Store(tx) => run.(txs := Record(run.txs, tx))
    case _ => run
  }

  function Perform(w: World, p: nat, o: Outcome): World
    requires p < |w.procs|
  {
    var moved := w.(procs := w.procs[p := w.procs[p].(pc := o.pc)]);
    match o.effect
    case Nothing => moved
    case Claimed(from, to) => moved.(run := ApplyTransition(w.run, from, to))
    case Issue =>
      moved.(procs := w.procs[p := Process(Some(w.issued), o.pc)], issued := w.issued + 1,
             history := w.history + [Issued(p, w.issued)])
    case Destroy => moved.(procs := w.procs[p := Process(None, o.pc)])
    case Execute(credential) => moved.(history := w.history + [Executed(p, credential)])
    case Store(tx) => moved.(run := w.run.(txs := Record(w.run.txs, tx)))
  }

  function Act(w: World, a: Action): World {
    if a.p >= |w.procs| then w
    else
      var proc := w.procs[a.p];
      match a
      case Deliver(p, job) =>
        if proc.pc == At(Idle) then w.(procs := w.procs[p := proc.(pc := At(Entrance(job)))]) else w
      case Step(p, choice) => Perform(w, p, Next(w.run, proc.live, proc.pc, choice))
      case Crash(p) => w.(procs := w.procs[p := Process(None, At(Idle))])
  }

  function Start(processes: nat): World {
    World(Run(QUEUED, [], []), seq(processes, i => Process(None, At(Idle))), 0, [])
  }

  function Execution(w: World, actions: seq<Action>): World {
    if actions == [] then w else Act(Execution(w, actions[..|actions| - 1]), actions[|actions| - 1])
  }
}
