/** The stored side of a deployment: the transition table, a run with its event log and transactions, and the
    repository that updates it (packages/shared/src/deployment-transitions.ts, packages/db/src/deployment-repository.ts). */
module DeploymentRun {
  import opened Options
  import opened Sequences

  datatype Status =
    | QUEUED | CHECKING_ELIGIBILITY | PREPARING | SIMULATING | PREPARED | FUNDING | BROADCASTING
    | CONFIRMING | VERIFYING | COMPLETED | FAILED | RECONCILIATION_REQUIRED | CANCELLED

  predicate Allowed(from: Status, to: Status) {
    match from
    case QUEUED => to in {CHECKING_ELIGIBILITY, FAILED, CANCELLED}
    case CHECKING_ELIGIBILITY => to in {PREPARING, FAILED, CANCELLED}
    case PREPARING => to in {SIMULATING, FAILED, CANCELLED}
    case SIMULATING => to in {PREPARED, FAILED, CANCELLED}
    case PREPARED => to in {FUNDING, FAILED, CANCELLED}
    case FUNDING => to in {BROADCASTING, FAILED, RECONCILIATION_REQUIRED}
    case BROADCASTING => to in {CONFIRMING, FAILED, RECONCILIATION_REQUIRED}
    case CONFIRMING => to in {VERIFYING, FAILED, RECONCILIATION_REQUIRED}
    case VERIFYING => to in {COMPLETED, FAILED, RECONCILIATION_REQUIRED}
    case RECONCILIATION_REQUIRED => to in {CONFIRMING, VERIFYING, COMPLETED, FAILED}
    case _ => false
  }

  /** Before the broadcast boundary. */
  predicate Early(s: Status) {
    s in {QUEUED, CHECKING_ELIGIBILITY, PREPARING, SIMULATING, PREPARED, FUNDING}
  }

  type Hash = string

  datatype TxStatus = SUBMITTED | PENDING | CONFIRMED | REVERTED | UNKNOWN

  datatype Tx = Tx(hash: Hash, sequence: nat, status: TxStatus, nonce: Option<nat>, contractAddress: Option<string>)

  /** One row of the status log: the status the caller claimed, and the one it asked for. */
  datatype Event = Event(from: Status, to: Status)

  datatype Run = Run(status: Status, events: seq<Event>, txs: seq<Tx>)

  // ----- transitions -----

  /** The stored status is overwritten; only the claimed one is checked. */
  function ApplyTransition(run: Run, from: Status, to: Status): Run {
    run.(status := to, events := run.events + [Event(from, to)])
  }

  predicate TruthfulAt(events: seq<Event>, i: nat)
    requires i < |events|
  {
    && events[i].from == (if i == 0 then QUEUED else events[i - 1].to)
    && Allowed(events[i].from, events[i].to)
  }

  /** A log in which every claim matches the status left by the row before, along allowed edges. */
  predicate Truthful(events: seq<Event>) {
    forall i :: 0 <= i < |events| ==> TruthfulAt(events, i)
  }

  function LastStatus(events: seq<Event>): Status {
    if events == [] then QUEUED else events[|events| - 1].to
  }

  /** The stored status is the end of a truthful log. */
  predicate Consistent(run: Run) {
    Truthful(run.events) && run.status == LastStatus(run.events)
  }

  /** A truthful log never returns across the broadcast boundary. */
  lemma {:induction false} NoReturn(events: seq<Event>, i: nat, j: nat)
    requires Truthful(events) && i <= j < |events| && !Early(events[i].to)
    ensures !Early(events[j].to)
    decreases j
  {
    if i < j {
      NoReturn(events, i, j - 1);
      assert TruthfulAt(events, j);
    }
  }

  /** Appending a claim keeps the log truthful exactly when the claim is the stored status and the edge is allowed. */
  lemma ClaimConsistent(run: Run, from: Status, to: Status)
    requires Consistent(run)
    ensures Consistent(ApplyTransition(run, from, to)) <==> from == run.status && Allowed(from, to)
  {
    var after, n := ApplyTransition(run, from, to).events, |run.events|;
    assert after[n] == Event(from, to);
    forall i | 0 <= i < n
      ensures TruthfulAt(after, i)
    {
      assert TruthfulAt(run.events, i);
    }
    assert Truthful(after) <==> TruthfulAt(after, n);
    assert LastStatus(run.events) == if n == 0 then QUEUED else after[n - 1].to;
  }

  // ----- transactions: one row per hash -----

  function Hashes(txs: seq<Tx>): seq<Hash> {
    seq(|txs|, i requires 0 <= i < |txs| => txs[i].hash)
  }

  function Coalesce<T>(a: Option<T>, b: Option<T>): Option<T> {
    if a.Some? then a else b
  }

  function Updated(existing: Tx, tx: Tx): Tx {
    existing.(status := tx.status, nonce := Coalesce(tx.nonce, existing.nonce),
              contractAddress := Coalesce(tx.contractAddress, existing.contractAddress))
  }

  /** Updates the row with this hash, or adds one. */
  function Record(txs: seq<Tx>, tx: Tx): seq<Tx> {
    if txs == [] then [tx]
    else if txs[0].hash == tx.hash then [Updated(txs[0], tx)] + txs[1..]
    else [txs[0]] + Record(txs[1..], tx)
  }

  lemma HashesFront(txs: seq<Tx>)
    requires txs != []
    ensures Hashes(txs) == [txs[0].hash] + Hashes(txs[1..])
  {
  }

  lemma {:induction false} RecordedHashes(txs: seq<Tx>, tx: Tx)
    ensures Hashes(Record(txs, tx)) == if tx.hash in Hashes(txs) then Hashes(txs) else Hashes(txs) + [tx.hash]
  {
    if txs == [] {
      assert Hashes([tx]) == [tx.hash];
    } else {
      HashesFront(txs);
      HashesFront(Record(txs, tx));
      if txs[0].hash == tx.hash {
        assert Record(txs, tx)[1..] == txs[1..];
      } else {
        RecordedHashes(txs[1..], tx);
        assert Record(txs, tx)[1..] == Record(txs[1..], tx);
        hide Hashes;
      }
    }
  }

  /** Recording loses no row, changes no hash and adds at most one row. */
  lemma RecordHashes(txs: seq<Tx>, tx: Tx)
    ensures Hashes(Record(txs, tx)) == if tx.hash in Hashes(txs) then Hashes(txs) else Hashes(txs) + [tx.hash]
    ensures Distinct(Hashes(txs)) ==> Distinct(Hashes(Record(txs, tx)))
  {
    RecordedHashes(txs, tx);
    hide Hashes, Record;
  }

  /** The row of the recorded hash gets the new status; every other row is unchanged. */
  lemma {:induction false} RecordStatus(txs: seq<Tx>, tx: Tx)
    requires Distinct(Hashes(txs))
    ensures |Record(txs, tx)| >= |txs|
    ensures forall i :: 0 <= i < |Record(txs, tx)| ==>
              if Record(txs, tx)[i].hash == tx.hash then Record(txs, tx)[i].status == tx.status
              else i < |txs| && Record(txs, tx)[i] == txs[i]
  {
    if txs != [] {
      assert Hashes(txs) == [txs[0].hash] + Hashes(txs[1..]);
      assert forall i :: 0 <= i < |txs| - 1 ==> Hashes(txs[1..])[i] == Hashes(txs)[i + 1];
      if txs[0].hash == tx.hash {
        forall i | 1 <= i < |txs|
          ensures txs[i].hash != tx.hash
        {
          assert Hashes(txs)[i] != Hashes(txs)[0];
        }
      } else {
        RecordStatus(txs[1..], tx);
      }
    }
  }

  /** The row of the recorded hash keeps its place and its sequence number, and what is not given of the rest. */
  predicate Keeps(row: Tx, tx: Tx, existing: Tx) {
    && row.hash == existing.hash && row.sequence == existing.sequence && row.status == tx.status
    && row.nonce == (if tx.nonce == None then existing.nonce else tx.nonce)
    && row.contractAddress == (if tx.contractAddress == None then existing.contractAddress else tx.contractAddress)
  }

  /** `i` is the place of the first row with the hash. */
  lemma {:induction false} RecordKeeps(txs: seq<Tx>, tx: Tx) returns (i: nat)
    ensures i <= |txs| && forall j :: 0 <= j < i ==> txs[j].hash != tx.hash
    ensures i == |txs| ==> Record(txs, tx) == txs + [tx]
    ensures i < |txs| ==> txs[i].hash == tx.hash && exists row :: Keeps(row, tx, txs[i]) && Record(txs, tx) == txs[i := row]
  {
    if txs == [] {
      i := 0;
    } else if txs[0].hash == tx.hash {
      i := 0;
      assert Keeps(Updated(txs[0], tx), tx, txs[0]);
      assert Record(txs, tx) == txs[0 := Updated(txs[0], tx)];
    } else {
      hide Keeps;
      var k := RecordKeeps(txs[1..], tx);
      i := k + 1;
      if k == |txs[1..]| {
        assert [txs[0]] + (txs[1..] + [tx]) == txs + [tx];
      } else {
        var row :| Keeps(row, tx, txs[1..][k]) && Record(txs[1..], tx) == txs[1..][k := row];
        assert [txs[0]] + txs[1..][k := row] == txs[i := row];
      }
    }
  }

  /** Passing over a row with another hash. */
  lemma RecordSkips(txs: seq<Tx>, i: nat, tx: Tx)
    requires i < |txs| && txs[i].hash != tx.hash
    ensures txs[..i] + Record(txs[i..], tx) == txs[..i + 1] + Record(txs[i + 1..], tx)
  {
    assert txs[i..][1..] == txs[i + 1..];
    assert txs[..i + 1] == txs[..i] + [txs[i]];
  }

  // ----- the repository -----

  class DeploymentRepository {
    var status: Status
    var events: seq<Event>
    var txs: seq<Tx>

    ghost function Value(): Run
      reads this
    {
      Run(status, events, txs)
    }

    constructor ()
      ensures Value() == Run(QUEUED, [], [])
    {
      status, events, txs := QUEUED, [], [];
    }

    /** Refuses an edge that is not in the table; otherwise overwrites whatever status is stored. */
    method Transition(from: Status, to: Status) returns (accepted: bool)
      modifies this
      ensures accepted == Allowed(from, to)
      ensures Value() == if accepted then ApplyTransition(old(Value()), from, to) else old(Value())
    {
      accepted := Allowed(from, to);
      if accepted {
        status := to;
        events := events + [Event(from, to)];
      }
    }

    method RecordTransaction(tx: Tx)
      modifies this`txs
      ensures Value() == old(Value()).(txs := Record(old(txs), tx))
    {
      var i := 0;
      while i < |txs| && txs[i].hash != tx.hash
        invariant i <= |txs| && txs == old(txs)
        invariant Record(txs, tx) == txs[..i] + Record(txs[i..], tx)
      {
        RecordSkips(txs, i, tx);
        i := i + 1;
      }
      if i < |txs| {
        assert txs[i := Updated(txs[i], tx)] == txs[..i] + ([Updated(txs[i], tx)] + txs[i..][1..]);
        txs := txs[i := Updated(txs[i], tx)];
      } else {
        assert txs[..i] == txs;
        txs := txs + [tx];
      }
    }
  }
}
