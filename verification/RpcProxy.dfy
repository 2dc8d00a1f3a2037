/** The proxy between the deployment sandbox and the chain: a sliding-window rate limit and a write-ahead journal
    (packages/deployment/src/rpc-proxy.ts), and the hashes read back from that journal
    (packages/deployment/src/artifacts.ts:98-115). */
module RpcProxy {
  import opened Options
  import opened Text

  // ----- the sliding window -----

  const WINDOW := 60_000

  predicate Monotone(times: seq<int>) {
    forall i, j :: 0 <= i <= j < |times| ==> times[i] <= times[j]
  }

  /** How many of these times lie in the closed window. */
  function CountWithin(times: seq<int>, lo: int, hi: int): (n: nat)
    ensures n <= |times|
  {
    if times == [] then 0
    else
      var last := times[|times| - 1];
      CountWithin(times[..|times| - 1], lo, hi) + if lo <= last <= hi then 1 else 0
  }

  /** The queue after old hits have been shifted off its front. */
  function Purged(hits: seq<int>, now: int): seq<int> {
    if hits != [] && now - hits[0] > WINDOW then Purged(hits[1..], now) else hits
  }

  /** The queue, and every time at which a request was admitted. */
  datatype Gate = Gate(hits: seq<int>, admitted: seq<int>)

  function Pass(gate: Gate, now: int, limit: int): Gate {
    var hits := Purged(gate.hits, now);
    if |hits| >= limit then Gate(hits, gate.admitted) else Gate(hits + [now], gate.admitted + [now])
  }

  function PassAll(arrivals: seq<int>, limit: int): Gate {
    if arrivals == [] then Gate([], [])
    else Pass(PassAll(arrivals[..|arrivals| - 1], limit), arrivals[|arrivals| - 1], limit)
  }

  lemma {:induction false} CountSuffix(times: seq<int>, k: nat, lo: int, hi: int)
    requires k <= |times|
    requires forall i :: 0 <= i < k ==> times[i] < lo
    requires forall i :: k <= i < |times| ==> lo <= times[i] <= hi
    ensures CountWithin(times, lo, hi) == |times| - k
  {
    if k < |times| {
      CountSuffix(times[..|times| - 1], k, lo, hi);
    } else if times != [] {
      CountSuffix(times[..|times| - 1], k - 1, lo, hi);
    }
  }

  /** Once old hits are dropped, the queue is exactly what was admitted in the window that ends now. */
  lemma {:induction false} PurgedIsRecent(admitted: seq<int>, k: nat, now: int)
    requires Monotone(admitted + [now]) && k <= |admitted|
    requires forall i :: 0 <= i < k ==> admitted[i] < now - WINDOW
    ensures var n := CountWithin(admitted, now - WINDOW, now);
            Purged(admitted[k..], now) == admitted[|admitted| - n..]
    decreases |admitted| - k
  {
    assert forall i :: 0 <= i < |admitted| ==> (admitted + [now])[i] == admitted[i];
    if k < |admitted| && now - admitted[k] > WINDOW {
      assert admitted[k..][1..] == admitted[k + 1..];
      PurgedIsRecent(admitted, k + 1, now);
    } else {
      assert forall i :: k <= i < |admitted| ==> now - WINDOW <= admitted[i] <= (admitted + [now])[|admitted|];
      CountSuffix(admitted, k, now - WINDOW, now);
    }
  }

  /** The queue is the end of the admitted times, and what is missing is too old to matter. */
  ghost predicate QueueOf(gate: Gate, k: nat, now: int) {
    && k <= |gate.admitted| && gate.hits == gate.admitted[k..]
    && Monotone(gate.admitted)
    && (forall i :: 0 <= i < |gate.admitted| ==> gate.admitted[i] <= now)
    && (forall i :: 0 <= i < k ==> gate.admitted[i] < now - WINDOW)
  }

  lemma PurgeQueue(gate: Gate, k: nat, before: int, now: int) returns (k': nat)
    requires QueueOf(gate, k, before) && before <= now
    ensures QueueOf(gate.(hits := Purged(gate.hits, now)), k', now)
    ensures |gate.admitted| - k' == CountWithin(gate.admitted, now - WINDOW, now)
  {
    assert Monotone(gate.admitted + [now]);
    PurgedIsRecent(gate.admitted, k, now);
    k' := |gate.admitted| - CountWithin(gate.admitted, now - WINDOW, now);
    PurgedIsOld(gate.admitted, k, now);
    hide Purged, CountWithin;
  }

  lemma Admit(gate: Gate, k: nat, now: int)
    requires QueueOf(gate, k, now)
    ensures QueueOf(Gate(gate.hits + [now], gate.admitted + [now]), k, now)
  {
    assert (gate.admitted + [now])[k..] == gate.admitted[k..] + [now];
  }

  lemma PassKeepsQueue(gate: Gate, k: nat, before: int, now: int, limit: int) returns (k': nat)
    requires QueueOf(gate, k, before) && before <= now
    ensures QueueOf(Pass(gate, now, limit), k', now)
    ensures |Purged(gate.hits, now)| == CountWithin(gate.admitted, now - WINDOW, now)
  {
    k' := PurgeQueue(gate, k, before, now);
    var purged := gate.(hits := Purged(gate.hits, now));
    assert |purged.hits| == |purged.admitted| - k';
    hide QueueOf, Purged, CountWithin;
    Admit(purged, k', now);
  }

  lemma {:induction false} PurgedIsOld(admitted: seq<int>, k: nat, now: int)
    requires k <= |admitted| && forall i :: 0 <= i < k ==> admitted[i] < now - WINDOW
    ensures |Purged(admitted[k..], now)| <= |admitted|
    ensures forall i :: 0 <= i < |admitted| - |Purged(admitted[k..], now)| ==> admitted[i] < now - WINDOW
    decreases |admitted| - k
  {
    if k < |admitted| && now - admitted[k] > WINDOW {
      assert admitted[k..][1..] == admitted[k + 1..];
      PurgedIsOld(admitted, k + 1, now);
    }
  }

  lemma {:induction false} QueueInvariant(arrivals: seq<int>, limit: int) returns (k: nat)
    requires Monotone(arrivals) && arrivals != []
    ensures QueueOf(PassAll(arrivals, limit), k, arrivals[|arrivals| - 1])
  {
    var before, now := arrivals[..|arrivals| - 1], arrivals[|arrivals| - 1];
    if before == [] {
      k := PassKeepsQueue(Gate([], []), 0, now, now, limit);
    } else {
      k := QueueInvariant(before, limit);
      k := PassKeepsQueue(PassAll(before, limit), k, before[|before| - 1], now, limit);
    }
  }

  /** With a clock that never goes back, a request is refused exactly when the closed window that ends at it already
      holds as many admitted requests as the limit allows. */
  lemma RefusedExactlyWhenFull(arrivals: seq<int>, now: int, limit: int)
    requires Monotone(arrivals + [now])
    ensures var before := PassAll(arrivals, limit).admitted;
            PassAll(arrivals + [now], limit).admitted ==
            if CountWithin(before, now - 60_000, now) >= limit then before else before + [now]
  {
    var all := arrivals + [now];
    assert all[..|all| - 1] == arrivals && all[|arrivals|] == now;
    assert Monotone(arrivals) by {
      assert forall i :: 0 <= i < |arrivals| ==> all[i] == arrivals[i];
    }
    var gate := PassAll(arrivals, limit);
    if arrivals == [] {
      var k := PassKeepsQueue(gate, 0, now, now, limit);
    } else {
      var k := QueueInvariant(arrivals, limit);
      assert all[|arrivals| - 1] <= all[|arrivals|];
      k := PassKeepsQueue(gate, k, arrivals[|arrivals| - 1], now, limit);
    }
  }

  lemma {:induction false} CountNested(times: seq<int>, lo: int, hi: int, lo': int, hi': int)
    requires lo' <= lo && forall i :: 0 <= i < |times| ==> times[i] <= hi'
    ensures CountWithin(times, lo, hi) <= CountWithin(times, lo', hi')
  {
    if times != [] {
      CountNested(times[..|times| - 1], lo, hi, lo', hi');
    }
  }

  lemma CountOneMore(admitted: seq<int>, now: int, lo: int, limit: int)
    requires forall i :: 0 <= i < |admitted| ==> admitted[i] <= now
    requires CountWithin(admitted, now - WINDOW, now) < limit && CountWithin(admitted, lo, lo + WINDOW) <= limit
    ensures CountWithin(admitted + [now], lo, lo + WINDOW) <= limit
  {
    assert (admitted + [now])[..|admitted|] == admitted;
    if lo <= now <= lo + WINDOW {
      CountNested(admitted, lo, lo + WINDOW, now - WINDOW, now);
    }
  }

  lemma AdmittedEarlier(arrivals: seq<int>, now: int, limit: int)
    requires Monotone(arrivals + [now])
    ensures Monotone(arrivals)
    ensures forall t :: t in PassAll(arrivals, limit).admitted ==> t <= now
  {
    var all := arrivals + [now];
    assert forall i :: 0 <= i < |arrivals| ==> all[i] == arrivals[i];
    if arrivals != [] {
      var k := QueueInvariant(arrivals, limit);
      assert all[|arrivals| - 1] <= all[|arrivals|];
    }
  }

  /** With a clock that never goes back, no closed window of 60,000 ms, wherever it starts, holds more admitted requests
      than the limit. */
  lemma {:induction false} WindowNeverOverfull(arrivals: seq<int>, limit: int, lo: int)
    requires Monotone(arrivals)
    ensures CountWithin(PassAll(arrivals, limit).admitted, lo, lo + 60_000) <= if limit < 0 then 0 else limit
  {
    if arrivals != [] {
      var before, now := arrivals[..|arrivals| - 1], arrivals[|arrivals| - 1];
      assert before + [now] == arrivals;
      AdmittedEarlier(before, now, limit);
      WindowNeverOverfull(before, limit, lo);
      RefusedExactlyWhenFull(before, now, limit);
      hide PassAll, CountWithin, Monotone;
      var admitted := PassAll(before, limit).admitted;
      assert forall i :: 0 <= i < |admitted| ==> admitted[i] in admitted;
      if CountWithin(admitted, now - WINDOW, now) < limit {
        CountOneMore(admitted, now, lo, limit);
      }
    }
  }

  // ----- clocks that step back -----

  /** The bound on one window, whatever the clock does. */
  predicate Bounded(arrivals: seq<int>, limit: int, lo: int) {
    CountWithin(PassAll(arrivals, limit).admitted, lo, lo + 60_000) <= if limit < 0 then 0 else limit
  }

  lemma AdmitNext(arrivals: seq<int>, now: int, limit: int)
    ensures PassAll(arrivals + [now], limit) == Pass(PassAll(arrivals, limit), now, limit)
  {
    assert (arrivals + [now])[..|arrivals|] == arrivals;
  }

  /** With a limit of one, every admitted request is more than a window later than the one before. */
  ghost predicate OneQueued(gate: Gate) {
    && gate.hits == (if gate.admitted == [] then [] else [gate.admitted[|gate.admitted| - 1]])
    && forall i, j :: 0 <= i < j < |gate.admitted| ==> gate.admitted[j] - gate.admitted[i] > WINDOW
  }

  lemma PassOne(gate: Gate, now: int)
    requires OneQueued(gate)
    ensures OneQueued(Pass(gate, now, 1))
  {
    if gate.hits == [] || now - gate.hits[0] > WINDOW {
      assert |gate.hits| <= 1 && Purged(gate.hits, now) == [] by {
        assert gate.hits != [] ==> gate.hits[1..] == [];
      }
      assert [] + [now] == [now];
      assert Pass(gate, now, 1) == Gate([now], gate.admitted + [now]);
      forall i, j | 0 <= i < j < |gate.admitted| + 1
        ensures (gate.admitted + [now])[j] - (gate.admitted + [now])[i] > WINDOW
      {
        if j == |gate.admitted| && i < j - 1 {
          assert gate.admitted[j - 1] - gate.admitted[i] > WINDOW;
        }
      }
    } else {
      assert Pass(gate, now, 1) == Gate(gate.hits, gate.admitted);
    }
  }

  lemma {:induction false} PassAllOne(arrivals: seq<int>, limit: int)
    requires limit <= 1
    ensures if limit == 1 then OneQueued(PassAll(arrivals, limit)) else PassAll(arrivals, limit) == Gate([], [])
  {
    if arrivals != [] {
      PassAllOne(arrivals[..|arrivals| - 1], limit);
      hide OneQueued;
      if limit == 1 {
        hide Pass;
        PassOne(PassAll(arrivals[..|arrivals| - 1], limit), arrivals[|arrivals| - 1]);
      }
    }
  }

  lemma {:induction false} CountSpaced(times: seq<int>, lo: int)
    requires forall i, j :: 0 <= i < j < |times| ==> times[j] - times[i] > WINDOW
    ensures CountWithin(times, lo, lo + WINDOW) <= 1
  {
    if times != [] {
      var before, last := times[..|times| - 1], times[|times| - 1];
      CountSpaced(before, lo);
      if lo <= last <= lo + WINDOW {
        assert forall i :: 0 <= i < |before| ==> last - times[i] > WINDOW;
        CountSuffix(before, |before|, lo, lo + WINDOW);
      }
    }
  }

  function Zeros(n: nat): seq<int> {
    seq(n, i => 0)
  }

  lemma {:induction false} PassZeros(n: nat, limit: nat)
    requires n <= limit
    ensures PassAll(Zeros(n), limit) == Gate(Zeros(n), Zeros(n))
  {
    if n > 0 {
      assert Zeros(n) == Zeros(n - 1) + [0];
      PassZeros(n - 1, limit);
      AdmitNext(Zeros(n - 1), 0, limit);
    }
  }

  lemma {:induction false} PurgeZeros(n: nat)
    ensures Purged(Zeros(n), WINDOW + 1) == []
  {
    if n > 0 {
      assert Zeros(n)[1..] == Zeros(n - 1);
      PurgeZeros(n - 1);
    }
  }

  lemma {:induction false} CountZeros(n: nat)
    ensures CountWithin(Zeros(n), 0, WINDOW) == n
  {
    if n > 0 {
      assert Zeros(n)[..n - 1] == Zeros(n - 1);
      CountZeros(n - 1);
    }
  }

  lemma CountAppended(times: seq<int>, t: int, lo: int, hi: int)
    ensures CountWithin(times + [t], lo, hi) == CountWithin(times, lo, hi) + if lo <= t <= hi then 1 else 0
  {
    assert (times + [t])[..|times|] == times;
  }

  /** As many requests as allowed, one that drives them out of the queue, and one from before that. */
  lemma ClockSteppingBack(limit: nat)
    requires limit >= 2
    ensures !Bounded(Zeros(limit) + [WINDOW + 1] + [30], limit, 0)
  {
    var zeros := Zeros(limit);
    var three, four := zeros + [WINDOW + 1], zeros + [WINDOW + 1] + [30];
    PassZeros(limit, limit);
    PurgeZeros(limit);
    AdmitNext(zeros, WINDOW + 1, limit);
    assert [] + [WINDOW + 1] == [WINDOW + 1];
    assert PassAll(three, limit) == Gate([WINDOW + 1], three);
    AdmitNext(three, 30, limit);
    assert PassAll(four, limit).admitted == four;
    CountZeros(limit);
    CountAppended(zeros, WINDOW + 1, 0, WINDOW);
    CountAppended(three, 30, 0, WINDOW);
  }

  /** The bound holds for every clock, also one that steps back, exactly for limits of at most one. */
  lemma AnyClockExactly(limit: int)
    ensures (forall arrivals: seq<int>, lo: int :: Bounded(arrivals, limit, lo)) <==> limit <= 1
  {
    if limit <= 1 {
      forall arrivals: seq<int>, lo: int
        ensures Bounded(arrivals, limit, lo)
      {
        PassAllOne(arrivals, limit);
        if limit == 1 {
          CountSpaced(PassAll(arrivals, limit).admitted, lo);
        }
      }
    } else {
      ClockSteppingBack(limit);
    }
  }

  // ----- the journal -----

  const SEND := "eth_sendRawTransaction"

  const ALLOWED_RPC_METHODS := {
    "eth_chainId", "eth_blockNumber", "eth_getBalance", "eth_getTransactionCount", "eth_call", "eth_estimateGas",
    "eth_gasPrice", "eth_feeHistory", "eth_maxPriorityFeePerGas", "eth_getCode", "eth_getTransactionReceipt",
    "eth_getTransactionByHash", SEND, "eth_getBlockByNumber", "eth_getBlockByHash", "net_version"
  }

  /** The one allowed method that sends anything is the one whose transactions are journalled; no allowed method signs. */
  lemma OnlySendSends(name: string)
    requires name in ALLOWED_RPC_METHODS
    ensures StartsWith(name, "eth_send") <==> name == SEND
    ensures StartsWith(name, "eth_") || name == "net_version"
    ensures !StartsWith(name, "eth_sign")
  {
    if |name| >= 8 {
      assert name[..8][4] == name[4] && name[..8][6] == name[6] && "eth_send"[4] == 's' && "eth_sign"[4] == 's';
    }
    assert SEND[..8] == "eth_send" && "eth_send"[5] == 'e' && "eth_sign"[5] == 'i' && SEND[5] == 'e';
    assert |name| >= 4 ==> name[..4] == [name[0], name[1], name[2], name[3]];
  }

  /** A parsed body: its method, and the first parameter when the parameters are an array that starts with a string. */
  datatype Request = Request(name: string, first: Option<string>)

  /** What reading and parsing a body comes to. Of the JSON `null` the method cannot be read: the handler throws. */
  datatype Body = TooLarge | Unparsable | Null | Parsed(request: Request)

  datatype Entry = Entry(name: string, blocked: bool, rawTx: Option<string>)

  function EntryFor(request: Request): Entry {
    Entry(request.name, request.name !in ALLOWED_RPC_METHODS, if request.name == SEND then request.first else None)
  }

  /** A forwarded request, and how many journal entries there were when it was forwarded. */
  datatype Forwarded = Forwarded(request: Request, journalled: nat)

  /** Every forwarded request is of an allowed method, and was in the journal before it was forwarded. */
  predicate WriteAhead(forwarded: seq<Forwarded>, journal: seq<Entry>) {
    forall i :: 0 <= i < |forwarded| ==>
      && forwarded[i].request.name in ALLOWED_RPC_METHODS
      && forwarded[i].journalled <= |journal|
      && EntryFor(forwarded[i].request) in journal[..forwarded[i].journalled]
  }

  /** Where a handler is between two awaited operations. */
  datatype Stage = Reading | Journalling(request: Request) | Forwarding(request: Request)

  /** Each method runs from one awaited operation of `handle` to the next, so the handlers interleave as their callers
      please. */
  class Proxy {
    const rateLimit: int
    var windowHits: seq<int>
    var handlers: map<nat, Stage>
    var journal: seq<Entry>
    ghost var arrivals: seq<int>
    ghost var admitted: seq<int>
    ghost var forwarded: seq<Forwarded>

    ghost predicate Valid()
      reads this
    {
      && Gate(windowHits, admitted) == PassAll(arrivals, rateLimit)
      && WriteAhead(forwarded, journal)
      && (forall id :: id in handlers && handlers[id].Forwarding? ==>
            handlers[id].request.name in ALLOWED_RPC_METHODS && EntryFor(handlers[id].request) in journal)
    }

    constructor (rateLimit: int)
      ensures Valid() && this.rateLimit == rateLimit && handlers == map[] && journal == [] && forwarded == []
    {
      this.rateLimit := rateLimit;
      windowHits, handlers, journal, arrivals, admitted, forwarded := [], map[], [], [], [], [];
    }

    method ShiftOldHits(now: int)
      modifies this`windowHits
      ensures windowHits == Purged(old(windowHits), now)
    {
      while |windowHits| > 0 && now - windowHits[0] > WINDOW
        invariant Purged(windowHits, now) == Purged(old(windowHits), now)
      {
        windowHits := windowHits[1..];
      }
    }

    /** The part of a handler before the body is read: `status` is the answer of a refusal. */
    method Arrive(id: nat, post: bool, now: int) returns (status: Option<int>)
      requires Valid() && id !in handlers
      modifies this`windowHits, this`handlers, this`arrivals, this`admitted
      ensures Valid()
      ensures arrivals == old(arrivals) + if post then [now] else []
      ensures handlers == if status.None? then old(handlers)[id := Reading] else old(handlers)
      ensures admitted == old(admitted) + if status.None? then [now] else []
      ensures !post ==> status == Some(405)
      ensures post && Monotone(arrivals) ==>
                status == if CountWithin(old(admitted), now - 60_000, now) >= rateLimit then Some(429) else None
    {
      if !post {
        return Some(405);
      }
      ShiftOldHits(now);
      RefusedOrAdmitted(arrivals, now, rateLimit);
      hide PassAll, CountWithin, Monotone, Purged, WriteAhead, EntryFor;
      arrivals := arrivals + [now];
      if |windowHits| >= rateLimit {
        return Some(429);
      }
      windowHits, admitted, handlers := windowHits + [now], admitted + [now], handlers[id := Reading];
      return None;
    }

    /** From the body to the journal. */
    method Receive(id: nat, body: Body) returns (status: Option<int>)
      requires Valid() && id in handlers && handlers[id] == Reading
      modifies this`handlers
      ensures Valid()
      ensures handlers == if body.Parsed? then old(handlers)[id := Journalling(body.request)] else old(handlers) - {id}
      ensures status == if body.TooLarge? then Some(413) else if body.Unparsable? then Some(400) else None
    {
      if body.Parsed? {
        handlers := handlers[id := Journalling(body.request)];
        status := None;
      } else {
        handlers := handlers - {id};
        status := if body.TooLarge? then Some(413) else if body.Unparsable? then Some(400) else None;
      }
    }

    /** The entry is appended, unless that fails, in which case the handler ends without an answer. A request of a method
        that is not allowed is answered here. */
    method Append(id: nat, fails: bool) returns (status: Option<int>)
      requires Valid() && id in handlers && handlers[id].Journalling?
      modifies this`handlers, this`journal
      ensures Valid()
      ensures var request := old(handlers[id].request);
              var allowed := request.name in ALLOWED_RPC_METHODS;
              && journal == old(journal) + (if fails then [] else
                   [Entry(request.name, !allowed, if request.name == "eth_sendRawTransaction" then request.first else None)])
              && handlers == (if fails || !allowed then old(handlers) - {id} else old(handlers)[id := Forwarding(request)])
              && status == if !fails && !allowed then Some(200) else None
    {
      var request := handlers[id].request;
      status := None;
      if fails {
        handlers := handlers - {id};
      } else {
        journal := journal + [EntryFor(request)];
        JournalGrows(forwarded, old(journal), journal);
        if EntryFor(request).blocked {
          handlers, status := handlers - {id}, Some(200);
        } else {
          handlers := handlers[id := Forwarding(request)];
        }
      }
    }

    /** The request goes to the chain. */
    method Forward(id: nat)
      requires Valid() && id in handlers && handlers[id].Forwarding?
      modifies this`handlers, this`forwarded
      ensures Valid() && handlers == old(handlers) - {id}
      ensures forwarded == old(forwarded) + [Forwarded(old(handlers[id].request), |journal|)]
    {
      assert journal[..|journal|] == journal;
      forwarded := forwarded + [Forwarded(handlers[id].request, |journal|)];
      handlers := handlers - {id};
    }
  }

  lemma RefusedOrAdmitted(arrivals: seq<int>, now: int, limit: int)
    ensures PassAll(arrivals + [now], limit) == Pass(PassAll(arrivals, limit), now, limit)
    ensures Monotone(arrivals + [now]) ==>
              (|Purged(PassAll(arrivals, limit).hits, now)| >= limit <==>
               CountWithin(PassAll(arrivals, limit).admitted, now - WINDOW, now) >= limit)
  {
    assert (arrivals + [now])[..|arrivals|] == arrivals;
    if Monotone(arrivals + [now]) {
      RefusedExactlyWhenFull(arrivals, now, limit);
    }
  }

  lemma JournalGrows(forwarded: seq<Forwarded>, journal: seq<Entry>, longer: seq<Entry>)
    requires WriteAhead(forwarded, journal) && journal <= longer
    ensures WriteAhead(forwarded, longer)
  {
    forall i | 0 <= i < |forwarded|
      ensures longer[..forwarded[i].journalled] == journal[..forwarded[i].journalled]
    {
    }
  }

  // ----- reading the journal back -----

  type Hash = string

  /** A line of the journal file: not an object, or an object with these fields, when they are strings. */
  datatype Line = Blank | Malformed | Object(name: Option<string>, rawTx: Option<string>)

  /** The lines of the file: one for each entry, and what is left after the last newline. */
  function FileLines(journal: seq<Entry>): seq<Line> {
    seq(|journal|, i requires 0 <= i < |journal| => Object(Some(journal[i].name), journal[i].rawTx)) + [Blank]
  }

  function Prefixed(rawTx: string): string {
    if StartsWith(rawTx, "0x") then rawTx else "0x" + rawTx
  }

  /** The hash of the transaction on a line; `keccak` fails on what is not hexadecimal, and the line is then ignored. */
  function LineHash(keccak: string -> Option<Hash>, line: Line): Option<Hash> {
    if line.Object? && line.name == Some(SEND) && line.rawTx.Some? then keccak(Prefixed(line.rawTx.value)) else None
  }

  function JournalHashes(keccak: string -> Option<Hash>, lines: seq<Line>): seq<Hash> {
    if lines == [] then []
    else
      var hash := LineHash(keccak, lines[|lines| - 1]);
      JournalHashes(keccak, lines[..|lines| - 1]) + if hash.Some? then [hash.value] else []
  }

  /** The line is of a sent transaction with this hash, its hexadecimal prefix supplied where it is missing. */
  ghost predicate Sends(keccak: string -> Option<Hash>, line: Line, hash: Hash) {
    exists rawTx ::
      && line == Object(Some("eth_sendRawTransaction"), Some(rawTx))
      && keccak(if |rawTx| >= 2 && rawTx[0] == '0' && rawTx[1] == 'x' then rawTx else ['0', 'x'] + rawTx) == Some(hash)
  }

  lemma LineSends(keccak: string -> Option<Hash>, line: Line, hash: Hash)
    ensures LineHash(keccak, line) == Some(hash) <==> Sends(keccak, line, hash)
  {
    if line.Object? && line.rawTx.Some? {
      var rawTx := line.rawTx.value;
      assert |rawTx| >= 2 ==> rawTx[..2] == [rawTx[0], rawTx[1]];
      assert "0x" == ['0', 'x'];
    }
  }

  lemma {:induction false} JournalHashesOf(keccak: string -> Option<Hash>, lines: seq<Line>, hash: Hash)
    ensures hash in JournalHashes(keccak, lines) <==> exists i :: 0 <= i < |lines| && LineHash(keccak, lines[i]) == Some(hash)
  {
    if lines != [] {
      var before, last := lines[..|lines| - 1], lines[|lines| - 1];
      JournalHashesOf(keccak, before, hash);
      if i :| 0 <= i < |before| && LineHash(keccak, before[i]) == Some(hash) {
        assert lines[i] == before[i];
      }
    }
  }

  /** The hashes read back are those of the sent transactions of the journal, and no others. */
  lemma JournalHashesAre(keccak: string -> Option<Hash>, lines: seq<Line>, hash: Hash)
    ensures hash in JournalHashes(keccak, lines) <==> exists i :: 0 <= i < |lines| && Sends(keccak, lines[i], hash)
  {
    JournalHashesOf(keccak, lines, hash);
    hide LineHash, Sends, JournalHashes;
    forall i | 0 <= i < |lines|
      ensures LineHash(keccak, lines[i]) == Some(hash) <==> Sends(keccak, lines[i], hash)
    {
      LineSends(keccak, lines[i], hash);
    }
  }

  method HashesFromProxyJournal(keccak: string -> Option<Hash>, lines: seq<Line>) returns (hashes: seq<Hash>)
    ensures hashes == JournalHashes(keccak, lines)
  {
    hashes := [];
    for i := 0 to |lines|
      invariant hashes == JournalHashes(keccak, lines[..i])
    {
      assert lines[..i + 1][..i] == lines[..i];
      var line := lines[i];
      if line.Object? && line.name == Some(SEND) && line.rawTx.Some? {
        var hex := if StartsWith(line.rawTx.value, "0x") then line.rawTx.value else "0x" + line.rawTx.value;
        var hash := keccak(hex);
        if hash.Some? {
          hashes := hashes + [hash.value];
        }
      }
    }
    assert lines[..|lines|] == lines;
  }

  /** A sent transaction that was forwarded is among the hashes read from the journal, or from any later journal. */
  lemma ForwardedIsRead(keccak: string -> Option<Hash>, forwarded: seq<Forwarded>, journal: seq<Entry>, i: nat)
    requires WriteAhead(forwarded, journal) && i < |forwarded|
    requires forwarded[i].request.name == SEND && forwarded[i].request.first.Some?
    requires keccak(Prefixed(forwarded[i].request.first.value)).Some?
    ensures keccak(Prefixed(forwarded[i].request.first.value)).value in JournalHashes(keccak, FileLines(journal))
  {
    var entry := EntryFor(forwarded[i].request);
    var k :| 0 <= k < forwarded[i].journalled && journal[k] == entry;
    var hash := keccak(Prefixed(forwarded[i].request.first.value)).value;
    assert LineHash(keccak, FileLines(journal)[k]) == Some(hash);
    JournalHashesOf(keccak, FileLines(journal), hash);
  }
}
