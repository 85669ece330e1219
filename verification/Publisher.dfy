/**
  The retry queue of bridge/publisher.py against a keyed repo. `putRecord` is a map
  update whose failure may be ambiguous: any failed call may or may not have been
  applied. The network is an arbitrary function from call number to reply, so a
  statement over all of them covers every server behaviour.
*/
module Publisher {
  import opened Common
  import opened Errors

  type Record = string

  datatype Entry = Entry(rkey: string, record: Record)

  /** What a whole put_record call, with the client's own retries, ends in. */
  datatype Reply =
    | Accepted
    | Refused(error: XrpcError, applied: bool)
    | Unreachable(applied: bool)    // NetworkError or OSError
    | Escapes(applied: bool)        // SessionError or anything else `_write` does not catch

  datatype Outcome = Written | Retry | Dropped | Raised

  type Network = nat -> Reply

  predicate Applied(r: Reply) {
    r.Accepted? || r.applied
  }

  /** The branches of `_write`. */
  function Classify(r: Reply): Outcome {
    match r
    case Accepted => Written
    case Refused(e, _) => if !e.IsRetryable() && !e.IsAuth() then Dropped else Retry
    case Unreachable(_) => Retry
    case Escapes(_) => Raised
  }

  // ----- specification ------------------------------------------------------

  // How a record left the publisher's hands. Discarded: the queue is disabled.
  // Escaped: an exception left the publish that was writing it.
  datatype Fate = WasWritten | WasRejected | WasEvicted | WasDiscarded | HasEscaped

  datatype Settlement = Settlement(entry: Entry, fate: Fate)

  /** Every record submitted, every record ever queued, and what became of each. */
  datatype Ledger = Ledger(submitted: seq<Entry>, enqueued: seq<Entry>, settled: seq<Settlement>) {
    function Settle(e: Entry, fate: Fate): Ledger {
      this.(settled := settled + [Settlement(e, fate)])
    }
  }

  datatype State = State(
    queue: seq<Entry>, published: nat, failed: nat, dropped: nat,
    calls: nat, repo: map<string, Record>, ledger: Ledger)

  /** A new publisher on a repo that already took `calls` calls and holds `records`. */
  function Start(calls: nat, records: map<string, Record>): State {
    State([], 0, 0, 0, calls, records, Ledger([], [], []))
  }

  function Attempt(s: State, e: Entry, net: Network): (State, Outcome) {
    var reply := net(s.calls);
    var t := s.(calls := s.calls + 1, repo := if Applied(reply) then s.repo[e.rkey := e.record] else s.repo);
    match Classify(reply)
    case Written => (t.(published := s.published + 1, ledger := s.ledger.Settle(e, WasWritten)), Written)
    case Retry => (t.(failed := s.failed + 1), Retry)
    case Dropped => (t.(failed := s.failed + 1, dropped := s.dropped + 1,
                        ledger := s.ledger.Settle(e, WasRejected)), Dropped)
    case Raised => (t, Raised)
  }

  /** Oldest first, stopping at the first record that still fails. The flag says
      an exception left the loop. */
  function Drain(s: State, net: Network): (State, bool)
    decreases |s.queue|
  {
    if s.queue == [] then (s, false)
    else
      var (t, outcome) := Attempt(s, s.queue[0], net);
      if outcome.Retry? || outcome.Raised? then (t, outcome.Raised?)
      else Drain(t.(queue := s.queue[1..]), net)
  }

  function EvictOne(s: State): State
    requires s.queue != []
  {
    s.(queue := s.queue[1..], dropped := s.dropped + 1, ledger := s.ledger.Settle(s.queue[0], WasEvicted))
  }

  function Evict(s: State, size: nat): State
    decreases |s.queue|
  {
    if |s.queue| <= size then s else Evict(EvictOne(s), size)
  }

  function Append(s: State, e: Entry): State {
    s.(queue := s.queue + [e], ledger := s.ledger.(enqueued := s.ledger.enqueued + [e]))
  }

  function Enqueue(s: State, e: Entry, size: nat): State {
    if size == 0 then s.(ledger := s.ledger.Settle(e, WasDiscarded)) else Evict(Append(s, e), size)
  }

  /** A publish of `e`: its return value, or an error if an exception left it. */
  function Submit(s: State, e: Entry, size: nat, net: Network): (State, Result<bool, ()>) {
    var (t, outcome) := Attempt(s.(ledger := s.ledger.(submitted := s.ledger.submitted + [e])), e, net);
    match outcome
    case Retry => (Enqueue(t, e, size), Ok(false))
    case Dropped => (t, Ok(false))
    case Raised => (t.(ledger := t.ledger.Settle(e, HasEscaped)), Err(()))
    case Written =>
      var (u, raised) := Drain(t, net);
      (u, if raised then Err(()) else Ok(true))
  }

  // ----- the class ----------------------------------------------------------

  class PendingRecord {
    const rkey: string
    const record: Record
    var attempts: nat

    constructor (rkey: string, record: Record)
      ensures this.rkey == rkey && this.record == record && attempts == 0
    {
      this.rkey, this.record, attempts := rkey, record, 0;
    }

    function Value(): Entry {
      Entry(rkey, record)
    }
  }

  /** put_record and the repo behind it. */
  class Repo {
    const net: Network
    var calls: nat
    var records: map<string, Record>

    constructor (net: Network)
      ensures this.net == net && calls == 0 && records == map[]
    {
      this.net, calls, records := net, 0, map[];
    }

    method PutRecord(rkey: string, record: Record) returns (reply: Reply)
      modifies this
      ensures reply == net(old(calls)) && calls == old(calls) + 1
      ensures records == if Applied(reply) then old(records)[rkey := record] else old(records)
    {
      reply := net(calls);
      calls := calls + 1;
      if Applied(reply) {
        records := records[rkey := record];
      }
    }
  }

  function Values(q: seq<PendingRecord>): (s: seq<Entry>)
    ensures |s| == |q| && forall i :: 0 <= i < |q| ==> s[i] == q[i].Value()
  {
    seq(|q|, i requires 0 <= i < |q| => q[i].Value())
  }

  class ObservationPublisher {
    const client: Repo
    const queueSize: nat
    const dryRun: bool
    var queue: seq<PendingRecord>
    var published: nat
    var failed: nat
    var dropped: nat
    ghost var ledger: Ledger

    constructor (client: Repo, queueSize: nat, dryRun: bool)
      ensures Abstract() == Start(client.calls, client.records)
      ensures this.client == client && this.queueSize == queueSize && this.dryRun == dryRun
    {
      this.client, this.queueSize, this.dryRun := client, queueSize, dryRun;
      queue, published, failed, dropped := [], 0, 0, 0;
      ledger := Ledger([], [], []);
    }

    ghost function Abstract(): State
      reads this, client
    {
      State(Values(queue), published, failed, dropped, client.calls, client.records, ledger)
    }

    method Publish(rkey: string, record: Record) returns (r: Result<bool, ()>)
      modifies this, client, queue
      ensures fresh(set p | p in queue && p !in old(queue))
      ensures (Abstract(), r) ==
        if dryRun then (old(Abstract()), Ok(true))
        else Submit(old(Abstract()), Entry(rkey, record), queueSize, client.net)
    {
      if dryRun {
        return Ok(true);
      }
      ledger := ledger.(submitted := ledger.submitted + [Entry(rkey, record)]);
      var pending := new PendingRecord(rkey, record);
      var outcome := Write(pending);
      if outcome == Raised {
        ledger := ledger.Settle(Entry(rkey, record), HasEscaped);
        return Err(());
      }
      if outcome == Retry {
        EnqueuePending(pending);
      }
      if outcome == Written && queue != [] {
        var raised := Flush();
        if raised {
          return Err(());
        }
      }
      return Ok(outcome == Written);
    }

    method Flush() returns (raised: bool)
      modifies this, client, queue
      ensures (Abstract(), raised) == Drain(old(Abstract()), client.net)
      ensures forall p :: p in queue ==> p in old(queue)
    {
      while queue != []
        invariant forall p :: p in queue ==> p in old(queue)
        invariant Drain(Abstract(), client.net) == Drain(old(Abstract()), client.net)
        decreases |queue|
      {
        var pending := queue[0];
        assert pending in queue;
        var outcome := Write(pending);
        if outcome == Retry || outcome == Raised {
          return outcome == Raised;
        }
        assert Values(queue)[1..] == Values(queue[1..]);
        queue := queue[1..];
      }
      return false;
    }

    method Write(pending: PendingRecord) returns (outcome: Outcome)
      modifies this, client, pending
      ensures (Abstract(), outcome) == Attempt(old(Abstract()), pending.Value(), client.net)
      ensures queue == old(queue) && pending.attempts == old(pending.attempts) + 1
    {
      pending.attempts := pending.attempts + 1;
      var reply := client.PutRecord(pending.rkey, pending.record);
      if reply.Accepted? {
        published := published + 1;
        ledger := ledger.Settle(pending.Value(), WasWritten);
        return Written;
      }
      if reply.Escapes? {
        return Raised;
      }
      failed := failed + 1;
      if reply.Refused? && !reply.error.IsRetryable()
         && !(reply.error.IsExpiredToken() || reply.error.IsInvalidToken()) {
        dropped := dropped + 1;
        ledger := ledger.Settle(pending.Value(), WasRejected);
        return Dropped;
      }
      return Retry;
    }

    method EnqueuePending(pending: PendingRecord)
      modifies this
      ensures Abstract() == Enqueue(old(Abstract()), pending.Value(), queueSize)
      ensures forall p :: p in queue ==> p in old(queue) || p == pending
    {
      if queueSize == 0 {
        ledger := ledger.Settle(pending.Value(), WasDiscarded);
        return;
      }
      assert Values(queue + [pending]) == Values(queue) + [pending.Value()];
      queue := queue + [pending];
      ledger := ledger.(enqueued := ledger.enqueued + [pending.Value()]);
      while |queue| > queueSize
        invariant forall p :: p in queue ==> p in old(queue) || p == pending
        invariant Evict(Abstract(), queueSize) == Enqueue(old(Abstract()), pending.Value(), queueSize)
        decreases |queue|
      {
        assert Values(queue)[1..] == Values(queue[1..]);
        ledger := ledger.Settle(queue[0].Value(), WasEvicted);
        queue := queue[1..];
        dropped := dropped + 1;
      }
    }
  }
}
