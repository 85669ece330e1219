/**
  What one publish does, outcome by outcome, and which records a full queue gives up:
  the oldest, in the order they were submitted.
*/
module Queueing {
  import opened Common
  import opened Publisher
  import opened Delivery

  // ----- outcomes -----------------------------------------------------------

  /** Replies after which the record is kept for another try: no response, a server
      error, a timeout, a rate limit, or a token that was not accepted. */
  predicate TryAgain(reply: Reply) {
    match reply
    case Unreachable(_) => true
    case Refused(x, _) =>
      || x.status >= 500 || x.status == 408 || x.status == 429 || x.status == 401 || x.kind == "RateLimitExceeded"
      || x.kind == "ExpiredToken" || x.kind == "InvalidToken" || x.kind == "AuthMissing"
    case _ => false
  }

  lemma ClassifyMeans(reply: Reply)
    ensures Classify(reply).Written? <==> reply.Accepted?
    ensures Classify(reply).Retry? <==> TryAgain(reply)
    ensures Classify(reply).Dropped? <==> reply.Refused? && !TryAgain(reply)
    ensures Classify(reply).Raised? <==> reply.Escapes?
  {
  }

  /** The last `n` elements, or all if there are fewer. */
  function LastOf<T>(q: seq<T>, n: nat): seq<T> {
    if |q| > n then q[|q| - n..] else q
  }

  function CutOff<T>(q: seq<T>, n: nat): seq<T> {
    if |q| > n then q[..|q| - n] else []
  }

  function Evictions(q: seq<Entry>): seq<Settlement> {
    seq(|q|, i requires 0 <= i < |q| => Settlement(q[i], WasEvicted))
  }

  lemma {:induction false} EvictCutsTheFront(s: State, size: nat)
    ensures var t := Evict(s, size);
      && t.queue == LastOf(s.queue, size) && t.ledger.settled == s.ledger.settled + Evictions(CutOff(s.queue, size))
      && t == s.(queue := t.queue, dropped := s.dropped + |s.queue| - |t.queue|,
                 ledger := s.ledger.(settled := t.ledger.settled))
    decreases |s.queue|
  {
    if |s.queue| <= size {
      assert s.ledger.settled + Evictions([]) == s.ledger.settled;
    } else {
      EvictCutsTheFront(EvictOne(s), size);
      CutOne(s.queue, size);
      Shift(s.ledger.settled, Settlement(s.queue[0], WasEvicted), Evictions(CutOff(s.queue[1..], size)));
    }
  }

  lemma CutOne(q: seq<Entry>, n: nat)
    requires |q| > n
    ensures LastOf(q[1..], n) == LastOf(q, n) && CutOff(q, n) == [q[0]] + CutOff(q[1..], n)
    ensures Evictions(CutOff(q, n)) == [Settlement(q[0], WasEvicted)] + Evictions(CutOff(q[1..], n))
  {
  }

  lemma Shift(a: seq<Settlement>, x: Settlement, b: seq<Settlement>)
    ensures a + [x] + b == a + ([x] + b)
  {
  }

  /** The state while a publish of `e` is making its call. */
  function Submitting(s: State, e: Entry): State {
    s.(ledger := s.ledger.(submitted := s.ledger.submitted + [e]))
  }

  /** A first attempt that is worth another keeps the newest records: the queue is the
      end of what it was and `e`, and what is cut off in front is evicted. */
  lemma RetryKeepsTheNewest(s: State, e: Entry, size: nat, net: Network)
    requires size > 0 && TryAgain(net(s.calls))
    ensures var (t, r) := Submit(s, e, size, net);
      && r == Ok(false) && t.queue == LastOf(s.queue + [e], size)
      && t.ledger.settled == s.ledger.settled + Evictions(CutOff(s.queue + [e], size))
      && t.dropped == s.dropped + |CutOff(s.queue + [e], size)|
      && t.failed == s.failed + 1 && t.published == s.published && t.calls == s.calls + 1
      && t.ledger.submitted == s.ledger.submitted + [e]
  {
    ClassifyMeans(net(s.calls));
    var t := Attempt(Submitting(s, e), e, net).0;
    EvictCutsTheFront(Append(t, e), size);
  }

  /** In particular nothing is evicted below the bound, and one record at it. */
  lemma OnlyAFullQueueEvicts(s: State, e: Entry, size: nat, net: Network)
    requires size > 0 && TryAgain(net(s.calls)) && |s.queue| <= size
    ensures var t := Submit(s, e, size, net).0;
      if |s.queue| < size then t.queue == s.queue + [e] && t.ledger.settled == s.ledger.settled
      else t.queue == s.queue[1..] + [e] && t.ledger.settled == s.ledger.settled + [Settlement(s.queue[0], WasEvicted)]
  {
    RetryKeepsTheNewest(s, e, size, net);
    if |s.queue| < size {
      assert Evictions([]) == [];
    } else {
      assert CutOff(s.queue + [e], size) == [s.queue[0]];
    }
  }

  /** Without a queue the record is let go, and not counted. */
  lemma NoQueueDiscards(s: State, e: Entry, net: Network)
    requires TryAgain(net(s.calls))
    ensures var (t, r) := Submit(s, e, 0, net);
      && r == Ok(false) && t.queue == s.queue && t.dropped == s.dropped && t.published == s.published
      && t.failed == s.failed + 1 && t.calls == s.calls + 1
      && t.ledger.settled == s.ledger.settled + [Settlement(e, WasDiscarded)]
  {
    ClassifyMeans(net(s.calls));
  }

  /** A final refusal drops the record, and the queue is left alone. */
  lemma RefusalDrops(s: State, e: Entry, size: nat, net: Network)
    requires net(s.calls).Refused? && !TryAgain(net(s.calls))
    ensures var (t, r) := Submit(s, e, size, net);
      && r == Ok(false) && t.queue == s.queue && t.dropped == s.dropped + 1 && t.published == s.published
      && t.failed == s.failed + 1 && t.calls == s.calls + 1
      && t.ledger.settled == s.ledger.settled + [Settlement(e, WasRejected)]
  {
    ClassifyMeans(net(s.calls));
  }

  /** An exception `_write` does not catch counts nothing and leaves the queue alone. */
  lemma EscapeRaises(s: State, e: Entry, size: nat, net: Network)
    requires net(s.calls).Escapes?
    ensures var (t, r) := Submit(s, e, size, net);
      && r == Err(()) && t.queue == s.queue && t.dropped == s.dropped && t.published == s.published
      && t.failed == s.failed && t.calls == s.calls + 1
      && t.ledger.settled == s.ledger.settled + [Settlement(e, HasEscaped)]
  {
    ClassifyMeans(net(s.calls));
  }

  /** A written record is in the repo, and is followed by a drain of the queue. */
  lemma AcceptanceDrains(s: State, e: Entry, size: nat, net: Network)
    requires net(s.calls).Accepted?
    ensures var (t, r) := Submit(s, e, size, net);
      var written := Attempt(Submitting(s, e), e, net).0;
      && written.queue == s.queue && written.calls == s.calls + 1 && written.published == s.published + 1
      && written.repo == s.repo[e.rkey := e.record]
      && DrainedTo(written, t, r.Err?, net) && (r.Ok? ==> r == Ok(true))
  {
    ClassifyMeans(net(s.calls));
    DrainStopsAtFirstFailure(Attempt(Submitting(s, e), e, net).0, net);
  }

  /** A failed write may be in the repo all the same, and changes nothing else there. */
  lemma FailureMayLand(s: State, e: Entry, size: nat, net: Network)
    requires !net(s.calls).Accepted?
    ensures Submit(s, e, size, net).0.repo == if net(s.calls).applied then s.repo[e.rkey := e.record] else s.repo
  {
    ClassifyMeans(net(s.calls));
    if TryAgain(net(s.calls)) {
      EvictCutsTheFront(Append(Attempt(Submitting(s, e), e, net).0, e), size);
    }
  }

  // ----- counting calls -----------------------------------------------------

  function EscapesIn(net: Network, from: nat, end: nat): nat
    requires from <= end
    decreases end
  {
    if from == end then 0
    else EscapesIn(net, from, end - 1) + if net(end - 1).Escapes? then 1 else 0
  }

  /** Since call number `from`, every call was published, failed or escaped. */
  predicate Counted(s: State, from: nat, net: Network) {
    && from <= s.calls
    && s.calls - from == s.published + s.failed + EscapesIn(net, from, s.calls)
  }

  lemma AttemptCounts(s: State, e: Entry, from: nat, net: Network)
    requires Counted(s, from, net)
    ensures Counted(Attempt(s, e, net).0, from, net)
  {
    ClassifyMeans(net(s.calls));
  }

  lemma {:induction false} DrainCounts(s: State, from: nat, net: Network)
    requires Counted(s, from, net)
    ensures Counted(Drain(s, net).0, from, net)
    decreases |s.queue|
  {
    if s.queue == [] {
    } else {
      AttemptCounts(s, s.queue[0], from, net);
      AttemptFacts(s, net);
      if Settles(net, s.calls) {
        DrainCounts(AfterFirst(s, net), from, net);
      }
    }
  }

  lemma ApplyCounts(s: State, op: Op, size: nat, from: nat, net: Network)
    requires Counted(s, from, net)
    ensures Counted(Apply(s, op, size, net), from, net)
  {
    match op
    case Flush => DrainCounts(s, from, net);
    case Publish(e) =>
      var (t, outcome) := Attempt(Submitting(s, e), e, net);
      AttemptCounts(Submitting(s, e), e, from, net);
      if outcome.Written? { DrainCounts(t, from, net); }
      if outcome.Retry? && size > 0 { EvictCutsTheFront(Append(t, e), size); }
  }

  /** Over every run: each call to the server is counted as published or as failed,
      unless an exception left it. */
  lemma {:induction false} RunCounts(s: State, ops: seq<Op>, size: nat, from: nat, net: Network)
    requires Counted(s, from, net)
    ensures Counted(Run(s, ops, size, net), from, net)
    decreases |ops|
  {
    if ops == [] {
    } else {
      ApplyCounts(s, ops[0], size, from, net);
      RunCounts(Apply(s, ops[0], size, net), ops[1..], size, from, net);
    }
  }

  // ----- who is evicted -----------------------------------------------------

  function Evicted(settled: seq<Settlement>): seq<Entry> {
    if settled == [] then []
    else
      var last := settled[|settled| - 1];
      Evicted(settled[..|settled| - 1]) + if last.fate == WasEvicted then [last.entry] else []
  }

  /** `at` are the places of `es` in the order of submission. */
  predicate Places(submitted: seq<Entry>, es: seq<Entry>, at: seq<nat>) {
    && |at| == |es|
    && (forall i :: 0 <= i < |at| ==> at[i] < |submitted| && submitted[at[i]] == es[i])
    && (forall i, j :: 0 <= i < j < |at| ==> at[i] < at[j])
  }

  /** Queued and evicted records in the order of submission, all of these before all of those. */
  predicate InOrder(submitted: seq<Entry>, queue: seq<Entry>, lost: seq<Entry>, queued: seq<nat>, evicted: seq<nat>) {
    && Places(submitted, queue, queued)
    && Places(submitted, lost, evicted)
    && forall i, j :: 0 <= i < |evicted| && 0 <= j < |queued| ==> evicted[i] < queued[j]
  }

  predicate OldestOut(s: State, queued: seq<nat>, evicted: seq<nat>) {
    InOrder(s.ledger.submitted, s.queue, Evicted(s.ledger.settled), queued, evicted)
  }

  lemma {:induction false} EvictedAppends(a: seq<Settlement>, b: seq<Settlement>)
    ensures Evicted(a + b) == Evicted(a) + Evicted(b)
  {
    if b == [] {
      assert a + b == a;
    } else {
      assert (a + b)[..|a + b| - 1] == a + b[..|b| - 1];
      EvictedAppends(a, b[..|b| - 1]);
    }
  }

  lemma {:induction false} EvictedOfEvictions(q: seq<Entry>)
    ensures Evicted(Evictions(q)) == q
  {
    if q == [] {
    } else {
      assert Evictions(q)[..|q| - 1] == Evictions(q[..|q| - 1]);
      EvictedOfEvictions(q[..|q| - 1]);
    }
  }

  /** Settling a record any other way evicts nobody. */
  lemma OtherFate(l: Ledger, e: Entry, fate: Fate)
    requires fate != WasEvicted
    ensures Evicted(l.Settle(e, fate).settled) == Evicted(l.settled)
  {
    assert l.Settle(e, fate).settled[..|l.settled|] == l.settled;
  }

  lemma AttemptEvictsNobody(s: State, e: Entry, net: Network)
    ensures var t := Attempt(s, e, net).0;
      && t.queue == s.queue && t.ledger.submitted == s.ledger.submitted
      && Evicted(t.ledger.settled) == Evicted(s.ledger.settled)
  {
    OtherFate(s.ledger, e, WasWritten);
    OtherFate(s.ledger, e, WasRejected);
  }

  /** A drain evicts nobody and takes records from the front only. */
  lemma {:induction false} DrainEvictsNobody(s: State, net: Network)
    ensures var t := Drain(s, net).0;
      && t.ledger.submitted == s.ledger.submitted && Evicted(t.ledger.settled) == Evicted(s.ledger.settled)
      && |t.queue| <= |s.queue| && t.queue == s.queue[|s.queue| - |t.queue|..]
    decreases |s.queue|
  {
    if s.queue == [] {
    } else {
      AttemptEvictsNobody(s, s.queue[0], net);
      AttemptFacts(s, net);
      if Settles(net, s.calls) {
        DrainEvictsNobody(AfterFirst(s, net), net);
      }
    }
  }

  lemma DrainKeepsOrder(s: State, net: Network, queued: seq<nat>, evicted: seq<nat>) returns (left: seq<nat>)
    requires OldestOut(s, queued, evicted)
    ensures OldestOut(Drain(s, net).0, left, evicted)
  {
    DrainEvictsNobody(s, net);
    left := queued[|queued| - |Drain(s, net).0.queue|..];
  }

  /** Places stay places at the end and at the front of a queue, and behind it. */
  lemma LastPlaces(submitted: seq<Entry>, es: seq<Entry>, at: seq<nat>, n: nat)
    requires Places(submitted, es, at)
    ensures Places(submitted, LastOf(es, n), LastOf(at, n))
  {
  }

  lemma CutPlaces(submitted: seq<Entry>, es: seq<Entry>, at: seq<nat>, n: nat)
    requires Places(submitted, es, at)
    ensures Places(submitted, CutOff(es, n), CutOff(at, n))
  {
  }

  lemma PlacesAppend(submitted: seq<Entry>, es: seq<Entry>, at: seq<nat>, e: Entry)
    requires Places(submitted, es, at)
    ensures Places(submitted + [e], es, at)
    ensures Places(submitted + [e], es + [e], at + [|submitted|])
  {
  }

  lemma PlacesConcat(submitted: seq<Entry>, a: seq<Entry>, at: seq<nat>, b: seq<Entry>, bt: seq<nat>)
    requires Places(submitted, a, at) && Places(submitted, b, bt)
    requires forall i, j :: 0 <= i < |at| && 0 <= j < |bt| ==> at[i] < bt[j]
    ensures Places(submitted, a + b, at + bt)
  {
  }

  /** The front of places lies before their end. */
  lemma CutBeforeLast(at: seq<nat>, n: nat)
    requires forall i, j :: 0 <= i < j < |at| ==> at[i] < at[j]
    ensures forall i, j :: 0 <= i < |CutOff(at, n)| && 0 <= j < |LastOf(at, n)| ==> CutOff(at, n)[i] < LastOf(at, n)[j]
  {
  }

  /** The new record takes its place behind the queue, and the front is evicted. */
  lemma NewestKeepOrder(had: seq<Entry>, settled: seq<Settlement>, q: seq<Entry>, e: Entry, size: nat,
                        queued: seq<nat>, evicted: seq<nat>)
    returns (queued': seq<nat>, evicted': seq<nat>)
    requires InOrder(had, q, Evicted(settled), queued, evicted)
    ensures InOrder(had + [e], LastOf(q + [e], size), Evicted(settled) + CutOff(q + [e], size), queued', evicted')
  {
    var n, all := q + [e], queued + [|had|];
    PlacesAppend(had, q, queued, e);
    PlacesAppend(had, Evicted(settled), evicted, e);
    LastPlaces(had + [e], n, all, size);
    CutPlaces(had + [e], n, all, size);
    CutBeforeLast(all, size);
    PlacesConcat(had + [e], Evicted(settled), evicted, CutOff(n, size), CutOff(all, size));
    queued', evicted' := LastOf(all, size), evicted + CutOff(all, size);
  }

  lemma RetryKeepsOrder(s: State, e: Entry, size: nat, net: Network, queued: seq<nat>, evicted: seq<nat>)
    returns (queued': seq<nat>, evicted': seq<nat>)
    requires OldestOut(s, queued, evicted) && size > 0 && TryAgain(net(s.calls))
    ensures OldestOut(Submit(s, e, size, net).0, queued', evicted')
  {
    RetryKeepsTheNewest(s, e, size, net);
    var cut := CutOff(s.queue + [e], size);
    EvictedAppends(s.ledger.settled, Evictions(cut));
    EvictedOfEvictions(cut);
    queued', evicted' := NewestKeepOrder(s.ledger.submitted, s.ledger.settled, s.queue, e, size, queued, evicted);
  }

  lemma SubmitKeepsOrder(s: State, e: Entry, size: nat, net: Network, queued: seq<nat>, evicted: seq<nat>)
    returns (queued': seq<nat>, evicted': seq<nat>)
    requires OldestOut(s, queued, evicted)
    ensures OldestOut(Submit(s, e, size, net).0, queued', evicted')
  {
    var u := Submitting(s, e);
    ClassifyMeans(net(s.calls));
    AttemptEvictsNobody(u, e, net);
    var (t, outcome) := Attempt(u, e, net);
    queued', evicted' := queued, evicted;
    match outcome {
      case Dropped =>
      case Raised => OtherFate(t.ledger, e, HasEscaped);
      case Written => queued' := DrainKeepsOrder(t, net, queued, evicted);
      case Retry =>
        if size == 0 {
          OtherFate(t.ledger, e, WasDiscarded);
        } else {
          queued', evicted' := RetryKeepsOrder(s, e, size, net, queued, evicted);
        }
    }
  }

  lemma {:induction false} RunKeepsOrder(s: State, ops: seq<Op>, size: nat, net: Network,
                                         queued: seq<nat>, evicted: seq<nat>)
    returns (queued': seq<nat>, evicted': seq<nat>)
    requires OldestOut(s, queued, evicted)
    ensures OldestOut(Run(s, ops, size, net), queued', evicted')
    decreases |ops|
  {
    if ops == [] {
      queued', evicted' := queued, evicted;
    } else {
      var q, x;
      match ops[0] {
        case Publish(e) => q, x := SubmitKeepsOrder(s, e, size, net, queued, evicted);
        case Flush =>
          q := DrainKeepsOrder(s, net, queued, evicted);
          x := evicted;
      }
      queued', evicted' := RunKeepsOrder(Apply(s, ops[0], size, net), ops[1..], size, net, q, x);
    }
  }

  /** Over every run and network: the queue and the evicted records each follow the
      order of submission, and no evicted record was submitted after a queued one. */
  lemma EvictsTheOldest(calls: nat, before: map<string, Record>, ops: seq<Op>, size: nat, net: Network)
    returns (queued: seq<nat>, evicted: seq<nat>)
    ensures var s := Run(Start(calls, before), ops, size, net);
      InOrder(Submitted(ops), s.queue, Evicted(s.ledger.settled), queued, evicted)
  {
    var s := RunFacts(Start(calls, before), ops, size, net, Entry("", ""));
    queued, evicted := RunKeepsOrder(Start(calls, before), ops, size, net, [], []);
  }
}
