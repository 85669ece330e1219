/**
  What the retry queue guarantees over whole runs: conservation, first-in
  first-out order, and exactly-once effect from at-least-once writes.
*/
module Delivery {
  import opened Publisher

  datatype Op = Publish(entry: Entry) | Flush

  function Apply(s: State, op: Op, size: nat, net: Network): State {
    match op
    case Publish(e) => Submit(s, e, size, net).0
    case Flush => Drain(s, net).0
  }

  /** A run of calls; an exception ends a call but not the run. */
  function Run(s: State, ops: seq<Op>, size: nat, net: Network): State
    decreases |ops|
  {
    if ops == [] then s else Run(Apply(s, ops[0], size, net), ops[1..], size, net)
  }

  function SubmittedBy(op: Op): seq<Entry> {
    if op.Publish? then [op.entry] else []
  }

  function Submitted(ops: seq<Op>): seq<Entry> {
    if ops == [] then []
    else SubmittedBy(ops[0]) + Submitted(ops[1..])
  }

  // ----- the invariant ------------------------------------------------------

  function Times(es: seq<Entry>, x: Entry): nat {
    if es == [] then 0 else Times(es[..|es| - 1], x) + if es[|es| - 1] == x then 1 else 0
  }

  function TimesSettled(settled: seq<Settlement>, x: Entry): nat {
    if settled == [] then 0
    else TimesSettled(settled[..|settled| - 1], x) + if settled[|settled| - 1].entry == x then 1 else 0
  }

  function Count(settled: seq<Settlement>, fate: Fate): nat {
    if settled == [] then 0
    else Count(settled[..|settled| - 1], fate) + if settled[|settled| - 1].fate == fate then 1 else 0
  }

  predicate IsSuffix(q: seq<Entry>, of: seq<Entry>) {
    |q| <= |of| && of[|of| - |q|..] == q
  }

  /** The books, for one record `x`: as often as it was submitted it is settled,
      queued, or still held by a call (`pending`). */
  predicate Books(s: State, size: nat, pending: seq<Entry>, x: Entry) {
    && Times(s.ledger.submitted, x) == TimesSettled(s.ledger.settled, x) + Times(s.queue, x) + Times(pending, x)
    && |s.ledger.submitted| == |s.ledger.settled| + |s.queue| + |pending|
    && s.published == Count(s.ledger.settled, WasWritten)
    && s.dropped == Count(s.ledger.settled, WasRejected) + Count(s.ledger.settled, WasEvicted)
    && |s.queue| <= size
    && IsSuffix(s.queue, s.ledger.enqueued)
    && (size > 0 ==> Count(s.ledger.settled, WasDiscarded) == 0)
  }

  /** What the repo holds was submitted under that key or was there `before`, what
      was there still has a record, and under the key of a record reported written
      there is a submitted one. */
  predicate Effects(s: State, before: map<string, Record>) {
    && RepoKnown(s, before)
    && WrittenHeld(s)
    && (forall e :: e in s.queue ==> e in s.ledger.submitted)
  }

  predicate RepoKnown(s: State, before: map<string, Record>) {
    && (forall k :: k in s.repo ==> Held(s, k) || (k in before && s.repo[k] == before[k]))
    && (forall k :: k in before ==> k in s.repo)
  }

  predicate WrittenHeld(s: State) {
    forall t :: t in s.ledger.settled && t.fate == WasWritten ==> Held(s, t.entry.rkey)
  }

  predicate Held(s: State, rkey: string) {
    rkey in s.repo && Entry(rkey, s.repo[rkey]) in s.ledger.submitted
  }

  // ----- preservation: the repo ---------------------------------------------

  lemma AttemptEffects(s: State, e: Entry, net: Network, before: map<string, Record>)
    requires Effects(s, before) && e in s.ledger.submitted
    ensures Effects(Attempt(s, e, net).0, before)
  {
    AttemptKeepsHeld(s, e, net);
  }

  lemma AttemptKeepsHeld(s: State, e: Entry, net: Network)
    requires e in s.ledger.submitted
    ensures var t := Attempt(s, e, net).0;
      && t.ledger.submitted == s.ledger.submitted && t.queue == s.queue
      && (forall k :: Held(s, k) ==> Held(t, k))
      && (t.repo == s.repo || (t.repo == s.repo[e.rkey := e.record] && Held(t, e.rkey)))
      && (t.ledger.settled == s.ledger.settled
          || t.ledger.settled == s.ledger.settled + [Settlement(e, WasRejected)]
          || (t.ledger.settled == s.ledger.settled + [Settlement(e, WasWritten)] && Held(t, e.rkey)))
  {
  }

  lemma {:induction false} DrainEffects(s: State, net: Network, before: map<string, Record>)
    requires Effects(s, before)
    ensures Effects(Drain(s, net).0, before) && Drain(s, net).0.ledger.submitted == s.ledger.submitted
    decreases |s.queue|
  {
    if s.queue == [] {
    } else {
      AttemptEffects(s, s.queue[0], net, before);
      DrainEffects(Attempt(s, s.queue[0], net).0.(queue := s.queue[1..]), net, before);
    }
  }

  lemma {:induction false} EvictEffects(s: State, size: nat, before: map<string, Record>)
    requires Effects(s, before)
    ensures Effects(Evict(s, size), before) && Evict(s, size).ledger.submitted == s.ledger.submitted
    decreases |s.queue|
  {
    if |s.queue| <= size {
    } else {
      EvictEffects(EvictOne(s), size, before);
    }
  }

  lemma SubmitEffects(s: State, e: Entry, size: nat, net: Network, before: map<string, Record>)
    requires Effects(s, before)
    ensures Effects(Submit(s, e, size, net).0, before)
    ensures Submit(s, e, size, net).0.ledger.submitted == s.ledger.submitted + [e]
  {
    var u := s.(ledger := s.ledger.(submitted := s.ledger.submitted + [e]));
    AttemptEffects(u, e, net, before);
    var (t, outcome) := Attempt(u, e, net);
    if outcome.Written? { DrainEffects(t, net, before); }
    if outcome.Retry? && size > 0 { EvictEffects(Append(t, e), size, before); }
  }

  lemma ApplyEffects(s: State, op: Op, size: nat, net: Network, before: map<string, Record>)
    requires Effects(s, before)
    ensures Effects(Apply(s, op, size, net), before)
    ensures Apply(s, op, size, net).ledger.submitted == s.ledger.submitted + SubmittedBy(op)
  {
    match op
    case Publish(e) => SubmitEffects(s, e, size, net, before);
    case Flush => DrainEffects(s, net, before);
  }

  lemma {:induction false} RunEffects(s: State, ops: seq<Op>, size: nat, net: Network, before: map<string, Record>)
    requires Effects(s, before)
    ensures Effects(Run(s, ops, size, net), before)
    decreases |ops|
  {
    if ops == [] {
    } else {
      ApplyEffects(s, ops[0], size, net, before);
      RunEffects(Apply(s, ops[0], size, net), ops[1..], size, net, before);
    }
  }

  lemma Associate(a: seq<Entry>, b: seq<Entry>, c: seq<Entry>)
    ensures a + b + c == a + (b + c)
  {
  }

  lemma {:induction false} RunSubmits(s: State, ops: seq<Op>, size: nat, net: Network, before: map<string, Record>)
    requires Effects(s, before)
    ensures Run(s, ops, size, net).ledger.submitted == s.ledger.submitted + Submitted(ops)
    decreases |ops|
  {
    if ops == [] {
    } else {
      ApplyEffects(s, ops[0], size, net, before);
      RunSubmits(Apply(s, ops[0], size, net), ops[1..], size, net, before);
      Associate(s.ledger.submitted, SubmittedBy(ops[0]), Submitted(ops[1..]));
    }
  }

  // ----- preservation: the books --------------------------------------------

  lemma {:induction false} TakeHead(q: seq<Entry>, x: Entry)
    requires q != []
    ensures Times(q, x) == Times([q[0]], x) + Times(q[1..], x)
  {
    if |q| <= 1 {
    } else {
      TakeHead(q[..|q| - 1], x);
      assert q[..|q| - 1][1..] == q[1..][..|q| - 2];
    }
  }

  lemma SettleBooks(l: Ledger, e: Entry, fate: Fate, x: Entry)
    ensures var m := l.Settle(e, fate).settled;
      && TimesSettled(m, x) == TimesSettled(l.settled, x) + Times([e], x)
      && forall f :: Count(m, f) == Count(l.settled, f) + (if f == fate then 1 else 0)
  {
  }

  /** A record a call was holding is written. */
  lemma WrittenBooks(s: State, size: nat, e: Entry, x: Entry)
    requires Books(s, size, [e], x)
    ensures Books(s.(published := s.published + 1, ledger := s.ledger.Settle(e, WasWritten)), size, [], x)
  {
    SettleBooks(s.ledger, e, WasWritten, x);
  }

  /** A record a call was holding is refused. */
  lemma RejectedBooks(s: State, size: nat, e: Entry, x: Entry)
    requires Books(s, size, [e], x)
    ensures Books(s.(dropped := s.dropped + 1, ledger := s.ledger.Settle(e, WasRejected)), size, [], x)
  {
    SettleBooks(s.ledger, e, WasRejected, x);
  }

  /** The books do not depend on the repo or the counts of calls and failures. */
  lemma SameBooks(s: State, t: State, size: nat, pending: seq<Entry>, x: Entry)
    requires Books(s, size, pending, x) && t.queue == s.queue && t.ledger == s.ledger
    requires t.published == s.published && t.dropped == s.dropped
    ensures Books(t, size, pending, x)
  {
  }

  lemma AttemptBooks(s: State, size: nat, e: Entry, net: Network, x: Entry)
    requires Books(s, size, [e], x)
    ensures var (t, outcome) := Attempt(s, e, net);
      Books(t, size, if outcome.Retry? || outcome.Raised? then [e] else [], x)
  {
    var t := Attempt(s, e, net).0;
    match Classify(net(s.calls))
    case Written =>
      WrittenBooks(s, size, e, x);
      SameBooks(s.(published := s.published + 1, ledger := s.ledger.Settle(e, WasWritten)), t, size, [], x);
    case Dropped =>
      RejectedBooks(s, size, e, x);
      SameBooks(s.(dropped := s.dropped + 1, ledger := s.ledger.Settle(e, WasRejected)), t, size, [], x);
    case Retry => SameBooks(s, t, size, [e], x);
    case Raised => SameBooks(s, t, size, [e], x);
  }

  lemma {:induction false} DrainBooks(s: State, size: nat, net: Network, x: Entry)
    requires Books(s, size, [], x)
    ensures Books(Drain(s, net).0, size, [], x)
    decreases |s.queue|
  {
    if s.queue == [] {
    } else {
      var e, rest := s.queue[0], s.queue[1..];
      TakeHead(s.queue, x);
      AttemptBooks(s.(queue := rest), size, e, net, x);
      if Classify(net(s.calls)).Written? || Classify(net(s.calls)).Dropped? {
        DrainBooks(Attempt(s, e, net).0.(queue := rest), size, net, x);
      }
    }
  }

  /** The queue may be over its bound by one while `size` is enforced. */
  lemma {:induction false} EvictBooks(s: State, size: nat, x: Entry)
    requires size > 0 && Books(s, size + 1, [], x)
    ensures Books(Evict(s, size), size, [], x)
    decreases |s.queue|
  {
    if |s.queue| <= size {
    } else {
      TakeHead(s.queue, x);
      SettleBooks(s.ledger, s.queue[0], WasEvicted, x);
      EvictBooks(EvictOne(s), size, x);
    }
  }

  lemma EnqueueBooks(s: State, e: Entry, size: nat, x: Entry)
    requires Books(s, size, [e], x)
    ensures Books(Enqueue(s, e, size), size, [], x)
  {
    if size > 0 {
      assert (s.queue + [e])[..|s.queue|] == s.queue;
      SuffixGrows(s.queue, s.ledger.enqueued, e);
      EvictBooks(Append(s, e), size, x);
    } else {
      SettleBooks(s.ledger, e, WasDiscarded, x);
    }
  }

  lemma SuffixGrows(q: seq<Entry>, of: seq<Entry>, e: Entry)
    requires IsSuffix(q, of)
    ensures IsSuffix(q + [e], of + [e])
  {
  }

  lemma SubmitBooks(s: State, e: Entry, size: nat, net: Network, x: Entry)
    requires Books(s, size, [], x)
    ensures Books(Submit(s, e, size, net).0, size, [], x)
  {
    var l := s.ledger;
    var u := s.(ledger := l.(submitted := l.submitted + [e]));
    assert u.ledger.submitted[..|l.submitted|] == l.submitted;
    AttemptBooks(u, size, e, net, x);
    var (t, outcome) := Attempt(u, e, net);
    match outcome
    case Retry => EnqueueBooks(t, e, size, x);
    case Dropped =>
    case Raised => SettleBooks(t.ledger, e, HasEscaped, x);
    case Written => DrainBooks(t, size, net, x);
  }

  lemma {:induction false} RunBooks(s: State, ops: seq<Op>, size: nat, net: Network, x: Entry)
    requires Books(s, size, [], x)
    ensures Books(Run(s, ops, size, net), size, [], x)
    decreases |ops|
  {
    if ops == [] {
    } else {
      match ops[0] {
        case Publish(e) => SubmitBooks(s, e, size, net, x);
        case Flush => DrainBooks(s, size, net, x);
      }
      RunBooks(Apply(s, ops[0], size, net), ops[1..], size, net, x);
    }
  }

  // ----- conservation and order ---------------------------------------------

  /** The record of call `i` left the queue for good. */
  predicate Settles(net: Network, i: nat) {
    Classify(net(i)).Written? || Classify(net(i)).Dropped?
  }

  /** From `s` to `t`, records left the queue at its front, one a call, and if any is
      left the last call failed for the one in front. */
  predicate DrainedTo(s: State, t: State, raised: bool, net: Network) {
    && |t.queue| <= |s.queue| && t.queue == s.queue[|s.queue| - |t.queue|..]
    && t.calls == s.calls + (|s.queue| - |t.queue|) + (if t.queue == [] then 0 else 1)
    && (forall i :: s.calls <= i < s.calls + |s.queue| - |t.queue| ==> Settles(net, i))
    && (t.queue != [] ==> Classify(net(t.calls - 1)) == if raised then Raised else Retry)
    && (raised ==> t.queue != [])
  }

  /** One record off the front of the queue. */
  function AfterFirst(s: State, net: Network): State
    requires s.queue != []
  {
    Attempt(s, s.queue[0], net).0.(queue := s.queue[1..])
  }

  lemma DrainedOneMore(s: State, u: State, t: State, raised: bool, net: Network)
    requires s.queue != [] && u.queue == s.queue[1..] && u.calls == s.calls + 1 && Settles(net, s.calls)
    requires DrainedTo(u, t, raised, net)
    ensures DrainedTo(s, t, raised, net)
  {
  }

  lemma DrainedNone(s: State, t: State, net: Network)
    requires s.queue != [] && t.queue == s.queue && t.calls == s.calls + 1 && !Settles(net, s.calls)
    ensures DrainedTo(s, t, Classify(net(s.calls)).Raised?, net)
  {
  }

  lemma AttemptFacts(s: State, net: Network)
    requires s.queue != []
    ensures var (t, outcome) := Attempt(s, s.queue[0], net);
      outcome == Classify(net(s.calls)) && t.calls == s.calls + 1 && t.queue == s.queue
  {
  }

  /** A drain attempts the oldest records in order and stops at the first that fails
      retryably or raises. */
  lemma {:induction false} DrainStopsAtFirstFailure(s: State, net: Network)
    ensures DrainedTo(s, Drain(s, net).0, Drain(s, net).1, net)
    decreases |s.queue|
  {
    if s.queue == [] {
    } else {
      AttemptFacts(s, net);
      if Settles(net, s.calls) {
        var u := AfterFirst(s, net);
        DrainStopsAtFirstFailure(u, net);
        DrainedOneMore(s, u, Drain(u, net).0, Drain(u, net).1, net);
        assert Drain(s, net) == Drain(u, net);
      } else {
        DrainedNone(s, Attempt(s, s.queue[0], net).0, net);
      }
    }
  }

  lemma {:induction false} FatesAddUp(settled: seq<Settlement>)
    ensures |settled| == Count(settled, WasWritten) + Count(settled, WasRejected) + Count(settled, WasEvicted)
                       + Count(settled, WasDiscarded) + Count(settled, HasEscaped)
  {
    if settled == [] {
    } else {
      FatesAddUp(settled[..|settled| - 1]);
    }
  }

  lemma RunFacts(start: State, ops: seq<Op>, size: nat, net: Network, x: Entry) returns (s: State)
    requires start == Start(start.calls, start.repo)
    ensures s == Run(start, ops, size, net) && s.ledger.submitted == Submitted(ops)
    ensures Effects(s, start.repo) && Books(s, size, [], x)
  {
    s := Run(start, ops, size, net);
    RunEffects(start, ops, size, net, start.repo);
    RunSubmits(start, ops, size, net, start.repo);
    RunBooks(start, ops, size, net, x);
  }

  /** Conservation over every run and every network: with a queue, what was
      published, dropped, queued or lost to an exception adds up to the calls made;
      the queue respects its bound and is always the latest records ever queued. */
  lemma QueueConservation(calls: nat, before: map<string, Record>, ops: seq<Op>, size: nat, net: Network)
    ensures var s := Run(Start(calls, before), ops, size, net);
      && s.published + s.dropped + |s.queue| + Count(s.ledger.settled, HasEscaped)
           + Count(s.ledger.settled, WasDiscarded) == |Submitted(ops)|
      && (size > 0 ==> Count(s.ledger.settled, WasDiscarded) == 0)
      && |s.queue| <= size
      && IsSuffix(s.queue, s.ledger.enqueued)
  {
    var s := RunFacts(Start(calls, before), ops, size, net, Entry("", ""));
    FatesAddUp(s.ledger.settled);
  }

  /** The same, record by record: each is settled or queued as often as submitted. */
  lemma EveryRecordIsSomewhere(calls: nat, before: map<string, Record>, ops: seq<Op>, size: nat, net: Network, x: Entry)
    ensures var s := Run(Start(calls, before), ops, size, net);
      multiset(Submitted(ops))[x] == TimesSettled(s.ledger.settled, x) + multiset(s.queue)[x]
  {
    var s := RunFacts(Start(calls, before), ops, size, net, x);
    TimesIsMultiplicity(Submitted(ops), x);
    TimesIsMultiplicity(s.queue, x);
  }

  lemma {:induction false} TimesIsMultiplicity(es: seq<Entry>, x: Entry)
    ensures Times(es, x) == multiset(es)[x]
  {
    if es == [] {
    } else {
      TimesIsMultiplicity(es[..|es| - 1], x);
      assert es == es[..|es| - 1] + [es[|es| - 1]];
    }
  }

  // ----- exactly-once effect ------------------------------------------------

  predicate DistinctKeys(es: seq<Entry>) {
    forall i, j :: 0 <= i < j < |es| ==> es[i].rkey != es[j].rkey
  }

  /** Distinct keys, or at least no two records for one. */
  predicate OneRecordPerKey(es: seq<Entry>) {
    forall i, j :: 0 <= i < j < |es| && es[i].rkey == es[j].rkey ==> es[i].record == es[j].record
  }

  /** Where a record that is not in the repo can be. */
  predicate AccountedFor(s: State, e: Entry) {
    || e in s.queue
    || Settlement(e, WasRejected) in s.ledger.settled
    || Settlement(e, WasEvicted) in s.ledger.settled
    || Settlement(e, WasDiscarded) in s.ledger.settled
    || Settlement(e, HasEscaped) in s.ledger.settled
  }

  predicate Landed(s: State, e: Entry) {
    e.rkey in s.repo && s.repo[e.rkey] == e.record
  }

  /** `k` holds what it held before the run, or still nothing. */
  predicate Untouched(s: State, before: map<string, Record>, k: string) {
    (k in s.repo <==> k in before) && (k in before ==> s.repo[k] == before[k])
  }

  predicate SubmittedUnder(es: seq<Entry>, k: string) {
    exists i :: 0 <= i < |es| && es[i].rkey == k
  }

  /** The effect of a run is that of writing each record at most once: its key holds
      it or is untouched, every record reported written is there, every other one is
      accounted for, and keys that were not submitted are untouched. */
  ghost predicate ExactlyOnceEffect(s: State, submitted: seq<Entry>, before: map<string, Record>) {
    && (forall e :: e in submitted ==> Landed(s, e) || Untouched(s, before, e.rkey))
    && (forall e :: e in submitted && Settlement(e, WasWritten) in s.ledger.settled ==> Landed(s, e))
    && (forall e :: e in submitted && !Landed(s, e) ==> AccountedFor(s, e))
    && (forall k :: !SubmittedUnder(submitted, k) ==> Untouched(s, before, k))
  }

  /** At-least-once writes have exactly-once effect whenever no key is used for two
      records, for every repo at the start, every network and every choice of
      ambiguous failures. */
  lemma DistinctKeysGiveExactlyOnce(calls: nat, before: map<string, Record>, ops: seq<Op>, size: nat, net: Network)
    requires OneRecordPerKey(Submitted(ops))
    ensures ExactlyOnceEffect(Run(Start(calls, before), ops, size, net), Submitted(ops), before)
  {
    var es := Submitted(ops);
    var s := RunFacts(Start(calls, before), ops, size, net, Entry("", ""));
    forall e, k | e in es && k == e.rkey && k in s.repo && Entry(k, s.repo[k]) in es ensures Landed(s, e) {
      SameKeySameEntry(es, e, Entry(k, s.repo[k]));
    }
    forall k | !SubmittedUnder(es, k) ensures Untouched(s, before, k) {
      NotSubmitted(es, k);
    }
    forall e | e in es && !Landed(s, e) ensures AccountedFor(s, e) {
      assert Settlement(e, WasWritten) in s.ledger.settled ==> Held(s, e.rkey);
      AbsentIsAccountedFor(calls, before, ops, size, net, e);
    }
  }

  lemma SameKeySameEntry(es: seq<Entry>, e: Entry, f: Entry)
    requires OneRecordPerKey(es) && e in es && f in es && e.rkey == f.rkey
    ensures e == f
  {
  }

  lemma NotSubmitted(es: seq<Entry>, k: string)
    requires !SubmittedUnder(es, k)
    ensures forall r: Record :: Entry(k, r) !in es
  {
  }

  /** A submitted record not reported written is queued or settled otherwise. */
  lemma AbsentIsAccountedFor(calls: nat, before: map<string, Record>, ops: seq<Op>, size: nat, net: Network, e: Entry)
    requires e in Submitted(ops)
    requires Settlement(e, WasWritten) !in Run(Start(calls, before), ops, size, net).ledger.settled
    ensures AccountedFor(Run(Start(calls, before), ops, size, net), e)
  {
    var s := RunFacts(Start(calls, before), ops, size, net, e);
    TimesIsMultiplicity(Submitted(ops), e);
    TimesIsMultiplicity(s.queue, e);
    if e !in s.queue {
      var t := SettledSomewhere(s.ledger.settled, e);
    }
  }

  lemma {:induction false} SettledSomewhere(settled: seq<Settlement>, e: Entry) returns (t: Settlement)
    requires TimesSettled(settled, e) > 0
    ensures t in settled && t.entry == e
  {
    if settled[|settled| - 1].entry == e {
      t := settled[|settled| - 1];
    } else {
      t := SettledSomewhere(settled[..|settled| - 1], e);
    }
  }

  // ----- shared keys --------------------------------------------------------

  function PublishAll(es: seq<Entry>): seq<Op> {
    seq(|es|, i requires 0 <= i < |es| => Publish(es[i]))
  }

  /** Each key submitted holds the record submitted last under it. */
  predicate NewestWins(s: State, es: seq<Entry>) {
    forall i :: 0 <= i < |es| && (forall j :: i < j < |es| ==> es[j].rkey != es[i].rkey) ==> Landed(s, es[i])
  }

  /** Whenever everything is reported published, the newest record of each key is the
      one in the repo: with a queue this holds over all runs and networks if and only
      if no two different records share a key. */
  lemma NewestWinsExactlyWhen(es: seq<Entry>, size: nat)
    requires size > 0
    ensures OneRecordPerKey(es) <==>
      forall before: map<string, Record>, ops, net: Network ::
        var s := Run(Start(0, before), ops, size, net);
        Submitted(ops) == es && s.published == |es| ==> NewestWins(s, es)
  {
    if OneRecordPerKey(es) {
      forall before: map<string, Record>, ops, net: Network
        ensures var s := Run(Start(0, before), ops, size, net);
          Submitted(ops) == es && s.published == |es| ==> NewestWins(s, es)
      {
        if Submitted(ops) == es && Run(Start(0, before), ops, size, net).published == |es| {
          AllPublishedLanded(before, ops, size, net);
        }
      }
    } else {
      var i, j :| 0 <= i < j < |es| && es[i].rkey == es[j].rkey && es[i].record != es[j].record;
      var last := SharedKeyCanLoseTheNewest(es, i, j, size);
      SubmittedOfAll(es);
    }
  }

  lemma AllPublishedLanded(before: map<string, Record>, ops: seq<Op>, size: nat, net: Network)
    requires OneRecordPerKey(Submitted(ops))
    requires Run(Start(0, before), ops, size, net).published == |Submitted(ops)|
    ensures NewestWins(Run(Start(0, before), ops, size, net), Submitted(ops))
  {
    var s := RunFacts(Start(0, before), ops, size, net, Entry("", ""));
    FatesAddUp(s.ledger.settled);
    DistinctKeysGiveExactlyOnce(0, before, ops, size, net);
    forall e | e in Submitted(ops) ensures Landed(s, e) {
      if !Landed(s, e) {
        OtherFatesCount(s.ledger.settled, e);
      }
    }
  }

  lemma {:induction false} OtherFatesCount(settled: seq<Settlement>, e: Entry)
    ensures Settlement(e, WasRejected) in settled ==> Count(settled, WasRejected) > 0
    ensures Settlement(e, WasEvicted) in settled ==> Count(settled, WasEvicted) > 0
    ensures Settlement(e, WasDiscarded) in settled ==> Count(settled, WasDiscarded) > 0
    ensures Settlement(e, HasEscaped) in settled ==> Count(settled, HasEscaped) > 0
  {
    if settled == [] {
    } else {
      var most, last := settled[..|settled| - 1], settled[|settled| - 1];
      OtherFatesCount(most, e);
      assert settled == most + [last];
    }
  }

  lemma {:induction false} SubmittedOfAll(es: seq<Entry>)
    ensures Submitted(PublishAll(es)) == es
  {
    if es == [] {
    } else {
      assert PublishAll(es)[1..] == PublishAll(es[1..]);
      SubmittedOfAll(es[1..]);
    }
  }

  /** The network that holds back record `i` until just after record `m`: its own call
      fails, and so does every drain before that. */
  function HoldBack(i: nat, m: nat): Network {
    n => if n == i || (i < n < 2 * m - i - 1 && (n - i) % 2 == 0) then Unreachable(false) else Accepted
  }

  /** The state after the first `k` publishes on that network. */
  predicate Progress(s: State, es: seq<Entry>, k: nat, i: nat, m: nat)
    requires i < m < |es|
  {
    if k <= i then s.queue == [] && s.calls == k && s.published == k
    else if k <= m then s.queue == [es[i]] && s.calls == 2 * k - i - 1 && s.published == k - 1
    else s.queue == [] && s.calls == k + m - i && s.published == k && Landed(s, es[i])
  }

  lemma OneAlone(s: State, e: Entry, size: nat, net: Network)
    requires s.queue == [] && size > 0 && (net(s.calls) == Accepted || net(s.calls) == Unreachable(false))
    ensures var t := Submit(s, e, size, net).0;
      && t.calls == s.calls + 1
      && (net(s.calls) == Accepted ==>
            t.queue == [] && t.published == s.published + 1 && t.repo == s.repo[e.rkey := e.record])
      && (net(s.calls) == Unreachable(false) ==> t.queue == [e] && t.published == s.published)
  {
  }

  lemma OneWithQueue(s: State, x: Entry, e: Entry, size: nat, net: Network)
    requires s.queue == [x] && net(s.calls) == Accepted
    requires net(s.calls + 1) == Accepted || net(s.calls + 1) == Unreachable(false)
    ensures var t := Submit(s, e, size, net).0;
      && t.calls == s.calls + 2
      && (net(s.calls + 1) == Accepted ==> t.queue == [] && t.published == s.published + 2 && Landed(t, x))
      && (net(s.calls + 1) == Unreachable(false) ==> t.queue == [x] && t.published == s.published + 1)
  {
    var (t, outcome) := Attempt(s.(ledger := s.ledger.(submitted := s.ledger.submitted + [e])), e, net);
    var (u, second) := Attempt(t, x, net);
    assert t.queue[1..] == [];
    assert second.Written? ==> Drain(t, net).0 == u.(queue := []);
  }

  lemma ProgressStep(s: State, es: seq<Entry>, k: nat, i: nat, m: nat, size: nat)
    requires i < m < |es| && k < |es| && size > 0 && Progress(s, es, k, i, m)
    requires k > m ==> es[k].rkey != es[i].rkey
    ensures Progress(Submit(s, es[k], size, HoldBack(i, m)).0, es, k + 1, i, m)
  {
    if i < k <= m {
      OneWithQueue(s, es[i], es[k], size, HoldBack(i, m));
    } else {
      OneAlone(s, es[k], size, HoldBack(i, m));
    }
  }

  lemma PublishAllFrom(es: seq<Entry>, k: nat)
    requires k < |es|
    ensures PublishAll(es[k..]) != [] && PublishAll(es[k..])[0] == Publish(es[k])
    ensures PublishAll(es[k..])[1..] == PublishAll(es[k + 1..])
  {
  }

  lemma {:induction false} ProgressRun(s: State, es: seq<Entry>, k: nat, i: nat, m: nat, size: nat)
    requires i < m < |es| && k <= |es| && size > 0 && Progress(s, es, k, i, m)
    requires forall j :: m < j < |es| ==> es[j].rkey != es[i].rkey
    ensures Progress(Run(s, PublishAll(es[k..]), size, HoldBack(i, m)), es, |es|, i, m)
    decreases |es| - k
  {
    if k == |es| {
    } else {
      ProgressStep(s, es, k, i, m, size);
      PublishAllFrom(es, k);
      ProgressRun(Submit(s, es[k], size, HoldBack(i, m)).0, es, k + 1, i, m, size);
    }
  }

  /** The last index from `j` on with the key of `j`. */
  function LastUnder(es: seq<Entry>, j: nat, n: nat): (m: nat)
    requires j < n <= |es|
    ensures j <= m < n && es[m].rkey == es[j].rkey && forall k :: m < k < n ==> es[k].rkey != es[j].rkey
    decreases n
  {
    if es[n - 1].rkey == es[j].rkey then n - 1 else LastUnder(es, j, n - 1)
  }

  /** Two different records under one key have a network on which everything is
      reported published and the key's newest record is not the one left. */
  lemma SharedKeyCanLoseTheNewest(es: seq<Entry>, a: nat, b: nat, size: nat) returns (i: nat)
    requires a < b < |es| && es[a].rkey == es[b].rkey && es[a].record != es[b].record && size > 0
    ensures i < LastUnder(es, b, |es|) && (i == a || i == b)
    ensures var m := LastUnder(es, b, |es|);
      var s := Run(Start(0, map[]), PublishAll(es), size, HoldBack(i, m));
      s.published == |es| && s.queue == [] && Landed(s, es[i]) && !Landed(s, es[m]) && !NewestWins(s, es)
  {
    var m := LastUnder(es, b, |es|);
    i := if es[m].record != es[a].record then a else b;
    assert es[0..] == es;
    ProgressRun(Start(0, map[]), es, 0, i, m, size);
  }

  /** The two-record case. */
  lemma SharedKeyLosesTheNewer(older: Entry, newer: Entry, size: nat)
    requires older.rkey == newer.rkey && older.record != newer.record && size > 0
    ensures exists net: Network ::
      var s := Run(Start(0, map[]), [Publish(older), Publish(newer)], size, net);
      s.published == 2 && s.repo == map[older.rkey := older.record]
  {
    var es := [older, newer];
    var i := SharedKeyCanLoseTheNewest(es, 0, 1, size);
    assert PublishAll(es) == [Publish(older), Publish(newer)];
    SubmittedOfAll(es);
    var s := RunFacts(Start(0, map[]), PublishAll(es), size, HoldBack(0, 1), older);
  }
}
