/**
  The pipeline from wakeups to the repo: the publish protocol decides when
  observations are made, the stamps become record keys, and the retry queue
  carries the records to the repo over a network that may fail ambiguously.
*/
module EndToEnd {
  import opened Common
  import Protocol
  import Keys
  import Microseconds
  import Stamps
  import Strings
  import Tid
  import Truncation
  import Publisher
  import Delivery

  /** The records handed to the publisher are those of the run, each under the key of its stamp. */
  predicate Publishes(c: Protocol.Settings, rn: real -> real, s: Protocol.State, es: seq<Publisher.Entry>) {
    |es| == |s.log| && forall i :: 0 <= i < |es| ==> Keys.Key(c, rn, s, i) == Ok(es[i].rkey)
  }

  /** In publish order, which is the order a client lists the collection in. */
  predicate KeysAscend(es: seq<Publisher.Entry>) {
    forall i, j :: 0 <= i < j < |es| ==> Strings.Less(es[i].rkey, es[j].rkey)
  }

  lemma AscendingKeysAreDistinct(es: seq<Publisher.Entry>)
    requires KeysAscend(es)
    ensures Delivery.DistinctKeys(es)
  {
    forall i, j | 0 <= i < j < |es| ensures es[i].rkey != es[j].rkey {
      Strings.LessIsIrreflexive(es[i].rkey);
    }
  }

  /** Every interleaving of the bridge's threads, with safe settings, publishing over
      every network, to every repo, with every queue size and any flushes in between,
      leaves the repo as if each record had been written at most once, under keys that
      ascend in the order of publishing. */
  lemma EveryObservationOnce(c: Protocol.Settings, rn: real -> real, start: nat, steps: seq<Protocol.Step>,
                             calls: nat, before: map<string, Publisher.Record>,
                             ops: seq<Delivery.Op>, size: nat, net: Publisher.Network)
    requires Protocol.WellFormed(c) && Keys.Safe(c) && Microseconds.RoundsToNearest(rn)
    requires Protocol.Run(c, Protocol.Initial(start), steps).Some?
    requires Keys.Representable(c, Protocol.Run(c, Protocol.Initial(start), steps).value)
    requires Publishes(c, rn, Protocol.Run(c, Protocol.Initial(start), steps).value, Delivery.Submitted(ops))
    ensures KeysAscend(Delivery.Submitted(ops))
    ensures Delivery.ExactlyOnceEffect(Delivery.Run(Publisher.Start(calls, before), ops, size, net),
                                       Delivery.Submitted(ops), before)
  {
    Keys.SafeKeysIncrease(c, rn, start, steps);
    var s, es := Protocol.Run(c, Protocol.Initial(start), steps).value, Delivery.Submitted(ops);
    forall i, j | 0 <= i < j < |es| ensures Strings.Less(es[i].rkey, es[j].rkey) {
      assert Keys.Before(Keys.Key(c, rn, s, i), Keys.Key(c, rn, s, j));
    }
    AscendingKeysAreDistinct(es);
    Delivery.DistinctKeysGiveExactlyOnce(calls, before, ops, size, net);
  }

  // ----- stamps taken from readings -----------------------------------------

  /** The records of successive observations stamped by their newest reading, each
      under the key of its stamp. All times lie between 1970 and 2242, and no key
      loses a microsecond; Truncation.LosesExactlyWhen says which would. */
  ghost predicate FromReadings(c: Protocol.Settings, rn: real -> real, snapshots: Stamps.Snapshots, moments: seq<int>,
                               es: seq<Publisher.Entry>)
  {
    && Stamps.Stamped(snapshots, moments) && |es| == |moments|
    && forall i :: 0 <= i < |moments| ==>
      && 0 <= moments[i] < Microseconds.HORIZON && Truncation.Lossless(Protocol.ObservedAt(c, moments[i]))
      && Microseconds.TidFromMicros(rn, Stamps.FloatStamp(c, rn, moments[i])) == Ok(es[i].rkey)
  }

  lemma NotNegative(a: int, b: int)
    requires a >= 0 && b >= 0
    ensures a * b >= 0
  {
  }

  lemma StampSeconds(c: Protocol.Settings, moment: int) returns (seconds: nat)
    requires c.roundToSeconds > 1 && 0 <= moment
    ensures Protocol.ObservedAt(c, moment) == seconds * 1000000 <= moment
  {
    var q, d := moment / (c.roundToSeconds * Protocol.SECOND), c.roundToSeconds * Protocol.SECOND;
    Protocol.Quotients(moment, moment, d);
    NotNegative(q, c.roundToSeconds);
    Stamps.Regroup(q, c.roundToSeconds);
    seconds := q * c.roundToSeconds;
  }

  /** Rounding to whole seconds is enough for the keys to lose nothing. */
  lemma RoundedIsLossless(c: Protocol.Settings, rn: real -> real, moment: int)
    requires Truncation.RoundsHalfEven(rn) && c.roundToSeconds > 1 && 0 <= moment < Microseconds.HORIZON
    ensures Truncation.Lossless(Protocol.ObservedAt(c, moment))
  {
    var seconds := StampSeconds(c, moment);
    Microseconds.WholeSecondsAreExact(rn, seconds);
    Truncation.LosesExactlyWhen(rn, seconds * 1000000);
  }

  lemma StampInRange(c: Protocol.Settings, moment: int)
    requires 0 <= moment < Microseconds.HORIZON
    ensures 0 <= Protocol.ObservedAt(c, moment) <= moment
  {
    if c.roundToSeconds > 1 {
      var seconds := StampSeconds(c, moment);
    }
  }

  /** Two lossless stamps have one key only if they are one stamp. */
  lemma SameKeyExactlyWhen(rn: real -> real, n: int, n': int)
    requires Truncation.RoundsHalfEven(rn) && 0 <= n < Microseconds.HORIZON && 0 <= n' < Microseconds.HORIZON
    requires Truncation.Lossless(n) && Truncation.Lossless(n')
    ensures Microseconds.TidFromMicros(rn, n) == Microseconds.TidFromMicros(rn, n') <==> n == n'
  {
    Truncation.LosesExactlyWhen(rn, n);
    Truncation.LosesExactlyWhen(rn, n');
    Truncation.KeyEncodes(rn, n);
    Truncation.KeyEncodes(rn, n');
    Tid.DecodeEncode(n, 0);
    Tid.DecodeEncode(n', 0);
  }

  /** Two observations share a key exactly when their snapshots share a window. */
  lemma SharedKeyIsSharedWindow(c: Protocol.Settings, rn: real -> real, snapshots: Stamps.Snapshots, moments: seq<int>,
                                es: seq<Publisher.Entry>, i: nat, j: nat)
    requires Truncation.RoundsHalfEven(rn) && FromReadings(c, rn, snapshots, moments, es) && i < j < |es|
    ensures es[i].rkey == es[j].rkey <==> Stamps.SameWindow(c, snapshots[i].0, snapshots[j].0)
  {
    var m, m' := moments[i], moments[j];
    Stamps.FloatStampIsExact(c, rn, m);
    Stamps.FloatStampIsExact(c, rn, m');
    StampInRange(c, m);
    StampInRange(c, m');
    SameKeyExactlyWhen(rn, Protocol.ObservedAt(c, m), Protocol.ObservedAt(c, m'));
    Stamps.ReadingStamps(c, snapshots[i].0, snapshots[j].0, snapshots[i].1, snapshots[j].1, m, m');
  }

  /** Observations from one rounding window have one record. */
  predicate OneRecordPerWindow(c: Protocol.Settings, snapshots: Stamps.Snapshots, es: seq<Publisher.Entry>)
    requires |es| == |snapshots|
  {
    forall i, j :: 0 <= i < j < |es| && Stamps.SameWindow(c, snapshots[i].0, snapshots[j].0) ==>
      es[i].record == es[j].record
  }

  lemma WindowsAreKeys(c: Protocol.Settings, rn: real -> real, snapshots: Stamps.Snapshots, moments: seq<int>,
                       es: seq<Publisher.Entry>)
    requires Truncation.RoundsHalfEven(rn) && FromReadings(c, rn, snapshots, moments, es)
    ensures OneRecordPerWindow(c, snapshots, es) <==> Delivery.OneRecordPerKey(es)
  {
    forall i, j | 0 <= i < j < |es|
      ensures es[i].rkey == es[j].rkey <==> Stamps.SameWindow(c, snapshots[i].0, snapshots[j].0)
    {
      SharedKeyIsSharedWindow(c, rn, snapshots, moments, es, i, j);
    }
  }

  /** Stamped from readings, observations are written exactly once in effect as long
      as those from one rounding window have one record. */
  lemma EveryWindowOnce(c: Protocol.Settings, rn: real -> real, snapshots: Stamps.Snapshots, moments: seq<int>,
                        calls: nat, before: map<string, Publisher.Record>,
                        ops: seq<Delivery.Op>, size: nat, net: Publisher.Network)
    requires Truncation.RoundsHalfEven(rn) && FromReadings(c, rn, snapshots, moments, Delivery.Submitted(ops))
    requires OneRecordPerWindow(c, snapshots, Delivery.Submitted(ops))
    ensures Delivery.ExactlyOnceEffect(Delivery.Run(Publisher.Start(calls, before), ops, size, net),
                                       Delivery.Submitted(ops), before)
  {
    WindowsAreKeys(c, rn, snapshots, moments, Delivery.Submitted(ops));
    Delivery.DistinctKeysGiveExactlyOnce(calls, before, ops, size, net);
  }

  /** And the repo is certain to hold the newest observation of each key, once all are
      reported published, if and only if they do. */
  lemma NewestReadingsWinExactlyWhen(c: Protocol.Settings, rn: real -> real, snapshots: Stamps.Snapshots,
                                     moments: seq<int>, es: seq<Publisher.Entry>, size: nat)
    requires Truncation.RoundsHalfEven(rn) && FromReadings(c, rn, snapshots, moments, es) && size > 0
    ensures OneRecordPerWindow(c, snapshots, es) <==>
      forall before: map<string, Publisher.Record>, ops, net: Publisher.Network ::
        var s := Delivery.Run(Publisher.Start(0, before), ops, size, net);
        Delivery.Submitted(ops) == es && s.published == |es| ==> Delivery.NewestWins(s, es)
  {
    WindowsAreKeys(c, rn, snapshots, moments, es);
    Delivery.NewestWinsExactlyWhen(es, size);
  }
}
