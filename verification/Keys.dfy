/**
  When record keys stay distinct: the spacing the protocol guarantees, the check
  config.py makes (_assert_keys_stay_distinct), and the exact condition under
  which every run stamps its observations at strictly increasing times.
*/
module Keys {
  import opened Common
  import opened Protocol
  import Strings
  import Tid
  import Microseconds

  /** _assert_keys_stay_distinct: does the config load? */
  function AssertKeysStayDistinct(c: Settings): (r: Result<(), string>)
  {
    if c.roundToSeconds == 0 then Ok(())
    else
      var gap := if c.mode.Interval? then c.intervalSeconds else c.minIntervalSeconds;
      if gap == 0 || c.roundToSeconds <= gap then Ok(())
      else Err(if c.mode.Interval? then "intervalSeconds" else "minIntervalSeconds")
  }

  /** What distinct keys take: a gap in onMessage mode, a rounding step no longer
      than the gap, and dividing it when publishes are aligned to boundaries. */
  predicate Safe(c: Settings) {
    if c.mode.OnMessage? then c.minIntervalSeconds >= 1 && c.roundToSeconds <= c.minIntervalSeconds
    else c.roundToSeconds <= 1 ||
         (c.roundToSeconds <= c.intervalSeconds
          && (c.alignToInterval ==> c.intervalSeconds % c.roundToSeconds == 0))
  }

  function Stamp(c: Settings, s: State, i: nat): int
    requires i < |s.log|
  {
    ObservedAt(c, s.log[i].moment)
  }

  predicate StampsIncrease(c: Settings, s: State) {
    forall i :: 0 < i < |s.log| ==> Stamp(c, s, i - 1) < Stamp(c, s, i)
  }

  // ----- sufficiency --------------------------------------------------------

  lemma FloorStrict(a: int, b: int, m: int)
    requires m > 0 && a + m <= b
    ensures a / m < b / m && a / m * m < b / m * m
  {
  }

  lemma DividesBoundary(k: int, i: nat, r: nat)
    requires r > 0 && i % r == 0
    ensures k * (i * SECOND) % (r * SECOND) == 0
  {
    var q := i / r;
    assert k * (i * SECOND) == (k * q) * (r * SECOND);
    MultipleMod(k * q, r * SECOND);
  }

  lemma MultipleMod(a: int, m: int)
    requires m > 0
    ensures a * m % m == 0 && a * m / m == a
  {
    Quotients(a * m, a * m, m);
    var q := a * m / m;
    if q < a { Scale(q + 1, a, m); }
    if a < q { Scale(a + 1, q, m); }
  }

  lemma BelowMultiple(x: int, b: int, m: int)
    requires m > 0 && x < b && b % m == 0
    ensures x / m < b / m
  {
  }

  /** One spaced pair of publishes is stamped in order when the settings are safe. */
  lemma SpacedStampsIncrease(c: Settings, moment: int, committed: int, next: int)
    requires WellFormed(c) && Safe(c) && moment <= committed && Earliest(c, committed) <= next
    ensures ObservedAt(c, moment) < ObservedAt(c, next)
    ensures !(c.mode.Interval? && c.alignToInterval && c.roundToSeconds <= 1) ==>
      ObservedAt(c, moment) + SECOND <= ObservedAt(c, next)
  {
    var m, r := c.roundToSeconds * SECOND, c.roundToSeconds;
    if c.mode.Interval? && c.alignToInterval {
      NextBoundaryMonotone(c, moment, committed);
      if r > 1 {
        var b := NextBoundary(c, moment);
        DividesBoundary(moment / (c.intervalSeconds * SECOND) + 1, c.intervalSeconds, r);
        BelowMultiple(moment, b, m);
        Quotients(b, next, m);
        StepApart(moment / m, next / m, m);
      }
    } else if r > 1 {
      FloorStrict(moment, next, m);
      StepApart(moment / m, next / m, m);
    }
  }

  lemma StepApart(a: int, b: int, m: int)
    requires a < b && m >= SECOND
    ensures a * m + SECOND <= b * m
  {
  }

  // ----- necessity: runs that stamp two observations alike ------------------

  /** From the loop head to the start of a publish, woken `wait` later. */
  function IntervalWait(wait: nat): seq<Step> {
    [TestLoop, Schedule, Tick(wait)] + [WakeUp, ClearWake, Retest]
  }

  /** A trigger arrives and, `wait` later, is taken up. */
  function TriggerWait(wait: nat): seq<Step> {
    [Store, Mark, Signal, Tick(wait)] + [TestLoop, ReadFlag, Measure, ClearFlag]
  }

  function PublishSteps(): seq<Step> {
    [ReadClock, Snapshot, Commit, FinishWrite]
  }

  function IntervalRound(wait: nat): seq<Step> {
    IntervalWait(wait) + PublishSteps()
  }

  function TriggerRound(wait: nat): seq<Step> {
    TriggerWait(wait) + PublishSteps()
  }

  predicate AtRest(s: State) {
    s.publisher.LoopTest? && s.message.Receiving? && !s.stopping && s.stopper.Running?
  }

  /** A run spelled out state by state. */
  predicate Trace(c: Settings, states: seq<State>, steps: seq<Step>)
    requires WellFormed(c)
  {
    && |states| == |steps| + 1
    && forall i :: 0 <= i < |steps| ==>
         Enabled(c, states[i], steps[i]) && states[i + 1] == Do(c, states[i], steps[i])
  }

  lemma {:induction false} TraceIsRun(c: Settings, states: seq<State>, steps: seq<Step>)
    requires WellFormed(c) && Trace(c, states, steps)
    ensures Run(c, states[0], steps) == Some(states[|steps|])
    decreases |steps|
  {
    if steps == [] {
    } else {
      TraceIsRun(c, states[1..], steps[1..]);
    }
  }

  /** The state after a publish that starts in `s`, which takes no time. */
  function Published(s: State): State {
    s.(publisher := LoopTest, covered := s.stored, lastPublished := Some(s.now),
       log := s.log + [Handover(s.now, s.now)])
  }

  lemma PublishRuns(c: Settings, s: State)
    requires WellFormed(c) && s.publisher.Starting?
    ensures Run(c, s, PublishSteps()) == Some(Published(s))
  {
    var d := s.(covered := s.stored, publisher := Deciding(s.now));
    TraceIsRun(c, [s, s.(publisher := Collecting(s.now)), d, Published(s).(publisher := Writing), Published(s)],
               PublishSteps());
  }

  /** The state of a publisher asleep until its deadline, at time `now`. */
  function Asleep(c: Settings, s: State, now: int): State
    requires WellFormed(c)
  {
    s.(publisher := Waiting(Some(Deadline(c, s.now))), now := now)
  }

  lemma FallAsleep(c: Settings, s: State, wait: nat)
    requires WellFormed(c) && c.mode.Interval? && AtRest(s)
    ensures Run(c, s, [TestLoop, Schedule, Tick(wait)]) == Some(Asleep(c, s, s.now + wait))
  {
    TraceIsRun(c, [s, s.(publisher := Scheduling), Asleep(c, s, s.now), Asleep(c, s, s.now + wait)],
               [TestLoop, Schedule, Tick(wait)]);
  }

  lemma AwakenOnTime(c: Settings, s: State, now: int)
    requires WellFormed(c) && c.mode.Interval? && AtRest(s) && Deadline(c, s.now) <= now
    ensures Run(c, Asleep(c, s, now), [WakeUp, ClearWake, Retest]) ==
      Some(s.(now := now, wake := false, publisher := Starting))
  {
  }

  lemma IntervalWaitRuns(c: Settings, s: State, wait: nat)
    requires WellFormed(c) && c.mode.Interval? && AtRest(s) && Deadline(c, s.now) <= s.now + wait
    ensures Run(c, s, IntervalWait(wait)) == Some(s.(now := s.now + wait, wake := false, publisher := Starting))
  {
    FallAsleep(c, s, wait);
    AwakenOnTime(c, s, s.now + wait);
    RunAppend(c, s, [TestLoop, Schedule, Tick(wait)], [WakeUp, ClearWake, Retest]);
  }

  /** The state in which a trigger stored in `s` has been taken up `wait` later. */
  function TakenUp(s: State, wait: nat): State {
    s.(now := s.now + wait, stored := s.stored + 1, pending := false, wake := true, publisher := Starting)
  }

  lemma TriggerArrives(c: Settings, s: State, wait: nat)
    requires WellFormed(c) && c.mode.OnMessage? && AtRest(s)
    ensures Run(c, s, [Store, Mark, Signal, Tick(wait)]) ==
      Some(TakenUp(s, wait).(pending := true, publisher := LoopTest))
  {
    var a := s.(stored := s.stored + 1);
    var b := a.(pending := true);
    var w := b.(wake := true);
    TraceIsRun(c, [s, a.(message := Marking), b.(message := Signalling), w, w.(now := s.now + wait)],
               [Store, Mark, Signal, Tick(wait)]);
  }

  lemma TriggerTaken(c: Settings, t: State)
    requires WellFormed(c) && c.mode.OnMessage? && AtRest(t) && t.pending && Due(c, t)
    ensures Run(c, t, [TestLoop, ReadFlag, Measure, ClearFlag]) == Some(t.(pending := false, publisher := Starting))
  {
  }

  lemma TriggerWaitRuns(c: Settings, s: State, wait: nat)
    requires WellFormed(c) && c.mode.OnMessage? && AtRest(s) && Due(c, s.(now := s.now + wait))
    ensures Run(c, s, TriggerWait(wait)) == Some(TakenUp(s, wait))
  {
    TriggerArrives(c, s, wait);
    TriggerTaken(c, TakenUp(s, wait).(pending := true, publisher := LoopTest));
    RunAppend(c, s, [Store, Mark, Signal, Tick(wait)], [TestLoop, ReadFlag, Measure, ClearFlag]);
  }

  lemma IntervalRoundRuns(c: Settings, s: State, wait: nat)
    requires WellFormed(c) && c.mode.Interval? && AtRest(s) && Deadline(c, s.now) <= s.now + wait
    ensures Run(c, s, IntervalRound(wait)) ==
      Some(Published(s.(now := s.now + wait, wake := false, publisher := Starting)))
  {
    var t := s.(now := s.now + wait, wake := false, publisher := Starting);
    IntervalWaitRuns(c, s, wait);
    PublishRuns(c, t);
    RunAppend(c, s, IntervalWait(wait), PublishSteps());
  }

  lemma TriggerRoundRuns(c: Settings, s: State, wait: nat)
    requires WellFormed(c) && c.mode.OnMessage? && AtRest(s) && Due(c, s.(now := s.now + wait))
    ensures Run(c, s, TriggerRound(wait)) == Some(Published(TakenUp(s, wait)))
  {
    TriggerWaitRuns(c, s, wait);
    PublishRuns(c, TakenUp(s, wait));
    RunAppend(c, s, TriggerWait(wait), PublishSteps());
  }

  /** Settings that are not safe have a run that gives two observations one stamp. */
  lemma UnsafeSettingsCollide(c: Settings) returns (start: nat, steps: seq<Step>)
    requires WellFormed(c) && !Safe(c)
    ensures Run(c, Initial(start), steps).Some?
    ensures !StampsIncrease(c, Run(c, Initial(start), steps).value)
  {
    if c.mode.OnMessage? {
      start := 0;
      steps := TriggerCollision(c);
    } else {
      start, steps := IntervalCollision(c);
    }
  }

  lemma TriggerCollision(c: Settings) returns (steps: seq<Step>)
    requires WellFormed(c) && c.mode.OnMessage? && !Safe(c)
    ensures Run(c, Initial(0), steps).Some?
    ensures !StampsIncrease(c, Run(c, Initial(0), steps).value)
  {
    var gap := c.minIntervalSeconds * SECOND;
    steps := TwoTriggers(c, gap);
    if c.roundToSeconds > 1 {
      SmallQuotient(gap, c.roundToSeconds * SECOND);
      SmallQuotient(0, c.roundToSeconds * SECOND);
    }
    var t := Run(c, Initial(0), steps).value;
    assert Stamp(c, t, 0) >= Stamp(c, t, 1);
  }

  lemma TwoTriggers(c: Settings, gap: nat) returns (steps: seq<Step>)
    requires WellFormed(c) && c.mode.OnMessage? && gap == c.minIntervalSeconds * SECOND
    ensures Run(c, Initial(0), steps).Some?
    ensures Run(c, Initial(0), steps).value.log == [Handover(0, 0), Handover(gap, gap)]
  {
    TriggerRoundRuns(c, Initial(0), 0);
    var s := Published(TakenUp(Initial(0), 0));
    TriggerRoundRuns(c, s, gap);
    RunAppend(c, Initial(0), TriggerRound(0), TriggerRound(gap));
    steps := TriggerRound(0) + TriggerRound(gap);
  }

  lemma SmallQuotient(a: int, m: int)
    requires 0 <= a < m
    ensures a / m == 0
  {
  }

  /** Two rounds, the first woken at `first` and the second at `second`. */
  lemma TwoRounds(c: Settings, start: nat, first: nat, second: nat) returns (steps: seq<Step>)
    requires WellFormed(c) && c.mode.Interval? && start <= first <= second
    requires Deadline(c, start) <= first && Deadline(c, first) <= second
    ensures Run(c, Initial(start), steps).Some?
    ensures Run(c, Initial(start), steps).value.log == [Handover(first, first), Handover(second, second)]
  {
    IntervalRoundRuns(c, Initial(start), first - start);
    var s := Run(c, Initial(start), IntervalRound(first - start)).value;
    IntervalRoundRuns(c, s, second - first);
    RunAppend(c, Initial(start), IntervalRound(first - start), IntervalRound(second - first));
    steps := IntervalRound(first - start) + IntervalRound(second - first);
  }

  lemma IntervalCollision(c: Settings) returns (start: nat, steps: seq<Step>)
    requires WellFormed(c) && c.mode.Interval? && !Safe(c)
    ensures Run(c, Initial(start), steps).Some?
    ensures !StampsIncrease(c, Run(c, Initial(start), steps).value)
  {
    var first: nat, second: nat;
    if c.alignToInterval {
      start, first, second := LateWakeup(c);
    } else {
      var im, rm := c.intervalSeconds * SECOND, c.roundToSeconds * SECOND;
      start, first, second := rm - im, rm, rm + im;
      DivIs(first, 1, rm, 0);
      DivIs(second, 1, rm, im);
    }
    steps := TwoRounds(c, start, first, second);
    var s := Run(c, Initial(start), steps).value;
    assert Stamp(c, s, 0) == Stamp(c, s, 1);
  }

  /** A late wakeup one microsecond before a boundary that is not a multiple of the
      rounding step, and then the boundary itself. */
  lemma LateWakeup(c: Settings) returns (start: nat, first: nat, second: nat)
    requires WellFormed(c) && c.mode.Interval? && c.alignToInterval && !Safe(c)
    ensures start <= first <= second && Deadline(c, start) <= first && Deadline(c, first) <= second
    ensures ObservedAt(c, first) == ObservedAt(c, second)
  {
    var i, r := c.intervalSeconds, c.roundToSeconds;
    var im := i * SECOND;
    var k := if 2 * i % r != 0 then 2 else 3;
    MissedBoundary(i, r);
    var b := k * i;
    start, first, second := (k - 2) * im, b * SECOND - 1, b * SECOND;
    DivIs(start, k - 2, im, 0);
    DivIs(first, k - 1, im, im - 1);
    SameBucket(b, r);
  }

  lemma SameBucket(b: nat, r: nat)
    requires r > 0 && b % r != 0
    ensures (b * SECOND - 1) / (r * SECOND) == b * SECOND / (r * SECOND)
  {
    var q, e, m := b / r, b % r, r * SECOND;
    assert b == q * r + e;
    assert b * SECOND == q * m + e * SECOND;
    DivIs(b * SECOND, q, m, e * SECOND);
    DivIs(b * SECOND - 1, q, m, e * SECOND - 1);
  }

  lemma MissedBoundary(i: nat, r: nat)
    requires r > 0 && i % r != 0
    ensures 2 * i % r == 0 ==> 3 * i % r != 0
  {
    if 2 * i % r == 0 && 3 * i % r == 0 {
      Quotients(2 * i, 2 * i, r);
      Quotients(3 * i, 3 * i, r);
      var a := 3 * i / r - 2 * i / r;
      assert i == a * r;
      MultipleMod(a, r);
    }
  }

  lemma DivIs(x: int, q: int, m: int, e: int)
    requires m > 0 && 0 <= e < m && x == q * m + e
    ensures x / m == q && x % m == e
  {
    Quotients(x, x, m);
    if x / m < q { Scale(x / m + 1, q, m); }
    if q < x / m { Scale(q + 1, x / m, m); }
  }

  // ----- main results -------------------------------------------------------

  /** Every run from every start stamps its observations at strictly increasing
      times if and only if the settings are safe. */
  lemma StampsIncreaseExactlyWhenSafe(c: Settings)
    requires WellFormed(c)
    ensures Safe(c) <==>
      forall start: nat, steps :: Run(c, Initial(start), steps).Some? ==>
        StampsIncrease(c, Run(c, Initial(start), steps).value)
  {
    if Safe(c) {
      forall start: nat, steps | Run(c, Initial(start), steps).Some?
        ensures StampsIncrease(c, Run(c, Initial(start), steps).value)
      {
        SafeRunsIncrease(c, start, steps);
      }
    } else {
      var start, steps := UnsafeSettingsCollide(c);
    }
  }

  lemma SafeRunsIncrease(c: Settings, start: nat, steps: seq<Step>)
    requires WellFormed(c) && Safe(c) && Run(c, Initial(start), steps).Some?
    ensures StampsIncrease(c, Run(c, Initial(start), steps).value)
  {
    NothingIsLost(c, start, steps);
    var s := Run(c, Initial(start), steps).value;
    forall i | 0 < i < |s.log| ensures Stamp(c, s, i - 1) < Stamp(c, s, i) {
      SpacedStampsIncrease(c, s.log[i - 1].moment, s.log[i - 1].committed, s.log[i].moment);
    }
  }

  /** What the check at load time misses: it accepts settings that can collide in
      exactly two cases, a zero gap and an aligned interval the step does not divide. */
  lemma CheckAcceptsUnsafeExactlyWhen(c: Settings)
    requires WellFormed(c)
    ensures AssertKeysStayDistinct(c).Ok? && !Safe(c) <==>
      if c.mode.OnMessage? then c.minIntervalSeconds == 0
      else c.alignToInterval && 1 < c.roundToSeconds <= c.intervalSeconds
           && c.intervalSeconds % c.roundToSeconds != 0
  {
  }

  /** The key of the i-th observation handed over in a run. */
  function Key(c: Settings, rn: real -> real, s: State, i: nat): Result<string, Tid.TidError>
    requires i < |s.log|
  {
    Microseconds.TidFromMicros(rn, Stamp(c, s, i))
  }

  /** Times up to 2242, for which the float arithmetic of the codec is known. */
  predicate Representable(c: Settings, s: State) {
    forall i :: 0 <= i < |s.log| ==> 0 <= Stamp(c, s, i) < Microseconds.HORIZON
  }

  predicate Before(a: Result<string, Tid.TidError>, b: Result<string, Tid.TidError>) {
    a.Ok? && b.Ok? && Strings.Less(a.value, b.value)
  }

  predicate KeysIncrease(c: Settings, rn: real -> real, s: State) {
    forall i, j :: 0 <= i < j < |s.log| ==> Before(Key(c, rn, s, i), Key(c, rn, s, j))
  }

  /** With safe settings the record keys of any run are accepted by the encoder and
      strictly increase as strings, from each observation to every later one. */
  lemma SafeKeysIncrease(c: Settings, rn: real -> real, start: nat, steps: seq<Step>)
    requires WellFormed(c) && Safe(c) && Microseconds.RoundsToNearest(rn)
    requires Run(c, Initial(start), steps).Some?
    requires Representable(c, Run(c, Initial(start), steps).value)
    ensures KeysIncrease(c, rn, Run(c, Initial(start), steps).value)
  {
    NothingIsLost(c, start, steps);
    var s := Run(c, Initial(start), steps).value;
    forall i, j | 0 <= i < j < |s.log|
      ensures Before(Key(c, rn, s, i), Key(c, rn, s, j))
    {
      LaterKeyIsGreater(c, rn, s, i, j);
    }
  }

  lemma BeforeIsTransitive(a: Result<string, Tid.TidError>, b: Result<string, Tid.TidError>,
                           d: Result<string, Tid.TidError>)
    requires Before(a, b) && Before(b, d)
    ensures Before(a, d)
  {
    Strings.LessIsTransitive(a.value, b.value, d.value);
  }

  lemma NextKeyIsGreater(c: Settings, rn: real -> real, s: State, j: nat)
    requires WellFormed(c) && Safe(c) && Microseconds.RoundsToNearest(rn)
    requires Throttled(c, s.log) && Representable(c, s) && 0 < j < |s.log|
    ensures Before(Key(c, rn, s, j - 1), Key(c, rn, s, j))
  {
    var n, n' := Stamp(c, s, j - 1), Stamp(c, s, j);
    SpacedStampsIncrease(c, s.log[j - 1].moment, s.log[j - 1].committed, s.log[j].moment);
    if c.mode.Interval? && c.alignToInterval && c.roundToSeconds <= 1 {
      BoundaryBetween(c, s.log[j - 1], n');
      KeysAcrossBoundary(rn, n, NextBoundary(c, n) / SECOND, n');
    } else {
      Microseconds.KeysIncrease(rn, n, n');
    }
  }

  /** Aligned publishes may be a microsecond apart, but a boundary lies between them. */
  lemma BoundaryBetween(c: Settings, earlier: Handover, next: int)
    requires WellFormed(c) && c.mode.Interval? && c.alignToInterval
    requires earlier.moment <= earlier.committed && Earliest(c, earlier.committed) <= next
    ensures var b := NextBoundary(c, earlier.moment);
      b == b / SECOND * SECOND && earlier.moment < b <= next
  {
    NextBoundaryMonotone(c, earlier.moment, earlier.committed);
    var i := c.intervalSeconds * SECOND;
    var k := earlier.moment / i + 1;
    assert k * i == (k * c.intervalSeconds) * SECOND;
    MultipleMod(k * c.intervalSeconds, SECOND);
  }

  /** A whole second is never altered, so keys on either side of one differ. */
  lemma KeysAcrossBoundary(rn: real -> real, n: int, seconds: int, n': int)
    requires Microseconds.RoundsToNearest(rn)
    requires 0 <= n < seconds * SECOND <= n' < Microseconds.HORIZON
    ensures Before(Microseconds.TidFromMicros(rn, n), Microseconds.TidFromMicros(rn, n'))
  {
    Microseconds.AtMostOneMicrosecondLost(rn, n);
    Microseconds.WholeSecondsAreExact(rn, seconds);
    Microseconds.KeyMicrosMonotone(rn, seconds * SECOND, n');
    Microseconds.AtMostOneMicrosecondLost(rn, n');
    Tid.KeyOrderIsTimeOrder(Microseconds.KeyMicros(rn, n), 0, Microseconds.KeyMicros(rn, n'), 0);
  }

  /** Neighbours in order put everything in order. */
  lemma {:induction false} BeforeAcross(keys: seq<Result<string, Tid.TidError>>, i: nat, j: nat)
    requires i < j < |keys| && forall k :: 0 < k < |keys| ==> Before(keys[k - 1], keys[k])
    ensures Before(keys[i], keys[j])
    decreases j - i
  {
    if i == j - 1 {
    } else {
      BeforeAcross(keys, i, j - 1);
      BeforeIsTransitive(keys[i], keys[j - 1], keys[j]);
    }
  }

  lemma LaterKeyIsGreater(c: Settings, rn: real -> real, s: State, i: nat, j: nat)
    requires WellFormed(c) && Safe(c) && Microseconds.RoundsToNearest(rn)
    requires Throttled(c, s.log) && Representable(c, s) && i < j < |s.log|
    ensures Before(Key(c, rn, s, i), Key(c, rn, s, j))
  {
    var keys := seq(|s.log|, k requires 0 <= k < |s.log| => Key(c, rn, s, k));
    forall k | 0 < k < |keys| ensures Before(keys[k - 1], keys[k]) {
      NextKeyIsGreater(c, rn, s, k);
    }
    BeforeAcross(keys, i, j);
  }
}
