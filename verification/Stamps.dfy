/**
  Where an observation's time comes from (_observed_at_for of bridge/bridge.py): the
  clock or the newest reading, rounded down by a float floor division. The division
  is shown to be exact, and the stamps taken from readings to increase exactly when
  something new enough was read.
*/
module Stamps {
  import opened Powers
  import opened Protocol
  import opened Microseconds
  import Records
  import Truncation

  // ----- the float floor division -------------------------------------------

  // 2^34 * 10^6 microseconds: the years 1425 to 2514.
  const FAR: int := 0x4_0000_0000 * 1000000

  /** t // step for a float t and a positive integer step, as CPython computes it: the
      exact remainder toward zero, the rounded quotient of what is left, one less if
      the remainder is negative, and a last correction. */
  function FloatFloorDiv(rn: real -> real, t: real, step: int): int
    requires step > 0
  {
    var remainder := t - Truncation.Times(Truncate(t / step as real), step as real);
    var quotient := rn(rn(t - remainder) / step as real);
    var lowered := if remainder < 0.0 then rn(quotient - 1.0) else quotient;
    if lowered - lowered.Floor as real > 0.5 then lowered.Floor + 1 else lowered.Floor
  }

  lemma Representable(rn: real -> real, n: int)
    requires RoundsToNearest(rn) && -SIGNIFICANDS < n < SIGNIFICANDS
    ensures rn(n as real) == n as real
  {
    IntegersAreExact(n);
    SixtyDoublings();
    Pow2Monotone(53, 900);
    assert Nearest(n as real, rn(n as real));
    assert Dist(rn(n as real), n as real) <= Dist(n as real, n as real);
  }

  lemma FloorDivIsExact(rn: real -> real, t: real, step: int)
    requires RoundsToNearest(rn) && step > 0 && -17179869184.0 <= t <= 17179869184.0
    ensures FloatFloorDiv(rn, t, step) == (t / step as real).Floor
  {
    var w := Truncate(t / step as real);
    TowardZero(t, step, w);
    assert Truncation.Times(w, step as real) == (w * step) as real;
    Representable(rn, w * step);
    Representable(rn, w);
    Representable(rn, w - 1);
    DivideBack(w, step);
  }

  /** The quotient toward zero is the floor, or one above it if something is left. */
  lemma TowardZero(t: real, step: int, w: int)
    requires step > 0 && w == Truncate(t / step as real) && -17179869184.0 <= t <= 17179869184.0
    ensures -17179869184 <= w * step <= 17179869184 && -17179869184 <= w <= 17179869184
    ensures (t / step as real).Floor == if t < (w * step) as real then w - 1 else w
  {
    var r := t / step as real;
    TimesBack(t, r, step);
    if t >= 0.0 {
      TimesOrder(w, r, step);
      NotBeyond(w, step);
    } else {
      TimesOrder(-w, -r, step);
      NotBeyond(-w, step);
      assert -w * step == -(w * step);
      TimesExact(w, r, step);
    }
  }

  lemma TimesBack(t: real, r: real, step: int)
    requires step > 0 && r == t / step as real
    ensures r * step as real == t && (t >= 0.0 <==> r >= 0.0)
  {
  }

  lemma TimesOrder(w: int, r: real, step: int)
    requires step > 0 && 0 <= w && w as real <= r
    ensures (w * step) as real <= r * step as real
  {
    assert (w * step) as real == w as real * step as real;
  }

  lemma TimesExact(w: int, r: real, step: int)
    requires step > 0
    ensures r * step as real < (w * step) as real <==> r < w as real
  {
    assert (w * step) as real == w as real * step as real;
    assert (w as real - r) * step as real == w as real * step as real - r * step as real;
  }

  lemma NotBeyond(w: int, step: int)
    requires step > 0 && w >= 0
    ensures 0 <= w <= w * step
  {
  }

  lemma DivideBack(q: int, step: int)
    requires step > 0
    ensures (q * step) as real / step as real == q as real
  {
  }

  /** int(moment.timestamp() // step) * step seconds, or the moment itself. */
  function FloatStamp(c: Settings, rn: real -> real, moment: int): int {
    if c.roundToSeconds > 1
    then FloatFloorDiv(rn, Timestamp(rn, moment), c.roundToSeconds) * c.roundToSeconds * SECOND
    else moment
  }

  /** The float computation is the rounding down to a multiple of the step. */
  lemma FloatStampIsExact(c: Settings, rn: real -> real, moment: int)
    requires RoundsToNearest(rn) && -FAR < moment < FAR
    ensures FloatStamp(c, rn, moment) == ObservedAt(c, moment)
  {
    if c.roundToSeconds > 1 {
      FloatQuotientIsExact(rn, moment, c.roundToSeconds);
      NestedDivision(moment, c.roundToSeconds);
      Regroup(moment / SECOND / c.roundToSeconds, c.roundToSeconds);
    }
  }

  lemma Regroup(q: int, step: int)
    ensures q * step * SECOND == q * (step * SECOND)
  {
  }

  lemma FloatQuotientIsExact(rn: real -> real, n: int, step: int)
    requires RoundsToNearest(rn) && -FAR < n < FAR && step > 0
    ensures FloatFloorDiv(rn, Timestamp(rn, n), step) == n / SECOND / step
  {
    FloorOfTimestamp(rn, n);
    FloorDivIsExact(rn, Timestamp(rn, n), step);
    FloorOfFloor(Timestamp(rn, n), step);
  }

  lemma NegateBinary64(z: real)
    requires IsBinary64(z)
    ensures IsBinary64(-z)
  {
    var e :| Encodes(z, e);
    NegateOnGrid(z, e);
    assert Encodes(-z, e);
  }

  /** Within 2^34 seconds of the epoch there is a binary64 value within 2^-20. */
  lemma DenseNearEpoch(y: real) returns (z: real)
    requires -17179869184.0 < y < 17179869184.0
    ensures IsBinary64(z) && Dist(z, y) <= Pow2(-20)
  {
    ThirtyDoublings(0);
    Doubles(30);
    Doubles(31);
    Doubles(32);
    Doubles(33);
    if y >= 0.0 {
      z := GridDense(y, 33);
    } else {
      z := GridDense(-y, 33);
      NegateBinary64(z);
      z := -z;
    }
  }

  /** Rounding does not cross a representable value. */
  lemma NotCrossing(y: real, t: real, s: real)
    requires Nearest(y, t) && IsBinary64(s)
    ensures s <= y ==> s <= t
    ensures y <= s ==> t <= s
  {
    assert Dist(t, y) <= Dist(s, y);
  }

  /** The timestamp's whole seconds are those of the count. */
  lemma FloorOfTimestamp(rn: real -> real, n: int)
    requires RoundsToNearest(rn) && -FAR < n < FAR
    ensures Timestamp(rn, n).Floor == n / SECOND
    ensures -17179869184.0 <= Timestamp(rn, n) <= 17179869184.0
  {
    var y, s := n as real / 1000000.0, n / SECOND;
    var t, x := Roundings(rn, n);
    IntegersAreExact(s);
    IntegersAreExact(17179869184);
    IntegersAreExact(-17179869184);
    NotCrossing(y, t, s as real);
    NotCrossing(y, t, 17179869184.0);
    NotCrossing(y, t, -17179869184.0);
    var z := DenseNearEpoch(y);
    TwentyDoublings(-20);
    BelowNextSecond(n, t, z);
  }

  lemma BelowNextSecond(n: int, t: real, z: real)
    requires Nearest(n as real / 1000000.0, t) && IsBinary64(z)
    requires 1048576.0 * Dist(z, n as real / 1000000.0) <= 1.0
    ensures t < (n / SECOND) as real + 1.0
  {
    var y := n as real / 1000000.0;
    assert n <= n / SECOND * SECOND + 999999;
    assert Dist(t, y) <= Dist(z, y);
  }

  /** Farther away it is not: a stamp in the year 4147 that lies after its moment. */
  lemma FarStampRoundsUp(c: Settings, rn: real -> real)
    requires RoundsToNearest(rn) && c.roundToSeconds == 2
    ensures FloatStamp(c, rn, 0x10_0000_0000 * 1000000 - 1) == 0x10_0000_0000 * 1000000
  {
    var n := 0x10_0000_0000 * 1000000 - 1;
    var t, x := Roundings(rn, n);
    FarPowers();
    assert OnGrid(68719476736.0, 0);
    CoarserBy(68719476736.0, 0, -17);
    UniqueNearest(n as real / 1000000.0, t, 68719476736.0, 35);
    assert t / 2.0 == 34359738368.0;
    assert Truncation.Times(34359738368, 2.0) == 68719476736.0;
    Representable(rn, 68719476736);
    Representable(rn, 34359738368);
  }

  lemma FarPowers()
    ensures Pow2(35) == 34359738368.0 && Pow2(36) == 68719476736.0 && Pow2(-17) == 1.0 / 131072.0
  {
    ThirtyDoublings(0);
    FiveDoublings(30);
    Doubles(35);
    TwentyDoublings(-17);
    assert Pow2(3) == 8.0;
  }

  lemma FloorOfFloor(t: real, step: int)
    requires step > 0
    ensures (t / step as real).Floor == t.Floor / step
  {
    var s, q := t.Floor, t.Floor / step;
    assert s == q * step + s % step;
    DivideBack(q, step);
    DivideBack(q + 1, step);
    assert (q + 1) * step == q * step + step;
    assert s + 1 <= (q + 1) * step;
    Quotient((q * step) as real, t, step as real);
    Below(t, ((q + 1) * step) as real, step as real);
  }

  lemma Quotient(x: real, y: real, d: real)
    requires x <= y && d > 0.0
    ensures x / d <= y / d
  {
  }

  lemma Below(x: real, y: real, d: real)
    requires x < y && d > 0.0
    ensures x / d < y / d
  {
  }

  lemma NestedDivision(n: int, step: int)
    requires step > 0
    ensures n / SECOND / step == n / (step * SECOND)
  {
    var s := n / SECOND;
    var q := s / step;
    assert n == s * SECOND + n % SECOND && s == q * step + s % step;
    assert n == q * (step * SECOND) + (s % step * SECOND + n % SECOND);
    assert s % step * SECOND + n % SECOND < step * SECOND;
    Unique(n, q, step * SECOND, s % step * SECOND + n % SECOND);
  }

  lemma Unique(n: int, q: int, d: int, r: int)
    requires n == q * d + r && 0 <= r < d
    ensures n / d == q
  {
    Quotients(n, n, d);
    var p := n / d;
    if p < q { Scale(p + 1, q, d); } else if q < p { Scale(q + 1, p, d); }
  }

  // ----- the newest reading -------------------------------------------------

  type Readings = map<Records.Target, Records.Reading>

  /** max(observed_at of the readings, default=now) */
  predicate IsNewest(readings: Readings, now: int, moment: int) {
    if readings == map[] then moment == now
    else
      && (exists n :: n in readings && readings[n].observedAt == moment)
      && (forall n :: n in readings ==> readings[n].observedAt <= moment)
  }

  method NewestObservedAt(readings: Readings, now: int) returns (moment: int)
    ensures IsNewest(readings, now, moment)
  {
    moment := now;
    var rest := readings.Keys;
    while rest != {}
      invariant rest <= readings.Keys
      invariant rest == readings.Keys ==> moment == now
      invariant rest != readings.Keys ==>
        && (exists n :: n in readings && n !in rest && readings[n].observedAt == moment)
        && (forall n :: n in readings && n !in rest ==> readings[n].observedAt <= moment)
      decreases |rest|
    {
      var n :| n in rest;
      if rest == readings.Keys || readings[n].observedAt > moment {
        moment := readings[n].observedAt;
      }
      rest := rest - {n};
    }
  }

  /** `fromReadings` is timestampSource "message". */
  method ObservedAtFor(c: Settings, rn: real -> real, fromReadings: bool, readings: Readings, now: int)
    returns (stamp: int)
    ensures !fromReadings || readings == map[] ==> stamp == FloatStamp(c, rn, now)
    ensures fromReadings && readings != map[] ==> exists n :: n in readings && StampedBy(c, rn, readings, n, stamp)
  {
    var moment := now;
    if fromReadings {
      moment := NewestObservedAt(readings, now);
    }
    stamp := FloatStamp(c, rn, moment);
  }

  /** No reading is newer than `n`, and `stamp` is its time, rounded. */
  predicate StampedBy(c: Settings, rn: real -> real, readings: Readings, n: Records.Target, stamp: int)
    requires n in readings
  {
    && (forall k :: k in readings ==> readings[k].observedAt <= readings[n].observedAt)
    && stamp == FloatStamp(c, rn, readings[n].observedAt)
  }

  // ----- stamps taken from readings -----------------------------------------

  /** The rounding window a time falls in. */
  function Window(c: Settings, t: int): int {
    if c.roundToSeconds > 1 then t / (c.roundToSeconds * SECOND) else t
  }

  lemma WindowOrder(c: Settings, a: int, b: int)
    ensures ObservedAt(c, a) < ObservedAt(c, b) <==> Window(c, a) < Window(c, b)
    ensures ObservedAt(c, a) == ObservedAt(c, b) <==> Window(c, a) == Window(c, b)
    ensures a <= b ==> Window(c, a) <= Window(c, b)
  {
    if c.roundToSeconds > 1 {
      var d := c.roundToSeconds * SECOND;
      ScaleOrder(Window(c, a), Window(c, b), d);
      if a <= b { Quotients(a, b, d); }
    }
  }

  lemma ScaleOrder(p: int, q: int, d: int)
    requires d > 0
    ensures p * d < q * d <==> p < q
    ensures p * d == q * d <==> p == q
  {
  }

  /** Some reading of `b` is in a later window than every reading of `a`. */
  predicate LaterWindow(c: Settings, a: Readings, b: Readings) {
    exists n :: n in b && forall k :: k in a ==> Window(c, a[k].observedAt) < Window(c, b[n].observedAt)
  }

  /** Neither has a reading from a later window than the other's. */
  predicate SameWindow(c: Settings, a: Readings, b: Readings) {
    !LaterWindow(c, a, b) && !LaterWindow(c, b, a)
  }

  /** One observation is stamped after another exactly when it has a reading from a
      later window than all the readings of the other, and like it exactly when
      neither has such a reading. */
  lemma ReadingStamps(c: Settings, a: Readings, b: Readings, now: int, now': int, m: int, m': int)
    requires a != map[] && b != map[] && IsNewest(a, now, m) && IsNewest(b, now', m')
    ensures ObservedAt(c, m) < ObservedAt(c, m') <==> LaterWindow(c, a, b)
    ensures ObservedAt(c, m) == ObservedAt(c, m') <==> SameWindow(c, a, b)
  {
    WindowOrder(c, m, m');
    WindowOrder(c, m', m);
    LaterNewest(c, a, b, now, now', m, m');
    LaterNewest(c, b, a, now', now, m', m);
  }

  lemma LaterNewest(c: Settings, a: Readings, b: Readings, now: int, now': int, m: int, m': int)
    requires a != map[] && b != map[] && IsNewest(a, now, m) && IsNewest(b, now', m')
    ensures LaterWindow(c, a, b) <==> Window(c, m) < Window(c, m')
  {
    var k :| k in a && a[k].observedAt == m;
    var n :| n in b && b[n].observedAt == m';
    forall i | i in a ensures Window(c, a[i].observedAt) <= Window(c, m) {
      WindowOrder(c, a[i].observedAt, m);
    }
    forall i | i in b ensures Window(c, b[i].observedAt) <= Window(c, m') {
      WindowOrder(c, b[i].observedAt, m');
    }
  }

  /** The snapshots of successive observations, each with the clock reading it was taken at. */
  type Snapshots = seq<(Readings, int)>

  predicate Stamped(snapshots: Snapshots, moments: seq<int>) {
    |moments| == |snapshots| && forall i :: 0 <= i < |snapshots| ==>
      snapshots[i].0 != map[] && IsNewest(snapshots[i].0, snapshots[i].1, moments[i])
  }

  /** With timestampSource "message" the stamps of a run strictly increase if and only
      if every snapshot has a reading from a later window than the one before. */
  lemma MessageStampsIncreaseExactlyWhen(c: Settings, snapshots: Snapshots, moments: seq<int>)
    requires Stamped(snapshots, moments)
    ensures (forall i :: 0 < i < |moments| ==> ObservedAt(c, moments[i - 1]) < ObservedAt(c, moments[i]))
       <==> (forall i :: 0 < i < |snapshots| ==> LaterWindow(c, snapshots[i - 1].0, snapshots[i].0))
  {
    forall i | 0 < i < |snapshots|
      ensures ObservedAt(c, moments[i - 1]) < ObservedAt(c, moments[i])
         <==> LaterWindow(c, snapshots[i - 1].0, snapshots[i].0)
    {
      ReadingStamps(c, snapshots[i - 1].0, snapshots[i].0, snapshots[i - 1].1, snapshots[i].1,
                    moments[i - 1], moments[i]);
    }
  }

  /** A repeated stamp is a repeated key, under which the later record replaces the
      earlier one; this is what happens while nothing new is read. */
  lemma NothingNewRepeatsTheKey(c: Settings, rn: real -> real, a: Readings, b: Readings,
                                now: int, now': int, m: int, m': int)
    requires a != map[] && IsNewest(a, now, m) && IsNewest(b, now', m')
    requires forall n :: n in b ==> n in a && a[n] == b[n]
    requires exists n :: n in b && b[n].observedAt == m
    ensures m == m' && TidFromMicros(rn, ObservedAt(c, m)) == TidFromMicros(rn, ObservedAt(c, m'))
  {
  }
}
