/**
  The float arithmetic of tid_from_datetime: int(timestamp() * 1_000_000), where
  timestamp() is the correctly rounded quotient of the exact microsecond count by
  10^6. Rounding is any `real -> real` that picks a nearest binary64 value, so the
  results hold for every way of breaking ties.
*/
module Microseconds {
  import opened Common
  import opened Powers
  import opened Strings
  import opened Tid

  const SIGNIFICANDS: int := 0x20_0000_0000_0000  // 2^53
  // 2^60 microseconds: beyond the year 9999, where datetime ends.
  const LIMIT: int := 0x1000_0000_0000_0000

  /** `x` is an integer multiple of 2^e. */
  predicate OnGrid(x: real, e: int)
    decreases Magnitude(e)
  {
    if e == 0 then x.Floor as real == x
    else if e > 0 then OnGrid(x / 2.0, e - 1)
    else OnGrid(2.0 * x, e + 1)
  }

  /** `x` is m * 2^e for some integer m of at most 53 bits. */
  predicate Encodes(x: real, e: int) {
    -1074 <= e <= 971 && OnGrid(x, e) && -Pow2(e + 53) < x < Pow2(e + 53)
  }

  ghost predicate IsBinary64(x: real) {
    exists e :: Encodes(x, e)
  }

  /** `x` is a binary64 value closest to `y`. */
  ghost predicate Nearest(y: real, x: real) {
    IsBinary64(x) && forall z | IsBinary64(z) :: Dist(x, y) <= Dist(z, y)
  }

  /** Round-to-nearest on the finite range, ties broken in any way. */
  ghost predicate RoundsToNearest(rn: real -> real) {
    forall y | -Pow2(900) < y < Pow2(900) :: Nearest(y, rn(y))
  }

  /** int(x): drop the fraction, toward zero. */
  function Truncate(x: real): int {
    if x >= 0.0 then x.Floor else -((-x).Floor)
  }

  function Timestamp(rn: real -> real, n: int): real {
    rn(n as real / 1000000.0)
  }

  function Product(rn: real -> real, n: int): real {
    rn(Timestamp(rn, n) * 1000000.0)
  }

  /** The microsecond count the key is built from, for an exact count of `n`. */
  function KeyMicros(rn: real -> real, n: int): int {
    Truncate(Product(rn, n))
  }

  /** tid_from_datetime for an aware moment `n` microseconds after the epoch. */
  function TidFromMicros(rn: real -> real, n: int): (r: Result<string, TidError>) {
    var us := KeyMicros(rn, n);
    if InRange(us, 0) then Ok(TidOf(us, 0)) else Err(ValueError)
  }

  // ----- powers of two ------------------------------------------------------

  lemma Doubles(a: int)
    ensures Pow2(a + 1) == 2.0 * Pow2(a)
  {
  }

  lemma FiveDoublings(a: int)
    ensures Pow2(a + 5) == 32.0 * Pow2(a)
  {
    Doubles(a);
    Doubles(a + 1);
    Doubles(a + 2);
    Doubles(a + 3);
    Doubles(a + 4);
  }

  lemma TwentyDoublings(a: int)
    ensures Pow2(a + 20) == 1048576.0 * Pow2(a)
  {
    FiveDoublings(a);
    FiveDoublings(a + 5);
    FiveDoublings(a + 10);
    FiveDoublings(a + 15);
  }

  lemma FortyDoublings(a: int)
    ensures Pow2(a + 40) == 1099511627776.0 * Pow2(a)
  {
    TwentyDoublings(a);
    TwentyDoublings(a + 20);
  }

  lemma ThirteenDoublings(a: int)
    ensures Pow2(a + 13) == 8192.0 * Pow2(a)
  {
    FiveDoublings(a);
    FiveDoublings(a + 5);
    Doubles(a + 10);
    Doubles(a + 11);
    Doubles(a + 12);
  }

  lemma SixtyDoublings()
    ensures Pow2(53) == SIGNIFICANDS as real && Pow2(60) == LIMIT as real
  {
    FortyDoublings(0);
    ThirteenDoublings(40);
    TwentyDoublings(40);
  }

  lemma Pow2Monotone(a: int, b: int)
    requires a <= b
    ensures Pow2(a) <= Pow2(b)
    decreases b - a
  {
    if a == b {
    } else {
      Pow2Monotone(a, b - 1);
      Doubles(b - 1);
    }
  }

  // ----- grids --------------------------------------------------------------

  lemma {:induction false} Coarser(x: real, e: int)
    requires OnGrid(x, e + 1)
    ensures OnGrid(x, e)
    decreases Magnitude(e)
  {
    if e > 0 {
      Coarser(x / 2.0, e - 1);
    } else if e < -1 {
      Coarser(2.0 * x, e + 1);
    } else if e == -1 {
      TwiceAnInteger(x);
      assert OnGrid(2.0 * x, 0);
    } else {
      assert OnGrid(x / 2.0, 0);
      TwiceAnInteger(x / 2.0);
    }
  }

  lemma TwiceAnInteger(x: real)
    requires x.Floor as real == x
    ensures (2.0 * x).Floor as real == 2.0 * x
  {
    assert 2.0 * x == (2 * x.Floor) as real;
  }

  lemma CoarserBy(x: real, e: int, k: int)
    requires k <= e && OnGrid(x, e)
    ensures OnGrid(x, k)
    decreases e - k
  {
    if k == e {
    } else {
      Coarser(x, e - 1);
      CoarserBy(x, e - 1, k);
    }
  }

  /** Two points of one grid closer than its step are the same point. */
  lemma {:induction false} GridStep(x: real, y: real, e: int)
    requires OnGrid(x, e) && OnGrid(y, e) && Dist(x, y) < Pow2(e)
    ensures x == y
    decreases Magnitude(e)
  {
    if e > 0 {
      GridStep(x / 2.0, y / 2.0, e - 1);
    } else if e < 0 {
      GridStep(2.0 * x, 2.0 * y, e + 1);
    } else {
      assert x.Floor == y.Floor;
    }
  }

  lemma {:induction false} PowerOnGrid(e: int)
    ensures OnGrid(Pow2(e), e)
    decreases Magnitude(e)
  {
    if e == 0 {
    } else if e > 0 {
      PowerOnGrid(e - 1);
    } else {
      PowerOnGrid(e + 1);
    }
  }

  /** Every real has a grid point within half a step. */
  lemma {:induction false} NearestOnGrid(y: real, e: int) returns (z: real)
    ensures OnGrid(z, e) && 2.0 * Dist(z, y) <= Pow2(e)
    decreases Magnitude(e)
  {
    if e > 0 {
      z := NearestOnGrid(y / 2.0, e - 1);
      z := 2.0 * z;
    } else if e < 0 {
      z := NearestOnGrid(2.0 * y, e + 1);
      z := z / 2.0;
    } else {
      z := (y + 0.5).Floor as real;
    }
  }

  // ----- the binary64 values ------------------------------------------------

  lemma IntegersAreExact(n: int)
    requires -SIGNIFICANDS < n < SIGNIFICANDS
    ensures IsBinary64(n as real)
  {
    SixtyDoublings();
    assert Encodes(n as real, 0);
  }

  lemma PowersAreExact(k: int)
    requires -1074 <= k <= 971
    ensures IsBinary64(Pow2(k)) && IsBinary64(-Pow2(k))
  {
    PowerOnGrid(k);
    NegateOnGrid(Pow2(k), k);
    Pow2Monotone(k + 1, k + 53);
    Doubles(k);
    assert Encodes(Pow2(k), k) && Encodes(-Pow2(k), k);
  }

  lemma DoubleOnGrid(x: real, y: real, e: int)
    requires x == 2.0 * y
    ensures e > 0 && OnGrid(y, e - 1) ==> OnGrid(x, e)
    ensures e <= 0 && OnGrid(x, e) ==> OnGrid(y, e - 1)
  {
  }

  lemma {:induction false} Difference(x: real, y: real, e: int)
    requires OnGrid(x, e) && OnGrid(y, e)
    ensures OnGrid(x - y, e)
    decreases Magnitude(e)
  {
    if e > 0 {
      Difference(x / 2.0, y / 2.0, e - 1);
      DoubleOnGrid(x - y, x / 2.0 - y / 2.0, e);
    } else if e < 0 {
      Difference(2.0 * x, 2.0 * y, e + 1);
      DoubleOnGrid(2.0 * x - 2.0 * y, x - y, e + 1);
    } else {
      IntegerDifference(x, y);
    }
  }

  lemma IntegerDifference(x: real, y: real)
    requires x.Floor as real == x && y.Floor as real == y
    ensures (x - y).Floor as real == x - y
  {
    assert x - y == (x.Floor - y.Floor) as real;
  }

  lemma NegateOnGrid(x: real, e: int)
    requires OnGrid(x, e)
    ensures OnGrid(-x, e)
  {
    Difference(x, x, e);
    Difference(x - x, x, e);
    assert x - x - x == -x;
  }

  /** From 2^k upwards every binary64 value is a multiple of 2^(k-52). */
  lemma GridAbove(x: real, k: int)
    requires IsBinary64(x) && x >= Pow2(k)
    ensures OnGrid(x, k - 52)
  {
    var e :| Encodes(x, e);
    if e + 53 <= k { Pow2Monotone(e + 53, k); }
    CoarserBy(x, e, k - 52);
  }

  /** Below 2^(j+1) there is always a binary64 value within 2^(j-53). */
  lemma GridDense(y: real, j: int) returns (z: real)
    requires -1000 <= j <= 900 && 0.0 <= y < Pow2(j + 1)
    ensures IsBinary64(z) && Dist(z, y) <= Pow2(j - 53)
  {
    z := NearestOnGrid(y, j - 52);
    Doubles(j - 53);
    if z < Pow2(j + 1) {
      Pow2Monotone(j - 53, j);
      Doubles(j);
      assert Encodes(z, j - 52);
    } else {
      PowerOnGrid(j + 1);
      CoarserBy(Pow2(j + 1), j + 1, j - 52);
      GridStep(z, Pow2(j + 1), j - 52);
      PowersAreExact(j + 1);
    }
  }

  // ----- main results -------------------------------------------------------

  /** Rounding is monotone, so key order never inverts time order: over every
      pair of moments within the float range, an earlier one gets a key no later. */
  lemma NearestIsMonotone(y: real, y': real, x: real, x': real)
    requires y < y' && Nearest(y, x) && Nearest(y', x')
    ensures x <= x'
  {
  }

  lemma KeyMicrosMonotone(rn: real -> real, n: int, n': int)
    requires RoundsToNearest(rn) && -LIMIT <= n <= n' <= LIMIT
    ensures KeyMicros(rn, n) <= KeyMicros(rn, n')
  {
    ProductIsMonotone(rn, n, n');
    TruncateIsMonotone(Product(rn, n), Product(rn, n'));
  }

  lemma TwoRoundingsAreMonotone(n: int, n': int, t: real, t': real, x: real, x': real)
    requires n < n' && Rounded(n, t, x) && Rounded(n', t', x') && (t == t' ==> x == x')
    ensures x <= x'
  {
    NearestIsMonotone(n as real / 1000000.0, n' as real / 1000000.0, t, t');
    if t < t' {
      NearestIsMonotone(t * 1000000.0, t' * 1000000.0, x, x');
    }
  }

  lemma ProductIsMonotone(rn: real -> real, n: int, n': int)
    requires RoundsToNearest(rn) && -LIMIT <= n <= n' <= LIMIT
    ensures Product(rn, n) <= Product(rn, n')
  {
    if n < n' {
      var t, x := Roundings(rn, n);
      var t', x' := Roundings(rn, n');
      TwoRoundingsAreMonotone(n, n', t, t', x, x');
    }
  }

  /** `t` and `x` are what the two roundings make of `n`. */
  ghost predicate Rounded(n: int, t: real, x: real) {
    Nearest(n as real / 1000000.0, t) && Nearest(t * 1000000.0, x)
  }

  lemma Roundings(rn: real -> real, n: int) returns (t: real, x: real)
    requires RoundsToNearest(rn) && -LIMIT <= n <= LIMIT
    ensures t == Timestamp(rn, n) && x == Product(rn, n) == rn(t * 1000000.0) && Rounded(n, t, x)
  {
    BothRoundingsNearest(rn, n);
    t, x := Timestamp(rn, n), Product(rn, n);
  }

  lemma TruncateIsMonotone(x: real, x': real)
    requires x <= x'
    ensures Truncate(x) <= Truncate(x')
  {
  }

  /** Neither rounding leaves the range on which rn rounds to nearest. */
  lemma BothRoundingsNearest(rn: real -> real, n: int)
    requires RoundsToNearest(rn) && -LIMIT <= n <= LIMIT
    ensures Nearest(n as real / 1000000.0, Timestamp(rn, n))
    ensures Nearest(Timestamp(rn, n) * 1000000.0, Product(rn, n))
  {
    SixtyDoublings();
    TwentyDoublings(60);
    Pow2Monotone(80, 900);
    PowersAreExact(60);
    var y, t := n as real / 1000000.0, Timestamp(rn, n);
    assert -Pow2(60) <= y <= Pow2(60);
    assert Nearest(y, t);
    assert Dist(t, y) <= Dist(Pow2(60), y) && Dist(t, y) <= Dist(-Pow2(60), y);
    assert -Pow2(60) <= t <= Pow2(60);
  }

  /** The product is within 10^6 * 2^(j-53) of the exact count. */
  lemma ProductError(rn: real -> real, n: int, j: int)
    requires RoundsToNearest(rn) && -900 <= j <= 900 && n <= LIMIT
    requires 0 <= n && n as real < Pow2(j + 1) * 1000000.0
    ensures Dist(Timestamp(rn, n) * 1000000.0, n as real) <= 1000000.0 * Pow2(j - 53)
  {
    BothRoundingsNearest(rn, n);
    var y, t := n as real / 1000000.0, Timestamp(rn, n);
    var z := GridDense(y, j);
    assert Dist(t, y) <= Dist(z, y) <= Pow2(j - 53);
    assert t * 1000000.0 - n as real == (t - y) * 1000000.0;
  }

  /** A nearest value to p can miss an integer n close to p by less than twice as much. */
  lemma NearInteger(p: real, x: real, n: int, d: real)
    requires Nearest(p, x) && -SIGNIFICANDS < n < SIGNIFICANDS && Dist(p, n as real) <= d
    ensures Dist(x, n as real) <= 2.0 * d
  {
    IntegersAreExact(n);
    assert Dist(x, p) <= Dist(n as real, p);
  }

  /** No microsecond is lost when the seconds and the microseconds fall in matching
      binades, 2^(j+20) < n < 2^(j+1) * 10^6. At j = 30 this is every moment from
      2005-09-05 to 2038-01-19. */
  lemma TruncationIsExact(rn: real -> real, n: int, j: int)
    requires RoundsToNearest(rn) && -20 <= j <= 32 && n < SIGNIFICANDS
    requires Pow2(j + 20) < n as real < Pow2(j + 1) * 1000000.0
    ensures KeyMicros(rn, n) == n
  {
    ProductIsClose(rn, n, j);
    ExactInBinade(Product(rn, n), n, j);
  }

  /** A binary64 value closer than one grid step to an integer of its binade is that integer. */
  lemma ExactInBinade(x: real, n: int, j: int)
    requires IsBinary64(x) && -20 <= j <= 32 && Pow2(j + 20) < n as real
    requires Dist(x, n as real) < Pow2(j - 32) <= 1.0
    ensures x == n as real
  {
    PowerIsInteger(j + 20);
    IntegerGap(Pow2(j + 20), n, x);
    GridAbove(x, j + 20);
    assert OnGrid(n as real, 0);
    CoarserBy(n as real, 0, j - 32);
    GridStep(x, n as real, j - 32);
  }

  lemma IntegerGap(p: real, n: int, x: real)
    requires p.Floor as real == p && p < n as real && Dist(x, n as real) < 1.0
    ensures x >= p
  {
    var k := p.Floor;
    assert k < n;
    assert (k + 1) as real <= n as real;
  }

  lemma ProductIsClose(rn: real -> real, n: int, j: int)
    requires RoundsToNearest(rn) && -20 <= j <= 32 && 0 <= n < SIGNIFICANDS
    requires n as real < Pow2(j + 1) * 1000000.0
    ensures Nearest(Timestamp(rn, n) * 1000000.0, Product(rn, n))
    ensures Dist(Product(rn, n), n as real) < Pow2(j - 32) <= 1.0
  {
    ProductError(rn, n, j);
    BothRoundingsNearest(rn, n);
    NearInteger(Timestamp(rn, n) * 1000000.0, Product(rn, n), n, 1000000.0 * Pow2(j - 53));
    HalfStep(j);
  }

  lemma HalfStep(j: int)
    requires j <= 32
    ensures 2.0 * (1000000.0 * Pow2(j - 53)) < Pow2(j - 32) <= 1.0
  {
    TwentyDoublings(j - 53);
    Doubles(j - 33);
    Pow2Monotone(j - 32, 0);
  }

  lemma PowerIsInteger(k: nat)
    ensures Pow2(k).Floor as real == Pow2(k)
  {
    PowerOnGrid(k);
    CoarserBy(Pow2(k), k, 0);
  }

  /** A whole number of seconds is never altered, which covers every rounded observedAt. */
  lemma WholeSecondsAreExact(rn: real -> real, seconds: int)
    requires RoundsToNearest(rn) && -SIGNIFICANDS < seconds * 1000000 < SIGNIFICANDS
    ensures KeyMicros(rn, seconds * 1000000) == seconds * 1000000
  {
    var n := seconds * 1000000;
    BothRoundingsNearest(rn, n);
    assert n as real / 1000000.0 == seconds as real;
    IntegersAreExact(seconds);
    IntegersAreExact(n);
    assert Dist(Timestamp(rn, n), seconds as real) <= Dist(seconds as real, seconds as real);
    assert Timestamp(rn, n) * 1000000.0 == n as real;
    assert Dist(Product(rn, n), n as real) <= Dist(n as real, n as real);
  }

  // 2^33 * 10^6 microseconds: the year 2242.
  const HORIZON: int := 0x2_0000_0000 * 1000000

  /** Outside the exact windows at most one microsecond is lost, and none gained. */
  lemma AtMostOneMicrosecondLost(rn: real -> real, n: int)
    requires RoundsToNearest(rn) && 0 <= n < HORIZON
    ensures 0 <= KeyMicros(rn, n) && n - 1 <= KeyMicros(rn, n) <= n
  {
    TwentyDoublings(0);
    FiveDoublings(20);
    FiveDoublings(25);
    Doubles(30);
    Doubles(31);
    Doubles(32);
    ProductIsClose(rn, n, 32);
    TruncateNear(Product(rn, n), n);
  }

  lemma TruncateNear(x: real, n: int)
    requires n >= 0 && Dist(x, n as real) < 1.0
    ensures 0 <= Truncate(x) && n - 1 <= Truncate(x) <= n
  {
  }

  /** Keys of moments at least two microseconds apart sort, and differ, as the moments do. */
  lemma KeysIncrease(rn: real -> real, n: int, n': int)
    requires RoundsToNearest(rn) && 0 <= n && n + 2 <= n' < HORIZON
    ensures TidFromMicros(rn, n).Ok? && TidFromMicros(rn, n').Ok?
    ensures Less(TidFromMicros(rn, n).value, TidFromMicros(rn, n').value)
  {
    AtMostOneMicrosecondLost(rn, n);
    AtMostOneMicrosecondLost(rn, n');
    KeyOrderIsTimeOrder(KeyMicros(rn, n), 0, KeyMicros(rn, n'), 0);
  }

  /** Inside the window of the present one microsecond apart is enough. */
  lemma AdjacentKeysIncrease(rn: real -> real, n: int, n': int)
    requires RoundsToNearest(rn) && Pow2(50) < n as real && n < n' && n' as real < Pow2(31) * 1000000.0
    ensures TidFromMicros(rn, n).Ok? && TidFromMicros(rn, n').Ok?
    ensures Less(TidFromMicros(rn, n).value, TidFromMicros(rn, n').value)
  {
    Doubles(50);
    Doubles(51);
    Doubles(52);
    TwentyDoublings(30);
    SixtyDoublings();
    TruncationIsExact(rn, n, 30);
    TruncationIsExact(rn, n', 30);
    KeyOrderIsTimeOrder(n, 0, n', 0);
  }

  /** Between matching binades a microsecond can go: 2005-09-05 05:58:23.842625 UTC
      gets the key of the microsecond before, however ties are broken. */
  lemma TruncationCanLose(rn: real -> real)
    requires RoundsToNearest(rn)
    ensures KeyMicros(rn, 1125899903842625) == 1125899903842624
  {
    var n := 1125899903842625;
    var t, x := 4722366470286737.0 / 4194304.0, 9007199230740999.0 / 8.0;
    SmallPowers();
    BothRoundingsNearest(rn, n);
    FiveHalvings(4722366470286737.0, 0);
    FiveHalvings(4722366470286737.0 / 32.0, -5);
    FiveHalvings(4722366470286737.0 / 32.0 / 32.0, -10);
    FiveHalvings(4722366470286737.0 / 32.0 / 32.0 / 32.0, -15);
    assert OnGrid(2.0 * (2.0 * t), -20);
    assert OnGrid(t, -22);
    UniqueNearest(n as real / 1000000.0, Timestamp(rn, n), t, 30);
    assert OnGrid(8.0 * x, 0) && OnGrid(4.0 * x, -1) && OnGrid(2.0 * x, -2) && OnGrid(x, -3);
    UniqueNearest(t * 1000000.0, Product(rn, n), x, 49);
  }

  lemma ThirtyDoublings(a: int)
    ensures Pow2(a + 30) == 1073741824.0 * Pow2(a)
  {
    TwentyDoublings(a);
    FiveDoublings(a + 20);
    FiveDoublings(a + 25);
  }

  lemma SmallPowers()
    ensures Pow2(-22) == 1.0 / 4194304.0 && Pow2(30) == 1073741824.0 && Pow2(31) == 2147483648.0
    ensures Pow2(-3) == 0.125 && Pow2(49) == 562949953421312.0 && Pow2(50) == 1125899906842624.0
  {
    TwentyDoublings(-22);
    assert Pow2(-2) == 0.25;
    ThirtyDoublings(0);
    TwentyDoublings(30);
    assert Pow2(-3) == Pow2(-2) / 2.0;
    Doubles(30);
    Doubles(49);
  }

  lemma FiveHalvings(x: real, e: int)
    requires e <= 0 && OnGrid(x, e)
    ensures OnGrid(x / 32.0, e - 5)
  {
    assert OnGrid(x / 2.0, e - 1);
    assert OnGrid(x / 4.0, e - 2);
    assert OnGrid(x / 8.0, e - 3);
    assert OnGrid(x / 16.0, e - 4);
  }

  /** Rounding does not cross a power of two. */
  lemma BinadeFloor(y: real, x: real, k: int)
    requires -1000 <= k <= 900 && Nearest(y, x) && Pow2(k) <= y
    ensures x >= Pow2(k)
  {
    PowersAreExact(k);
    assert Dist(x, y) <= Dist(Pow2(k), y);
  }

  lemma BinadeValue(z: real, k: int)
    requires -1000 <= k <= 900 && OnGrid(z, k - 52) && 0.0 <= z <= Pow2(k + 1)
    ensures IsBinary64(z)
  {
    if z == Pow2(k + 1) {
      PowersAreExact(k + 1);
    } else {
      assert Encodes(z, k - 52);
    }
  }

  /** A grid point less than half a step from y is the only nearest value of y. */
  lemma UniqueNearest(y: real, x: real, z: real, k: int)
    requires -1000 <= k <= 900 && Nearest(y, x) && OnGrid(z, k - 52) && 0.0 <= z <= Pow2(k + 1)
    requires Pow2(k) <= y && 2.0 * Dist(z, y) < Pow2(k - 52)
    ensures x == z
  {
    BinadeValue(z, k);
    assert Dist(x, y) <= Dist(z, y);
    BinadeFloor(y, x, k);
    GridAbove(x, k);
    GridStep(x, z, k - 52);
  }
}
