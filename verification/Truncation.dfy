/**
  Exactly which microsecond counts tid_from_datetime loses one of, and what
  datetime_from_tid makes of the result.
*/
module Truncation {
  import opened Common
  import opened Powers
  import opened Tid
  import opened Microseconds

  // ----- ties to even -------------------------------------------------------

  /** `x` is a multiple of a power of two that `z` is not. */
  predicate EvenBeside(x: real, z: real, e: int) {
    OnGrid(x, e) && !OnGrid(z, e)
  }

  /** binary64 arithmetic: to nearest, and to the even one of two nearest values. */
  ghost predicate RoundsHalfEven(rn: real -> real) {
    && RoundsToNearest(rn)
    && forall y, z | -Pow2(900) < y < Pow2(900) && Nearest(y, z) && z != rn(y) :: exists e :: EvenBeside(rn(y), z, e)
  }

  // ----- the condition ------------------------------------------------------

  /** n / 10^6 in units of 2^(j-52), as whole units and millionths of one. */
  function Remainder(n: int, j: int): int
    requires j <= 52
  {
    n * Pow(2, 52 - j) % 1000000
  }

  /** A count whose seconds have reached 2^j while the count itself is still at or
      below 2^(j+20), and which a rounding down of the seconds takes more than
      half a float step of the count away. */
  predicate Loses(n: int, j: int) {
    && -20 <= j <= 32
    && Pow2(j) * 1000000.0 <= n as real <= Pow2(j + 20)
    && 262144 < Remainder(n, j) < 500000
  }

  /** No binade makes the count lose. */
  ghost predicate Lossless(n: int) {
    forall j :: !Loses(n, j)
  }

  // ----- powers -------------------------------------------------------------

  lemma {:induction false} IntPowIsPow(k: nat)
    ensures Pow(2, k) as real == Pow2(k)
  {
    if k == 0 {
    } else {
      IntPowIsPow(k - 1);
    }
  }

  lemma {:induction false} PowInverse(k: nat)
    ensures Pow2(k) * Pow2(0 - k) == 1.0
  {
    if k == 0 {
    } else {
      PowInverse(k - 1);
      var a, b := Pow2(k - 1), Pow2(1 - k);
      assert Pow2(k) == 2.0 * a && Pow2(0 - k) == b / 2.0;
      assert 2.0 * a * (b / 2.0) == a * b;
    }
  }

  /** q units of u. */
  function Times(q: int, u: real): real {
    q as real * u
  }

  lemma TimesDouble(q: int, e: int)
    ensures Times(q, Pow2(e + 1)) == 2.0 * Times(q, Pow2(e))
  {
  }

  lemma {:induction false} MultipleOnGrid(q: int, e: int)
    ensures OnGrid(Times(q, Pow2(e)), e)
    decreases Magnitude(e)
  {
    if e > 0 {
      MultipleOnGrid(q, e - 1);
      TimesDouble(q, e - 1);
      DoubleOnGrid(Times(q, Pow2(e)), Times(q, Pow2(e - 1)), e);
    } else if e < 0 {
      MultipleOnGrid(q, e + 1);
      TimesDouble(q, e);
      DoubleOnGrid(Times(q, Pow2(e + 1)), Times(q, Pow2(e)), e + 1);
    } else {
      assert Times(q, Pow2(0)) == q as real;
    }
  }

  // ----- the quotient -------------------------------------------------------

  /** q whole units of the seconds are less than half a unit off, and their product
      is off by the remainder. */
  lemma WholeUnits(n: int, k: int, q: int, r: int, u: real)
    requires u > 0.0 && Times(k, u) == 1.0 && n * k == q * 1000000 + r && -500000 < r < 500000
    ensures Times(q, u) * 1000000.0 == n as real - Times(r, u)
    ensures 2.0 * Dist(Times(q, u), n as real / 1000000.0) < u
  {
  }

  /** The facts of one count of the binade j. */
  predicate InBinade(n: int, j: int) {
    -20 <= j <= 32 && 0 < n < HORIZON && Pow2(j) * 1000000.0 <= n as real < Pow2(j + 1) * 1000000.0
  }

  /** A grid point within half a unit of the binade is between its edges. */
  lemma BinadeEdges(y: real, z: real, j: int)
    requires -1000 <= j <= 900 && Pow2(j) <= y < Pow2(j + 1) && OnGrid(z, j - 52)
    requires 2.0 * Dist(z, y) < Pow2(j - 52)
    ensures 0.0 <= z <= Pow2(j + 1)
  {
    Pow2Monotone(j - 52, j);
    if z > Pow2(j + 1) {
      PowerOnGrid(j + 1);
      CoarserBy(Pow2(j + 1), j + 1, j - 52);
      GridStep(z, Pow2(j + 1), j - 52);
    }
  }

  /** The seconds round to `q` units, if the remainder from there is below half a unit. */
  lemma SecondsRoundTo(rn: real -> real, n: int, j: int, q: int, r: int)
    requires RoundsToNearest(rn) && InBinade(n, j)
    requires n * Pow(2, 52 - j) == q * 1000000 + r && -500000 < r < 500000
    ensures Timestamp(rn, n) * 1000000.0 == n as real - Times(r, Pow2(j - 52))
  {
    UnitIsInverse(j);
    WholeUnits(n, Pow(2, 52 - j), q, r, Pow2(j - 52));
    MultipleOnGrid(q, j - 52);
    TimestampIs(rn, n, Times(q, Pow2(j - 52)), j);
  }

  lemma UnitIsInverse(j: int)
    requires j <= 52
    ensures Times(Pow(2, 52 - j), Pow2(j - 52)) == 1.0
  {
    IntPowIsPow(52 - j);
    PowInverse(52 - j);
  }

  lemma TimestampIs(rn: real -> real, n: int, z: real, j: int)
    requires RoundsToNearest(rn) && InBinade(n, j) && OnGrid(z, j - 52)
    requires 2.0 * Dist(z, n as real / 1000000.0) < Pow2(j - 52)
    ensures Timestamp(rn, n) == z
  {
    BothRoundingsNearest(rn, n);
    BinadeEdges(n as real / 1000000.0, z, j);
    UniqueNearest(n as real / 1000000.0, Timestamp(rn, n), z, j);
  }

  // ----- the product --------------------------------------------------------

  /** The exact product, `r` units short of the count. */
  predicate Short(rn: real -> real, n: int, j: int, r: int) {
    Timestamp(rn, n) * 1000000.0 == n as real - Times(r, Pow2(j - 52))
  }

  /** Half a float step of the count, 2^(j-33), is 2^18 units of the seconds. */
  lemma StepInUnits(j: int, r: int)
    ensures Pow2(j - 33) == 524288.0 * Pow2(j - 52)
    ensures r < 262144 ==> 2.0 * Times(r, Pow2(j - 52)) < Pow2(j - 33)
    ensures r == 262144 ==> 2.0 * Times(r, Pow2(j - 52)) == Pow2(j - 33)
    ensures r > 262144 ==> 2.0 * Times(r, Pow2(j - 52)) > Pow2(j - 33)
    ensures r > -262144 ==> 2.0 * Times(r, Pow2(j - 52)) > -Pow2(j - 33)
    ensures r < 524288 ==> Times(r, Pow2(j - 52)) < Pow2(j - 33)
  {
    TwentyDoublings(j - 53);
    Doubles(j - 53);
    var u := Pow2(j - 52);
    ScaleUnits(r, 262144, u);
    ScaleUnits(262144, r, u);
    ScaleUnits(-262144, r, u);
    ScaleUnits(r, 524288, u);
    Constants(u);
  }

  lemma ScaleUnits(a: int, b: int, u: real)
    requires u > 0.0
    ensures a < b ==> Times(a, u) < Times(b, u)
  {
  }

  lemma Constants(u: real)
    ensures Times(262144, u) == 262144.0 * u && Times(524288, u) == 524288.0 * u && Times(-262144, u) == -262144.0 * u
  {
  }

  /** A count in the lower part of its binade, where a float step is 2^(j-33). */
  predicate Low(n: int, j: int) {
    InBinade(n, j) && n as real <= Pow2(j + 20)
  }

  /** The product stays in the binade of the count, 2^(j+19) and up. */
  lemma ProductBinade(n: int, j: int, p: real)
    requires Low(n, j) && n as real - Pow2(j - 33) < p
    ensures Pow2(j + 19) <= p
    ensures OnGrid(n as real, j - 33)
  {
    FiveDoublings(j);
    FiveDoublings(j + 5);
    FiveDoublings(j + 10);
    Doubles(j + 15);
    Doubles(j + 16);
    Doubles(j + 17);
    Doubles(j + 18);
    Pow2Monotone(j - 33, j);
    assert OnGrid(n as real, 0);
    CoarserBy(n as real, 0, j - 33);
  }

  /** Short by less than half a step: the count comes back. */
  lemma ShortByLess(rn: real -> real, n: int, j: int, r: int)
    requires RoundsToNearest(rn) && Low(n, j) && Short(rn, n, j, r) && -262144 < r < 262144
    ensures Product(rn, n) == n as real
  {
    StepInUnits(j, r);
    var p := Timestamp(rn, n) * 1000000.0;
    ProductBinade(n, j, p);
    BothRoundingsNearest(rn, n);
    UniqueNearest(p, Product(rn, n), n as real, j + 19);
  }

  /** Short by more: the step below is nearer. */
  lemma ShortByMore(rn: real -> real, n: int, j: int, r: int)
    requires RoundsToNearest(rn) && Low(n, j) && Short(rn, n, j, r) && 262144 < r < 500000
    ensures Product(rn, n) == n as real - Pow2(j - 33)
  {
    StepInUnits(j, r);
    var p := Timestamp(rn, n) * 1000000.0;
    ProductBinade(n, j, p);
    BothRoundingsNearest(rn, n);
    PowerOnGrid(j - 33);
    Difference(n as real, Pow2(j - 33), j - 33);
    UniqueNearest(p, Product(rn, n), n as real - Pow2(j - 33), j + 19);
  }

  /** Not short at all: the product is the count or above. */
  lemma NotShort(rn: real -> real, n: int, j: int, r: int)
    requires RoundsToNearest(rn) && InBinade(n, j) && Short(rn, n, j, r) && -500000 < r <= 0
    ensures Product(rn, n) >= n as real
  {
    BothRoundingsNearest(rn, n);
    IntegersAreExact(n);
    ScaleUnits(r, 0, Pow2(j - 52));
    var p, x := Timestamp(rn, n) * 1000000.0, Product(rn, n);
    assert Times(0, Pow2(j - 52)) == 0.0;
    assert p >= n as real;
    assert Dist(x, p) <= Dist(n as real, p);
  }

  /** `x` is the even choice, should `z` be as near. */
  ghost predicate EvenAgainst(y: real, x: real, z: real) {
    Nearest(y, z) && z != x ==> exists e :: EvenBeside(x, z, e)
  }

  /** The choice between an integer and the step below it is the integer. */
  lemma HalfwayUp(p: real, x: real, m: real, j: int)
    requires -20 <= j <= 32 && Nearest(p, x) && IsBinary64(m) && OnGrid(m, 0) && OnGrid(m, j - 33)
    requires Pow2(j + 19) <= p && 2.0 * (m - p) == Pow2(j - 33) && EvenAgainst(p, x, m)
    ensures x >= m
  {
    if x < m {
      OneStepBelow(p, x, m, j);
      var e :| EvenBeside(x, m, e);
      OddBelow(m, Pow2(j - 33), j, e);
    }
  }

  lemma PicksEven(rn: real -> real, n: int, z: real)
    requires RoundsHalfEven(rn) && -LIMIT <= n <= LIMIT
    ensures EvenAgainst(Timestamp(rn, n) * 1000000.0, Product(rn, n), z)
  {
    InFloatRange(rn, n);
  }

  /** Halfway: the even neighbour is the count itself. */
  lemma Halfway(rn: real -> real, n: int, j: int)
    requires RoundsHalfEven(rn) && Low(n, j) && Short(rn, n, j, 262144)
    ensures Product(rn, n) >= n as real
  {
    StepInUnits(j, 262144);
    ProductBinade(n, j, Timestamp(rn, n) * 1000000.0);
    BothRoundingsNearest(rn, n);
    IntegersAreExact(n);
    PicksEven(rn, n, n as real);
    HalfwayUp(Timestamp(rn, n) * 1000000.0, Product(rn, n), n as real, j);
  }

  /** Below the count, the nearest value of a halfway product is one step down, and
      the count is as near. */
  lemma OneStepBelow(p: real, x: real, m: real, j: int)
    requires -20 <= j <= 32 && Nearest(p, x) && IsBinary64(m) && OnGrid(m, j - 33) && x < m
    requires Pow2(j + 19) <= p && 2.0 * (m - p) == Pow2(j - 33)
    ensures x == m - Pow2(j - 33) && Nearest(p, m)
  {
    assert Dist(x, p) <= Dist(m, p);
    BinadeFloor(p, x, j + 19);
    GridAbove(x, j + 19);
    if m - x < Pow2(j - 33) { GridStep(x, m, j - 33); }
  }

  lemma InFloatRange(rn: real -> real, n: int)
    requires RoundsToNearest(rn) && -LIMIT <= n <= LIMIT
    ensures -Pow2(900) < Timestamp(rn, n) * 1000000.0 < Pow2(900)
  {
    SixtyDoublings();
    TwentyDoublings(60);
    Pow2Monotone(80, 899);
    Doubles(899);
    PowersAreExact(60);
    BothRoundingsNearest(rn, n);
    var y, t := n as real / 1000000.0, Timestamp(rn, n);
    assert -Pow2(60) <= y <= Pow2(60);
    assert Dist(t, y) <= Dist(Pow2(60), y) && Dist(t, y) <= Dist(-Pow2(60), y);
  }

  /** One step below an integer is an odd number of steps, so on no grid the integer is off. */
  lemma OddBelow(m: real, v: real, j: int, e: int)
    requires j <= 32 && v == Pow2(j - 33) && OnGrid(m, 0) && OnGrid(m - v, e)
    ensures OnGrid(m, e)
  {
    CoarserBy(m, 0, j - 32);
    if e <= j - 32 {
      CoarserBy(m, j - 32, e);
    } else {
      CoarserBy(m - v, e, j - 32);
      Doubles(j - 33);
      GridStep(m, m - v, j - 32);
    }
  }

  // ----- when a microsecond goes --------------------------------------------

  lemma NeverHalf(n: int, j: int)
    requires j <= 32
    ensures Remainder(n, j) != 500000
  {
    var m, q := Pow(2, 46 - j), n * Pow(2, 52 - j) / 1000000;
    assert Pow(2, 52 - j) == 2 * Pow(2, 51 - j) == 4 * Pow(2, 50 - j) == 8 * Pow(2, 49 - j);
    assert Pow(2, 49 - j) == 2 * Pow(2, 48 - j) == 4 * Pow(2, 47 - j) == 8 * m;
    assert n * Pow(2, 52 - j) == 64 * (n * m);
  }

  lemma TruncateAtLeast(x: real, n: int)
    requires n >= 0 && x >= n as real
    ensures Truncate(x) >= n
  {
  }

  lemma TruncateBelow(x: real, n: int)
    requires n >= 1 && x < n as real
    ensures Truncate(x) < n
  {
  }

  /** In the lower part of a binade the remainder decides. */
  lemma LowerPart(rn: real -> real, n: int, j: int)
    requires RoundsHalfEven(rn) && Low(n, j)
    ensures KeyMicros(rn, n) == if 262144 < Remainder(n, j) < 500000 then n - 1 else n
  {
    var k := n * Pow(2, 52 - j);
    var q, r := k / 1000000, k % 1000000;
    AtMostOneMicrosecondLost(rn, n);
    if r < 500000 {
      SecondsRoundTo(rn, n, j, q, r);
      if r < 262144 {
        ShortByLess(rn, n, j, r);
      } else if r == 262144 {
        Halfway(rn, n, j);
        TruncateAtLeast(Product(rn, n), n);
      } else {
        ShortByMore(rn, n, j, r);
        TruncateBelow(Product(rn, n), n);
      }
    } else {
      NeverHalf(n, j);
      SecondsRoundTo(rn, n, j, q + 1, r - 1000000);
      NotShort(rn, n, j, r - 1000000);
      TruncateAtLeast(Product(rn, n), n);
    }
  }

  lemma {:induction false} FindBinade(n: int, top: int) returns (j: int)
    requires -21 <= top <= 32 && 0 < n < HORIZON && n as real < Pow2(top + 1) * 1000000.0
    ensures InBinade(n, j)
    decreases top + 21
  {
    if Pow2(top) * 1000000.0 <= n as real {
      j := top;
      if top == -21 { TinyPower(); }
    } else {
      if top == -21 { TinyPower(); }
      j := FindBinade(n, top - 1);
    }
  }

  lemma TinyPower()
    ensures Pow2(-20) * 1000000.0 < 1.0
  {
    TwentyDoublings(-20);
  }

  lemma HorizonBinade()
    ensures HORIZON as real == Pow2(33) * 1000000.0
  {
    TwentyDoublings(0);
    FiveDoublings(20);
    FiveDoublings(25);
    Doubles(30);
    Doubles(31);
    Doubles(32);
  }

  lemma LossyIsLow(n: int, j: int)
    requires 0 <= n < HORIZON && Loses(n, j)
    ensures Low(n, j)
  {
    TwentyDoublings(j);
    Doubles(j);
  }

  /** A microsecond is lost exactly when the remainder of some binade says so; then
      it is one, and otherwise none. */
  lemma LosesExactlyWhen(rn: real -> real, n: int)
    requires RoundsHalfEven(rn) && 0 <= n < HORIZON
    ensures KeyMicros(rn, n) == n <==> Lossless(n)
    ensures KeyMicros(rn, n) == n || KeyMicros(rn, n) == n - 1
  {
    AtMostOneMicrosecondLost(rn, n);
    forall j | Loses(n, j) ensures KeyMicros(rn, n) == n - 1 {
      LossyIsLow(n, j);
      LowerPart(rn, n, j);
    }
    if Lossless(n) {
      NotLossyIsExact(rn, n);
    }
  }

  lemma NotLossyIsExact(rn: real -> real, n: int)
    requires RoundsHalfEven(rn) && 0 <= n < HORIZON && Lossless(n)
    ensures KeyMicros(rn, n) == n
  {
    if n == 0 {
      WholeSecondsAreExact(rn, 0);
    } else {
      HorizonBinade();
      var j := FindBinade(n, 32);
      if n as real <= Pow2(j + 20) {
        LowerPart(rn, n, j);
        assert !Loses(n, j);
      } else {
        TruncationIsExact(rn, n, j);
      }
    }
  }

  // ----- datetime_from_tid --------------------------------------------------

  function RoundHalfEven(x: real): int {
    var f := x.Floor;
    if x - f as real < 0.5 || (x - f as real == 0.5 && f % 2 == 0) then f else f + 1
  }

  /** datetime.fromtimestamp: the fraction of a second goes to the nearest microsecond. */
  function FromTimestamp(rn: real -> real, t: real): int {
    Truncate(t) * 1000000 + RoundHalfEven(rn((t - Truncate(t) as real) * 1000000.0))
  }

  function DatetimeFromTid(rn: real -> real, tid: string): Result<int, TidError> {
    if IsTid(tid) then Ok(FromTimestamp(rn, Timestamp(rn, Value(tid) / 1024)))
    else Err(if PatternMatches(tid) then KeyError else ValueError)
  }

  lemma SixtyFourths(m: int)
    requires 0 - 0x1_0000_0000 < m < 0x1_0000_0000
    ensures IsBinary64(m as real / 64.0)
  {
    assert Pow2(-6) == 1.0 / 64.0;
    MultipleOnGrid(m, -6);
    assert Times(m, Pow2(-6)) == m as real / 64.0;
    SixtyDoublings();
    TwentyDoublings(0);
    FiveDoublings(20);
    Pow2Monotone(25, 47);
    TwentyDoublings(20);
    Pow2Monotone(40, 47);
    assert Encodes(m as real / 64.0, -6);
  }

  /** The timestamp of a count is within 2^-21 seconds, its fraction within half a microsecond. */
  lemma FractionOf(rn: real -> real, n: int)
    requires RoundsToNearest(rn) && 0 <= n < HORIZON
    ensures var t := Timestamp(rn, n);
      && Truncate(t) == n / 1000000
      && 64.0 * Dist((t - Truncate(t) as real) * 1000000.0, (n % 1000000) as real) < 31.0
  {
    var t := Timestamp(rn, n);
    HorizonBinade();
    ProductError(rn, n, 32);
    TwentyDoublings(-20);
    assert Pow2(-21) == Pow2(-20) / 2.0;
    if n % 1000000 == 0 {
      WholeSecond(rn, n / 1000000);
    } else {
      SecondBounds(t, n);
    }
  }

  lemma WholeSecond(rn: real -> real, seconds: int)
    requires RoundsToNearest(rn) && 0 <= seconds * 1000000 < HORIZON
    ensures Timestamp(rn, seconds * 1000000) == seconds as real
  {
    BothRoundingsNearest(rn, seconds * 1000000);
    IntegersAreExact(seconds);
    assert (seconds * 1000000) as real / 1000000.0 == seconds as real;
    assert Dist(Timestamp(rn, seconds * 1000000), seconds as real) <= Dist(seconds as real, seconds as real);
  }

  lemma SecondBounds(t: real, n: int)
    requires n >= 0 && n % 1000000 != 0 && 64.0 * Dist(t * 1000000.0, n as real) < 31.0
    ensures Truncate(t) == n / 1000000
  {
  }

  /** datetime_from_tid gives back exactly the microseconds the key holds. */
  lemma MomentIsExact(rn: real -> real, n: int)
    requires RoundsToNearest(rn) && 0 <= n < HORIZON
    ensures FromTimestamp(rn, Timestamp(rn, n)) == n
  {
    FractionOf(rn, n);
    var t := Timestamp(rn, n);
    FractionRounds(rn, (t - Truncate(t) as real) * 1000000.0, n % 1000000);
  }

  lemma FractionRounds(rn: real -> real, p: real, k: int)
    requires RoundsToNearest(rn) && 0 <= k < 1000000 && 64.0 * Dist(p, k as real) < 31.0
    ensures RoundHalfEven(rn(p)) == k
  {
    SixtyFourths(64 * k - 31);
    SixtyFourths(64 * k + 31);
    TwentyDoublings(0);
    Pow2Monotone(20, 900);
    NearestStaysClose(p, rn(p), k);
  }

  lemma NearestStaysClose(p: real, x: real, k: int)
    requires Nearest(p, x) && 64.0 * Dist(p, k as real) < 31.0
    requires IsBinary64((64 * k - 31) as real / 64.0) && IsBinary64((64 * k + 31) as real / 64.0)
    ensures RoundHalfEven(x) == k
  {
  }

  lemma KeyEncodes(rn: real -> real, n: int)
    requires RoundsToNearest(rn) && 0 <= n < HORIZON
    ensures 0 <= KeyMicros(rn, n) < HORIZON && TidFromMicros(rn, n) == Ok(TidOf(KeyMicros(rn, n), 0))
  {
    AtMostOneMicrosecondLost(rn, n);
  }

  lemma MomentOfKey(rn: real -> real, us: nat, tid: string)
    requires RoundsToNearest(rn) && us < HORIZON && IsTid(tid) && Value(tid) / 1024 == us
    ensures DatetimeFromTid(rn, tid) == Ok(us)
  {
    MomentIsExact(rn, us);
  }

  /** datetime_from_tid gives back what the key of a moment holds. */
  lemma DecodedKey(rn: real -> real, n: int)
    requires RoundsToNearest(rn) && 0 <= n < HORIZON
    ensures TidFromMicros(rn, n).Ok? && DatetimeFromTid(rn, TidFromMicros(rn, n).value) == Ok(KeyMicros(rn, n))
  {
    KeyEncodes(rn, n);
    var us := KeyMicros(rn, n);
    DecodeEncode(us, 0);
    MomentOfKey(rn, us, TidOf(us, 0));
  }

  /** datetime_from_tid(tid_from_datetime(moment)) == moment exactly when the key
      loses nothing, and is otherwise the microsecond before. */
  lemma RoundTripExactlyWhen(rn: real -> real, n: int)
    requires RoundsHalfEven(rn) && 0 <= n < HORIZON
    ensures TidFromMicros(rn, n).Ok?
    ensures var back := DatetimeFromTid(rn, TidFromMicros(rn, n).value);
      && (back == Ok(n) <==> Lossless(n))
      && (back != Ok(n) ==> back == Ok(n - 1))
  {
    DecodedKey(rn, n);
    LosesExactlyWhen(rn, n);
  }
}
