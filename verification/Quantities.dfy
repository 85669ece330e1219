/**
  net.atmowx.defs#quantity (observation/quantity.py): a decimal as value * 10^scale.
  Readings are exact rationals here; the float is whatever decimal str() shows.
*/
module Quantities {
  import opened Common
  import opened Powers

  const SAFE: int := 0x1F_FFFF_FFFF_FFFF  // 2^53 - 1

  datatype Float = Finite(value: real) | NonFinite

  /** A scale of zero is left out of the dict. */
  datatype Quantity = Quantity(value: int, scale: int)

  datatype EncodingError = BadDecimals | NotFinite | TooManyDigits | OutOfSafeRange

  // ----- specification ------------------------------------------------------

  function Abs(n: int): nat {
    if n < 0 then -n else n
  }

  /** ROUND_HALF_UP: to the nearest integer, halves away from zero. */
  function HalfUp(x: real): int {
    if x >= 0.0 then (x + 0.5).Floor else -((-x + 0.5).Floor)
  }

  function Scaled(v: real, d: nat): real {
    v * Pow(10, d) as real
  }

  /** The significand before folding: v in units of 10^-d. */
  function Significand(v: real, d: nat): int {
    HalfUp(Scaled(v, d))
  }

  /** A canonical quantity has no decimals to spare. */
  predicate Canonical(q: Quantity) {
    -9 <= q.scale <= 0 && (q.scale < 0 ==> q.value % 10 != 0)
  }

  /** `q` in units of 10^-d. */
  function Units(q: Quantity, d: nat): int
    requires q.scale + d >= 0
  {
    q.value * Pow(10, q.scale + d)
  }

  function Denotes(q: Quantity): real
    requires q.scale <= 0
  {
    q.value as real / Pow(10, -q.scale) as real
  }

  /** n units of 10^-d, with trailing zeros folded away while decimals are left. */
  function Fold(n: int, d: nat): (q: Quantity)
    ensures 0 - d <= q.scale <= 0
    decreases d
  {
    if n == 0 then Quantity(0, 0)
    else if d > 0 && n % 10 == 0 then Fold(n / 10, d - 1)
    else Quantity(n, 0 - d)
  }

  /** What a finite reading is rounded to, safe or not. */
  function Rounded(v: real, d: nat): Quantity
  {
    Fold(Significand(v, d), d)
  }

  function Encode(v: Float, d: int): (r: Result<Quantity, EncodingError>)
    ensures r.Ok? ==> 0 <= d <= 9 && -d <= r.value.scale <= 0
  {
    if !(0 <= d <= 9) then Err(BadDecimals)
    else if v.NonFinite? then Err(NotFinite)
    else if Abs(Significand(v.value, d)) >= Pow(10, 28) then Err(TooManyDigits)
    else if Abs(Rounded(v.value, d).value) > SAFE then Err(OutOfSafeRange)
    else Ok(Rounded(v.value, d))
  }

  // ----- the loop -----------------------------------------------------------

  method ToQuantity(value: Float, decimals: int) returns (r: Result<Quantity, EncodingError>)
    ensures r == Encode(value, decimals)
    ensures r.Ok? ==>
      && Canonical(r.value) && r.value.scale + decimals >= 0 && Abs(r.value.value) <= SAFE
      && Units(r.value, decimals) == Significand(value.value, decimals)
    ensures r.Err? <==>
      !(0 <= decimals <= 9) || value.NonFinite? || Abs(Rounded(value.value, decimals).value) > SAFE
  {
    if !(0 <= decimals <= 9) {
      return Err(BadDecimals);
    }
    if value.NonFinite? {
      return Err(NotFinite);
    }
    var scaled := HalfUp(Scaled(value.value, decimals));
    if Abs(scaled) >= Pow(10, 28) {
      DigitLimitIsRedundant(scaled, decimals);
      return Err(TooManyDigits);
    }
    var significand, scale := scaled, -decimals;
    while scale < 0 && significand != 0 && significand % 10 == 0
      invariant -decimals <= scale <= 0
      invariant Fold(significand, -scale) == Fold(scaled, decimals)
    {
      significand := significand / 10;
      scale := scale + 1;
    }
    if significand == 0 {
      scale := 0;
    }
    FoldIsCanonical(scaled, decimals);
    if Abs(significand) > SAFE {
      return Err(OutOfSafeRange);
    }
    return Ok(Quantity(significand, scale));
  }

  lemma {:induction false} FoldIsCanonical(n: int, d: nat)
    requires d <= 9
    ensures Canonical(Fold(n, d)) && n == Units(Fold(n, d), d)
    decreases d
  {
    if n == 0 || d == 0 || n % 10 != 0 {
    } else {
      FoldIsCanonical(n / 10, d - 1);
      TenTimes(Fold(n, d).value, Pow(10, Fold(n, d).scale + d - 1));
    }
  }

  lemma TenTimes(a: int, p: int)
    ensures 10 * (a * p) == a * (10 * p)
  {
  }

  // ----- the 28-digit limit -------------------------------------------------

  /** Folding takes off at most d digits. */
  lemma {:induction false} FoldKeepsSize(n: int, d: nat)
    requires n != 0
    ensures Abs(n) <= Abs(Fold(n, d).value) * Pow(10, d)
    decreases d
  {
    if d == 0 || n % 10 != 0 {
      AtLeastItself(Abs(n), Pow(10, d));
    } else {
      FoldKeepsSize(n / 10, d - 1);
      TenTimes(Abs(Fold(n, d).value), Pow(10, d - 1));
    }
  }

  lemma AtLeastItself(a: nat, p: nat)
    requires p > 0
    ensures a <= a * p
  {
  }

  /** Nothing the decimal context refuses for its 28 digits would have been safe. */
  lemma DigitLimitIsRedundant(n: int, d: nat)
    requires d <= 9 && Abs(n) >= Pow(10, 28)
    ensures Abs(Fold(n, d).value) > SAFE
  {
    FoldKeepsSize(n, d);
    PowersOfTen();
    Pow10Monotone(d, 9);
    var v := Abs(Fold(n, d).value);
    if v <= SAFE { Product(v, SAFE, Pow(10, d), Pow(10, 9)); }
  }

  lemma Product(a: nat, b: nat, p: nat, q: nat)
    requires a <= b && p <= q
    ensures a * p <= b * q
  {
  }

  lemma PowersOfTen()
    ensures Pow(10, 9) == 1000000000 && Pow(10, 28) == 10000000000000000000000000000
  {
    assert Pow(10, 7) == 10000000;
    assert Pow(10, 9) == 10 * (10 * Pow(10, 7));
    assert Pow(10, 14) == Pow(10, 7) * 10000000 by { Pow10Adds(7, 7); }
    assert Pow(10, 28) == Pow(10, 14) * Pow(10, 14) by { Pow10Adds(14, 14); }
  }

  lemma {:induction false} Pow10Adds(a: nat, b: nat)
    ensures Pow(10, a + b) == Pow(10, a) * Pow(10, b)
  {
    if b == 0 {
    } else {
      Pow10Adds(a, b - 1);
      TenTimes(Pow(10, a), Pow(10, b - 1));
    }
  }

  lemma {:induction false} Pow10Monotone(a: nat, b: nat)
    requires a <= b
    ensures Pow(10, a) <= Pow(10, b)
  {
    if a == b {
    } else {
      Pow10Monotone(a, b - 1);
    }
  }

  // ----- fidelity -----------------------------------------------------------

  lemma HalfUpOfInteger(n: int)
    ensures HalfUp(n as real) == n
  {
  }

  lemma SignificandIsNearest(v: real, d: nat)
    ensures Dist(Significand(v, d) as real, Scaled(v, d)) <= 0.5
  {
  }

  lemma ProductGrows(v: real, w: real, p: real)
    requires v <= w && p > 0.0
    ensures v * p <= w * p
  {
  }

  lemma HalfUpGrows(x: real, y: real)
    requires x <= y
    ensures HalfUp(x) <= HalfUp(y)
  {
  }

  lemma SignificandIsMonotone(v: real, w: real, d: nat)
    requires v <= w
    ensures Significand(v, d) <= Significand(w, d)
  {
    ProductGrows(v, w, Pow(10, d) as real);
    HalfUpGrows(Scaled(v, d), Scaled(w, d));
  }

  /** An accepted encoding denotes the rounded reading, in units of 10^-d. */
  lemma EncodedUnits(v: real, d: nat)
    requires Encode(Finite(v), d).Ok?
    ensures var q := Encode(Finite(v), d).value;
      Canonical(q) && q.scale + d >= 0 && Units(q, d) == Significand(v, d)
  {
    FoldIsCanonical(Significand(v, d), d);
  }

  /** An accepted encoding is within half a unit at `decimals`, in those units. */
  lemma EncodingIsFaithful(v: real, d: nat)
    requires Encode(Finite(v), d).Ok?
    ensures var q := Encode(Finite(v), d).value;
      q.scale + d >= 0 && Dist(Units(q, d) as real, Scaled(v, d)) <= 0.5
  {
    EncodedUnits(v, d);
    SignificandIsNearest(v, d);
  }

  /** Larger readings never encode smaller. */
  lemma EncodingIsMonotone(v: real, w: real, d: nat)
    requires v <= w && Encode(Finite(v), d).Ok? && Encode(Finite(w), d).Ok?
    ensures var p, q := Encode(Finite(v), d).value, Encode(Finite(w), d).value;
      p.scale + d >= 0 && q.scale + d >= 0 && Units(p, d) <= Units(q, d)
  {
    EncodedUnits(v, d);
    EncodedUnits(w, d);
    SignificandIsMonotone(v, w, d);
  }

  // ----- canonicity ---------------------------------------------------------

  /** In units of 10^-d, what a quantity denotes. */
  lemma UnitsDenote(q: Quantity, d: nat)
    requires q.scale <= 0 && q.scale + d >= 0
    ensures Scaled(Denotes(q), d) == Units(q, d) as real
  {
    var down, up := Pow(10, -q.scale), Pow(10, q.scale + d);
    Pow10Adds(-q.scale, q.scale + d);
    assert Pow(10, d) == down * up;
    Cancel(q.value, down, up);
  }

  lemma Cancel(a: int, p: nat, r: nat)
    requires p > 0
    ensures a as real / p as real * (p * r) as real == (a * r) as real
  {
  }

  /** Folding undoes the scaling of a canonical quantity. */
  lemma {:induction false} FoldOfUnits(q: Quantity, d: nat)
    requires Canonical(q) && q.scale + d >= 0
    ensures Fold(Units(q, d), d) == q
    decreases q.scale + d
  {
    if q.value == 0 {
    } else if q.scale + d == 0 {
    } else {
      var n := Units(q, d - 1);
      TenTimes(q.value, Pow(10, q.scale + d - 1));
      assert Units(q, d) == 10 * n;
      FoldOfUnits(q, d - 1);
      NotZero(q.value, Pow(10, q.scale + d - 1));
    }
  }

  lemma NotZero(a: int, p: nat)
    requires a != 0 && p > 0
    ensures a * p != 0
  {
  }

  /** Quantities that denote the same number are identical. */
  lemma CanonicalIsUnique(p: Quantity, q: Quantity)
    requires Canonical(p) && Canonical(q) && Denotes(p) == Denotes(q)
    ensures p == q
  {
    SameUnits(p, q);
    FoldOfUnits(p, 9);
    FoldOfUnits(q, 9);
  }

  lemma SameUnits(p: Quantity, q: Quantity)
    requires -9 <= p.scale <= 0 && -9 <= q.scale <= 0 && Denotes(p) == Denotes(q)
    ensures Units(p, 9) == Units(q, 9)
  {
    UnitsDenote(p, 9);
    UnitsDenote(q, 9);
  }

  /** decode then encode: the exact value of a quantity, at any number of decimals
      that can hold it, encodes to that quantity again. */
  lemma ReencodingIsIdentity(q: Quantity, d: nat)
    requires Canonical(q) && Abs(q.value) <= SAFE && -q.scale <= d <= 9
    ensures Encode(Finite(Denotes(q)), d) == Ok(q)
  {
    UnitsDenote(q, d);
    HalfUpOfInteger(Units(q, d));
    FoldOfUnits(q, d);
    if Abs(Significand(Denotes(q), d)) >= Pow(10, 28) {
      DigitLimitIsRedundant(Significand(Denotes(q), d), d);
    }
  }

  /** encode, decode, encode: nothing further is lost at any finer precision. */
  lemma EncodingIsStable(v: real, d: nat, finer: nat)
    requires Encode(Finite(v), d).Ok? && d <= finer <= 9
    ensures Encode(Finite(Denotes(Encode(Finite(v), d).value)), finer) == Encode(Finite(v), d)
  {
    FoldIsCanonical(Significand(v, d), d);
    ReencodingIsIdentity(Encode(Finite(v), d).value, finer);
  }
}
