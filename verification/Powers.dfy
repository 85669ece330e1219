/** Powers and distances, defined once for the modules that calculate. */
module Powers {
  /** b^n for integers */
  function Pow(b: nat, n: nat): (p: nat)
    ensures b > 0 ==> p > 0
  {
    if n == 0 then 1 else b * Pow(b, n - 1)
  }

  function Magnitude(e: int): nat {
    if e < 0 then -e else e
  }

  /** 2^e for any integer e */
  function Pow2(e: int): (p: real)
    ensures p > 0.0 && (e >= 0 ==> p >= 1.0)
    decreases Magnitude(e)
  {
    if e == 0 then 1.0 else if e > 0 then 2.0 * Pow2(e - 1) else Pow2(e + 1) / 2.0
  }

  function Dist(x: real, y: real): (d: real)
    ensures d >= 0.0
  {
    if x < y then y - x else x - y
  }
}
