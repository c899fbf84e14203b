/**
 * The numeric conventions the calculators rely on: a float is either a finite
 * value (kept as an exact real), not-a-number, or a signed infinity; division
 * follows IEEE-754 for a zero divisor; and `np.round(x, decimals=2)` rounds to
 * the nearest hundredth with ties to the even neighbour.
 */
module Numerics {

  /** A numpy float result. Finite values are exact reals; binary rounding is not modelled. */
  datatype Float = Finite(value: real) | NaN | Infinity(negative: bool)

  /** `a / b` on floats: a finite quotient, or the IEEE-754 result for a zero divisor. */
  function Divide(a: real, b: real): (r: Float)
    ensures r.Finite? <==> b != 0.0
    ensures r.Finite? ==> r.value * b == a
    ensures r.NaN? <==> a == 0.0 && b == 0.0
    ensures r.Infinity? ==> (r.negative <==> a < 0.0)
  {
    if b != 0.0 then Finite(a / b)
    else if a == 0.0 then NaN
    else Infinity(a < 0.0)
  }

  /** `v` is a whole number of hundredths: it has at most two decimals. */
  predicate Hundredths(v: real)
  {
    (v * 100.0).Floor as real == v * 100.0
  }

  /** Nearest integer to `x`, ties to the even one. */
  function RoundHalfEven(x: real): (n: int)
    ensures x - 0.5 <= n as real <= x + 0.5
    ensures (n as real == x - 0.5 || n as real == x + 0.5) ==> n % 2 == 0
    ensures x == x.Floor as real ==> n == x.Floor
  {
    var f := x.Floor;
    var d := x - f as real;
    if d < 0.5 then f
    else if d > 0.5 then f + 1
    else if f % 2 == 0 then f
    else f + 1
  }

  /** `np.round(x, decimals=2)` on an exact real. */
  function Round2(x: real): (r: real)
    ensures -0.005 <= r - x <= 0.005
    ensures Hundredths(r)
  {
    var y := x * 100.0;
    var n := RoundHalfEven(y);
    var r := n as real / 100.0;
    assert r * 100.0 == n as real;
    assert (n as real).Floor == n;
    r
  }

  /** `np.round(x, decimals=2)` on a float: NaN and the infinities pass through unchanged. */
  function RoundFloat(x: Float): (r: Float)
    ensures r.Finite? <==> x.Finite?
    ensures r.Finite? ==> -0.005 <= r.value - x.value <= 0.005
    ensures r.Finite? ==> Hundredths(r.value)
    ensures !x.Finite? ==> r == x
  {
    match x
    case Finite(v) => Finite(Round2(v))
    case _ => x
  }

  /** A value that already has at most two decimals is left unchanged by rounding. */
  lemma Round2Exact(k: int)
    ensures Round2(k as real / 100.0) == k as real / 100.0
  {
    assert (k as real / 100.0) * 100.0 == k as real;
  }
}
