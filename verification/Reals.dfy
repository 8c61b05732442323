/** Clamping and extrema, as numpy and Python compute them, over exact reals. */
module Reals {
  function Clip01(x: real): (r: real)
    ensures 0.0 <= r <= 1.0 && (0.0 <= x <= 1.0 ==> r == x) && (x < 0.0 ==> r == 0.0) && (x > 1.0 ==> r == 1.0)
  {
    if x < 0.0 then 0.0 else if x > 1.0 then 1.0 else x
  }

  function MaxReal(a: real, b: real): (r: real)
    ensures r >= a && r >= b && (r == a || r == b)
  {
    if b > a then b else a
  }

  /** A quotient compares to a number as the dividend does to that many divisors. */
  lemma Quotient(a: real, d: real, r: real)
    requires d > 0.0
    ensures a / d * d == a
    ensures (a / d > r <==> a > r * d) && (a / d < r <==> a < r * d)
  {
    Scales(a / d, r, d);
    Scales(r, a / d, d);
  }

  lemma Scales(a: real, b: real, d: real)
    requires d > 0.0
    ensures a > b <==> a * d > b * d
  {
  }

  function MinReal(a: real, b: real): (r: real)
    ensures r <= a && r <= b && (r == a || r == b)
  {
    if b < a then b else a
  }
}
