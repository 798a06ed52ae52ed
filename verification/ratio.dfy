/** Facts about exact rational division used by the scores (the source uses
    floating-point `/`; here every quotient is an exact `real`). */
module Ratio {

  lemma ProductSign(a: real, y: real)
    requires y > 0.0
    ensures a >= 0.0 <==> a * y >= 0.0
  {
  }

  lemma QuotientTimes(x: real, y: real)
    requires y > 0.0
    ensures (x / y) * y == x
  {
  }

  /** A part of a positive whole is a fraction in [0, 1], and the whole itself is 1. */
  lemma QuotientWithin(x: real, y: real)
    requires 0.0 <= x <= y && y > 0.0
    ensures 0.0 <= x / y <= 1.0
    ensures x == y ==> x / y == 1.0
  {
  }

  /** `1 - d / m >= 0.7` for `0 <= d <= m`, `m > 0`, stated exactly in integers. */
  lemma ThresholdExact(d: int, m: int)
    requires 0 <= d <= m && m > 0
    ensures 0.0 <= 1.0 - (d as real) / (m as real) <= 1.0
    ensures 1.0 - (d as real) / (m as real) >= 0.7 <==> 10 * (m - d) >= 7 * m
  {
    var x, y := d as real, m as real;
    var q := x / y;
    QuotientWithin(x, y);
    QuotientTimes(x, y);
    ProductSign(1.0 - q - 0.7, y);
    assert (1.0 - q - 0.7) * y == y - q * y - 0.7 * y;
  }
}
