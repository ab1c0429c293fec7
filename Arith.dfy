/** The Java arithmetic that the average-speed computation relies on. */
module Arith {

  /** Java's `/` on `long`: the quotient truncated toward zero (Dafny's own `/` is Euclidean). */
  function TruncDiv(a: int, b: int): (q: int)
    requires b > 0
    ensures a >= 0 ==> 0 <= q && q * b <= a < (q + 1) * b
    ensures a < 0 ==> q <= 0 && (q - 1) * b < a <= q * b
  {
    if a >= 0 then
      var q := a / b;
      EuclideanStep(a, b, q);
      q
    else
      var q := (-a) / b;
      EuclideanStep(-a, b, q);
      assert (-q) * b == -(q * b) && (-q - 1) * b == -(q * b) - b;
      -q
  }

  /** Dafny's `/` on a nonnegative dividend: the largest multiple of `b` that does not exceed `a`. */
  lemma EuclideanStep(a: int, b: int, q: int)
    requires a >= 0 && b > 0 && q == a / b
    ensures 0 <= q && q * b <= a < (q + 1) * b
  {
    var m := a % b;
    assert a == q * b + m && 0 <= m < b;
    assert (q + 1) * b == q * b + b;
  }

  /** A Java `float` result of a division: a number, an infinity, or NaN. */
  datatype Speed = Finite(value: real) | PosInfinity | NegInfinity | NaN

  /** Java's `float / long`: `d / s`, with IEEE 754 results when the divisor is zero. */
  function FloatQuotient(d: real, s: int): (r: Speed)
    ensures r.Finite? <==> s != 0
    ensures r.Finite? ==> r.value * (s as real) == d
    ensures r.PosInfinity? <==> s == 0 && d > 0.0
    ensures r.NegInfinity? <==> s == 0 && d < 0.0
    ensures r.NaN? <==> s == 0 && d == 0.0
  {
    if s != 0 then Finite(d / s as real)
    else if d > 0.0 then PosInfinity
    else if d < 0.0 then NegInfinity
    else NaN
  }

  /** Milliseconds per second: timestamps are epoch milliseconds. */
  const MillisPerSecond := 1000

  /** `distance / ((endTime - startTime) / 1000)`: metres per whole elapsed second. */
  function AverageSpeed(distance: real, startTime: int, endTime: int): (r: Speed)
    ensures r.Finite? <==> endTime - startTime >= MillisPerSecond || endTime - startTime <= -MillisPerSecond
    ensures r.Finite? ==> r.value * (TruncDiv(endTime - startTime, MillisPerSecond) as real) == distance
    ensures 0 <= endTime - startTime < MillisPerSecond && distance > 0.0 ==> r == PosInfinity
  {
    FloatQuotient(distance, TruncDiv(endTime - startTime, MillisPerSecond))
  }
}
