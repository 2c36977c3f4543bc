/** Exact real arithmetic standing in for the Python floats of the core, and
    Python 2's one-argument `round` over it. */
module Reals {

  function Abs(x: real): real {
    if x < 0.0 then -x else x
  }

  /** `round(x)` in Python 2: the nearest integer, with halves rounded away from zero. */
  function RoundHalfAway(x: real): (r: int)
    ensures Abs(r as real - x) <= 0.5
    ensures Abs(r as real - x) == 0.5 ==> (x > 0.0 ==> r as real > x) && (x < 0.0 ==> r as real < x)
  {
    if x >= 0.0 then (x + 0.5).Floor else -((-x + 0.5).Floor)
  }

  /** Rounding a value that already lies between two integers stays between them. */
  lemma RoundBetween(x: real, lo: int, hi: int)
    requires lo as real <= x <= hi as real
    ensures lo <= RoundHalfAway(x) <= hi
  {
  }

  /** Rounding an integer gives it back. */
  lemma RoundOfInt(n: int)
    ensures RoundHalfAway(n as real) == n
  {
  }

  /** Rounding is monotone. */
  lemma RoundMonotone(x: real, y: real)
    requires x <= y
    ensures RoundHalfAway(x) <= RoundHalfAway(y)
  {
    if x >= 0.0 {
      assert y >= 0.0;
    } else if y < 0.0 {
      assert -y + 0.5 <= -x + 0.5;
    }
  }

  /** Multiplying by a non-negative factor keeps order. */
  lemma MulMonotone(a: real, b: real, q: real)
    requires a <= b && 0.0 <= q
    ensures a * q <= b * q
  {
  }
}
