/** Python's `round` and rounding a price to a multiple of a strike step. */
module Rounding {
  /** Python's `round(x)`: the nearest integer, ties to the even one. */
  function RoundHalfEven(x: real): (r: int)
    ensures x - 0.5 <= r as real <= x + 0.5
    ensures r as real - x == 0.5 || x - r as real == 0.5 ==> r % 2 == 0
  {
    var f := x.Floor;
    var d := x - f as real;
    if d < 0.5 then f
    else if d > 0.5 then f + 1
    else if f % 2 == 0 then f else f + 1
  }

  function Abs(x: real): real {
    if x < 0.0 then -x else x
  }

  /** `round(x)` is an integer nearest to `x`. */
  lemma RoundNearest(x: real, n: int)
    ensures Abs(x - RoundHalfEven(x) as real) <= Abs(x - n as real)
  {
    var r := RoundHalfEven(x);
    if n < r {
      assert n as real <= r as real - 1.0;
    } else if n > r {
      assert n as real >= r as real + 1.0;
    }
  }

  /** `round(x / step) * step`: the multiple of `step` nearest to `x`. */
  function StepRound(x: real, step: real): real
    requires step != 0.0
  {
    RoundHalfEven(x / step) as real * step
  }

  /** `|a - b| <= step / 2` */
  predicate Near(a: real, b: real, step: real) {
    -step / 2.0 <= a - b <= step / 2.0
  }

  /** `a` is a whole multiple of `step`. */
  predicate IsMultiple(a: real, step: real)
    requires step != 0.0
  {
    (a / step).Floor as real == a / step
  }

  /** Rounding to a multiple of a positive step moves by at most half a
      step. */
  lemma RoundedNear(x: real, step: real)
    requires step > 0.0
    ensures Near(StepRound(x, step), x, step) && IsMultiple(StepRound(x, step), step)
  {
    var q := x / step;
    var k := RoundHalfEven(q);
    var d := k as real - q;
    assert q * step == x;
    assert k as real * step - x == d * step;
    ScaleHalf(d, step);
    MultipleOf(k, step);
    assert StepRound(x, step) - x == d * step;
  }

  lemma MultipleOf(k: int, step: real)
    requires step != 0.0
    ensures IsMultiple(k as real * step, step)
  {
    assert (k as real * step) / step == k as real;
  }

  lemma ScaleHalf(d: real, step: real)
    requires -0.5 <= d <= 0.5 && step > 0.0
    ensures -step / 2.0 <= d * step <= step / 2.0
  {
    if d >= 0.0 {
      assert d * step <= 0.5 * step;
    } else {
      assert d * step >= -0.5 * step;
    }
  }
}
