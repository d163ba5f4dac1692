/** `calculatePercentageChange`: the relative change from a previous value to a
    current one, in percent, rounded half-up to one decimal place, with its own
    policy for a zero previous value. Numbers are exact reals here. */
module Calculations {

  function Abs(x: real): (r: real)
    ensures r >= 0.0 && (r == x || r == -x)
  {
    if x < 0.0 then -x else x
  }

  /** `Math.round`: the nearest integer, halves rounded up (towards +infinity). */
  function Round(x: real): (n: int)
    ensures x - 0.5 < n as real <= x + 0.5
  {
    (x + 0.5).Floor
  }

  /** The unrounded relative change in percent, measured against `|previous|`. */
  function ExactChange(previous: real, current: real): real
    requires previous != 0.0
  {
    (current - previous) / Abs(previous) * 100.0
  }

  /** `r` is a whole number of tenths. */
  predicate IsTenths(r: real) {
    (r * 10.0).Floor as real == r * 10.0
  }

  /** Both zero: no change. Zero previous value only: 100, whatever the sign of
      `current`. Otherwise the exact change rounded half-up to a tenth: the
      result is a whole number of tenths within half a tenth of the exact
      change (an exact half-tenth rounds up). */
  function PercentageChange(previous: real, current: real): (r: real)
    ensures previous == 0.0 && current == 0.0 ==> r == 0.0
    ensures previous == 0.0 && current != 0.0 ==> r == 100.0
    ensures previous != 0.0 ==>
              ExactChange(previous, current) - 0.05 < r <= ExactChange(previous, current) + 0.05
    ensures IsTenths(r)
  {
    if previous == 0.0 && current == 0.0 then 0.0
    else if previous == 0.0 then 100.0
    else Round(ExactChange(previous, current) * 10.0) as real / 10.0
  }

  /** Equal values, zero or not, give 0. */
  lemma EqualValuesNoChange(v: real)
    ensures PercentageChange(v, v) == 0.0
  {
    if v != 0.0 {
      assert ExactChange(v, v) == 0.0;
    }
  }

  /** Against a nonzero previous value, growth gives a result of at least 0 and a
      decrease a result of at most 0. */
  lemma ChangeFollowsSign(previous: real, current: real)
    requires previous != 0.0
    ensures current >= previous ==> PercentageChange(previous, current) >= 0.0
    ensures current < previous ==> PercentageChange(previous, current) <= 0.0
  {
    var e := ExactChange(previous, current);
    assert current >= previous ==> e >= 0.0 by {
      assert Abs(previous) > 0.0;
    }
    assert current < previous ==> e < 0.0 by {
      assert Abs(previous) > 0.0;
    }
    var n := Round(e * 10.0);
    assert e >= 0.0 ==> n >= 0;
    assert e < 0.0 ==> n <= 0;
  }

  /** Against a fixed nonzero previous value, the result grows with `current`. */
  lemma MonotoneInCurrent(previous: real, c1: real, c2: real)
    requires previous != 0.0 && c1 <= c2
    ensures PercentageChange(previous, c1) <= PercentageChange(previous, c2)
  {
    ExactChangeMonotone(previous, c1, c2);
    var x1, x2 := ExactChange(previous, c1) * 10.0, ExactChange(previous, c2) * 10.0;
    FloorMonotone(x1 + 0.5, x2 + 0.5);
    TenthsMonotone(Round(x1), Round(x2));
  }

  lemma ExactChangeMonotone(previous: real, c1: real, c2: real)
    requires previous != 0.0 && c1 <= c2
    ensures ExactChange(previous, c1) * 10.0 <= ExactChange(previous, c2) * 10.0
  {
    var a := Abs(previous);
    assert (c2 - previous) / a - (c1 - previous) / a == (c2 - c1) / a;
    DivNonNegative(c2 - c1, a);
  }

  lemma TenthsMonotone(n1: int, n2: int)
    requires n1 <= n2
    ensures n1 as real / 10.0 <= n2 as real / 10.0
  {
  }

  lemma DivNonNegative(x: real, a: real)
    requires x >= 0.0 && a > 0.0
    ensures x / a >= 0.0
  {
  }

  lemma FloorMonotone(x: real, y: real)
    requires x <= y
    ensures x.Floor <= y.Floor
  {
  }

  /** The worked values: (0, 0) gives 0, (0, 50) gives 100, (100, 150) gives 50
      and (100, 80) gives -20. */
  lemma WorkedValues()
    ensures PercentageChange(0.0, 0.0) == 0.0
    ensures PercentageChange(0.0, 50.0) == 100.0
    ensures PercentageChange(100.0, 150.0) == 50.0
    ensures PercentageChange(100.0, 80.0) == -20.0
  {
    assert ExactChange(100.0, 150.0) == 50.0;
    assert Round(500.0) == 500;
    assert ExactChange(100.0, 80.0) == -20.0;
    assert Round(-200.0) == -200;
  }
}
