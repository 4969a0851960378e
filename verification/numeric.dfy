/** Python's numeric conversions on floats, written out over exact reals. */
module Numeric {

  function Abs(x: int): nat {
    if x < 0 then -x else x
  }

  /** `int(x)` on a Python float: truncation toward zero. */
  function Trunc(x: real): (r: int)
    ensures 0.0 <= x ==> 0 <= r && r as real <= x < r as real + 1.0
    ensures x < 0.0 ==> r <= 0 && r as real - 1.0 < x <= r as real
  {
    if x >= 0.0 then x.Floor else -((-x).Floor)
  }

  /** `round(x)` on a Python float: the nearest integer, a tie going to the even neighbour. */
  function RoundHalfEven(x: real): (r: int)
    ensures -0.5 <= x - r as real <= 0.5
    ensures (x - r as real == 0.5 || r as real - x == 0.5) ==> r % 2 == 0
  {
    var f := x.Floor;
    var d := x - f as real;
    if d < 0.5 then f
    else if d > 0.5 then f + 1
    else if f % 2 == 0 then f
    else f + 1
  }

  /** Away from ties there is only one nearest integer, so `round` is determined by distance. */
  lemma RoundHalfEvenUnique(x: real, n: int)
    requires -0.5 < x - n as real < 0.5
    ensures RoundHalfEven(x) == n
  {
    var r := RoundHalfEven(x);
    assert -1.0 < r as real - n as real < 1.0;
  }

  /** `x` is a whole multiple of one half. */
  predicate IsHalfStep(x: real) {
    (2.0 * x).Floor as real == 2.0 * x
  }

  /** `round(x, 1)` on a Python float, over exact reals: the nearest tenth, a tie going to an
      even number of tenths. */
  function RoundTenths(x: real): (r: real)
    ensures -0.05 <= r - x <= 0.05
    ensures (10.0 * r).Floor as real == 10.0 * r
  {
    var n := RoundHalfEven(x * 10.0);
    assert 10.0 * (n as real / 10.0) == n as real;
    n as real / 10.0
  }

  /** Rounding to a tenth leaves a whole multiple of one half unchanged. */
  lemma RoundTenthsOfHalfStep(x: real)
    requires IsHalfStep(x)
    ensures RoundTenths(x) == x
  {
    var n := (2.0 * x).Floor;
    assert x * 10.0 == (5 * n) as real;
    RoundHalfEvenUnique(x * 10.0, 5 * n);
  }

  lemma MulStrict(a: real, b: real, s: real)
    requires s > 0.0 && a < b
    ensures a * s < b * s
  {}

  lemma MulMono(a: real, b: real, s: real)
    requires s > 0.0 && a <= b
    ensures a * s <= b * s
  {}

  lemma DivMul(d: real, s: real)
    requires s > 0.0
    ensures (d / s) * s == d
  {}
}
