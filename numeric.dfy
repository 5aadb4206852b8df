/** The numeric idioms the source applies to `Math.random()` draws and
    published values. */
module Numeric {

  /** A `Math.random()` draw: a real in [0, 1). */
  predicate InUnit(r: real) {
    0.0 <= r < 1.0
  }

  /** `Math.floor(Math.random() * n)`: a uniformly chosen position in a list of length n. */
  function RandomIndex(r: real, n: nat): (k: nat)
    requires InUnit(r) && n > 0
    ensures k < n
  {
    var y := r * n as real;
    assert 0.0 <= y < n as real;
    y.Floor
  }

  /** `Math.min` and `Math.max` on two numbers. */
  function Min(a: real, b: real): real { if a <= b then a else b }
  function Max(a: real, b: real): real { if a >= b then a else b }

  /** `Math.abs`. */
  function Abs(x: real): real {
    if x < 0.0 then -x else x
  }

  /** `parseFloat(x.toFixed(1))` on an exact real: the nearest multiple of 0.1,
      ties rounded away from zero (toFixed rounds the magnitude half up and
      keeps the sign). */
  function Round1(x: real): real {
    if x >= 0.0 then (x * 10.0 + 0.5).Floor as real / 10.0
    else -((-x * 10.0 + 0.5).Floor as real / 10.0)
  }

  /** Rounding moves a value by at most 0.05. */
  lemma Round1Close(x: real)
    ensures x - 0.05 <= Round1(x) <= x + 0.05
  {
    if x >= 0.0 {
      var f := (x * 10.0 + 0.5).Floor;
      assert x * 10.0 - 0.5 < f as real <= x * 10.0 + 0.5;
    } else {
      var f := (-x * 10.0 + 0.5).Floor;
      assert -x * 10.0 - 0.5 < f as real <= -x * 10.0 + 0.5;
    }
  }

  /** A value already on the 0.1 grid is left unchanged. */
  lemma Round1Grid(k: int)
    ensures Round1(k as real / 10.0) == k as real / 10.0
  {
    var x := k as real / 10.0;
    if x >= 0.0 {
      assert x * 10.0 == k as real;
      assert (x * 10.0 + 0.5).Floor == k;
    } else {
      assert -x * 10.0 == -k as real;
      assert (-x * 10.0 + 0.5).Floor == -k;
    }
  }

  /** Rounding is monotone. */
  lemma Round1Monotone(x: real, y: real)
    requires x <= y
    ensures Round1(x) <= Round1(y)
  {
    if x >= 0.0 {
      assert (x * 10.0 + 0.5).Floor <= (y * 10.0 + 0.5).Floor;
    } else if y < 0.0 {
      assert (-y * 10.0 + 0.5).Floor <= (-x * 10.0 + 0.5).Floor;
    } else {
      assert Round1(x) <= 0.0;
    }
  }

  /** Rounding keeps a value inside any interval whose ends lie on the 0.1 grid. */
  lemma Round1Within(x: real, lo: int, hi: int)
    requires lo as real / 10.0 <= x <= hi as real / 10.0
    ensures lo as real / 10.0 <= Round1(x) <= hi as real / 10.0
  {
    Round1Monotone(lo as real / 10.0, x);
    Round1Monotone(x, hi as real / 10.0);
    Round1Grid(lo);
    Round1Grid(hi);
  }

  /** Shifting a nonnegative value by whole tenths, staying nonnegative,
      shifts its rounding by the same amount. */
  lemma Round1Shift(x: real, k: int)
    requires x >= 0.0 && x - k as real / 10.0 >= 0.0
    ensures Round1(x - k as real / 10.0) == Round1(x) - k as real / 10.0
  {
    var f := (x * 10.0 + 0.5).Floor;
    assert (x - k as real / 10.0) * 10.0 + 0.5 == (x * 10.0 + 0.5) - k as real;
    assert ((x * 10.0 + 0.5) - k as real).Floor == f - k;
  }
}
