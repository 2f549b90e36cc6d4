/** Python's `round(x, d)` and `f"{x:.df}"` on exact decimal values: the
    value is rounded to `d` decimal places, ties going to the even neighbour. */
module Decimal {

  function Pow10(d: nat): (p: nat)
    ensures p >= 1
  {
    if d == 0 then 1 else 10 * Pow10(d - 1)
  }

  /** The integer nearest to `y`, ties to even. */
  function RoundToInt(y: real): (n: int)
    ensures -0.5 <= n as real - y <= 0.5
  {
    var q := y.Floor;
    var frac := y - q as real;
    if frac > 0.5 then q + 1
    else if frac < 0.5 then q
    else if q % 2 == 0 then q
    else q + 1
  }

  /** 10^d as a real: the scale of the d-th decimal place. */
  function Scale(d: nat): (p: real)
    ensures p >= 1.0
  {
    Pow10(d) as real
  }

  /** `x` rounded to `d` decimal places, ties to even. */
  function Round(x: real, d: nat): real
  {
    RoundToInt(x * Scale(d)) as real / Scale(d)
  }

  /** The rounded value is within half a unit of the d-th decimal place. */
  lemma RoundIsNearest(x: real, d: nat)
    ensures -0.5 <= (Round(x, d) - x) * Scale(d) <= 0.5
  {
    var n := RoundToInt(x * Scale(d));
    RoundOf(x, d, n);
    MultiplyThenDivide(n as real, Scale(d));
    assert (n as real / Scale(d) - x) * Scale(d) == n as real - x * Scale(d);
  }

  lemma RoundToIntMonotone(x: real, y: real)
    requires x <= y
    ensures RoundToInt(x) <= RoundToInt(y)
  {
    var qx, qy := x.Floor, y.Floor;
    if qx == qy {
      assert x - qx as real <= y - qy as real;
    } else {
      assert qx < qy;
      assert RoundToInt(x) <= qx + 1 <= qy <= RoundToInt(y);
    }
  }

  /** Rounding never reverses the order of two values. */
  lemma RoundMonotone(x: real, y: real, d: nat)
    requires x <= y
    ensures Round(x, d) <= Round(y, d)
  {
    assert x * Scale(d) <= y * Scale(d) by {
      assert (y - x) * Scale(d) >= 0.0;
    }
    RoundToIntMonotone(x * Scale(d), y * Scale(d));
    var nx, ny := RoundToInt(x * Scale(d)), RoundToInt(y * Scale(d));
    DivideMonotone(nx as real, ny as real, Scale(d));
  }

  lemma DivideMonotone(a: real, b: real, s: real)
    requires a <= b && s > 0.0
    ensures a / s <= b / s
  {
    assert b / s - a / s == (b - a) / s;
  }

  /** Whole numbers are left unchanged by rounding. */
  lemma RoundWhole(k: int, d: nat)
    ensures Round(k as real, d) == k as real
  {
    var m := k * Pow10(d);
    CastProduct(k, Pow10(d));
    WholeRoundsToItself(m);
    RoundOf(k as real, d, m);
    MultiplyThenDivide(k as real, Scale(d));
  }

  /** Rounding is the nearest whole multiple of the scale, scaled back. */
  lemma RoundOf(x: real, d: nat, n: int)
    requires RoundToInt(x * Scale(d)) == n
    ensures Round(x, d) == n as real / Scale(d)
  {
  }

  lemma CastProduct(a: int, b: int)
    ensures (a * b) as real == a as real * b as real
  {
  }

  lemma WholeRoundsToItself(m: int)
    ensures RoundToInt(m as real) == m
  {
  }

  lemma MultiplyThenDivide(x: real, s: real)
    requires s > 0.0
    ensures x * s / s == x
  {
  }

  /** A value between two whole numbers stays between them once rounded. */
  lemma RoundWithinWhole(x: real, d: nat, lo: int, hi: int)
    requires lo as real <= x <= hi as real
    ensures lo as real <= Round(x, d) <= hi as real
  {
    RoundMonotone(lo as real, x, d);
    RoundMonotone(x, hi as real, d);
    RoundWhole(lo, d);
    RoundWhole(hi, d);
  }
}
