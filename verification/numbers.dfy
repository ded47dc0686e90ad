/** Integer arithmetic shared by the progress scaling and the size rendering. */
module Numbers {

  lemma MulMonotone(k: nat, a: nat, b: nat)
    requires a <= b
    ensures k * a <= k * b
  {
    assert k * b == k * a + k * (b - a);
  }

  lemma MulCancelLt(k: nat, x: nat, y: nat)
    requires k * x < k * y
    ensures x < y
  {
  }

  /** The integer nearest to num / den, the larger one on a tie. This is both
      `Math.round(num / den)` for non-negative operands and the integer `n`
      that `toFixed` chooses for `n / 10^f`. */
  function RoundHalfUp(num: nat, den: nat): (n: nat)
    requires den > 0
    ensures 2 * den * n <= 2 * num + den < 2 * den * (n + 1)
  {
    var q := (2 * num + den) / (2 * den);
    assert 2 * num + den == 2 * den * q + (2 * num + den) % (2 * den);
    q
  }

  /** RoundHalfUp is determined by its defining inequalities. */
  lemma RoundHalfUpUnique(num: nat, den: nat, n: nat)
    requires den > 0
    requires 2 * den * n <= 2 * num + den < 2 * den * (n + 1)
    ensures RoundHalfUp(num, den) == n
  {
    var m := RoundHalfUp(num, den);
    MulCancelLt(2 * den, m, n + 1);
    MulCancelLt(2 * den, n, m + 1);
  }

  /** Rounding is monotone in the numerator. */
  lemma RoundHalfUpMonotone(a: nat, b: nat, den: nat)
    requires den > 0 && a <= b
    ensures RoundHalfUp(a, den) <= RoundHalfUp(b, den)
  {
    var p, q := RoundHalfUp(a, den), RoundHalfUp(b, den);
    MulCancelLt(2 * den, p, q + 1);
  }

  function Pow(base: nat, e: nat): (p: nat)
    requires base > 0
    ensures p > 0
  {
    if e == 0 then 1 else base * Pow(base, e - 1)
  }

  lemma {:induction false} PowMonotone(base: nat, i: nat, j: nat)
    requires base > 0
    ensures i <= j ==> Pow(base, i) <= Pow(base, j)
  {
    if i < j {
      PowMonotone(base, i, j - 1);
      MulMonotone(Pow(base, j - 1), 1, base);
    }
  }

  /** The exponent of the largest power of `base` not above `x`: the exact
      value of `Math.floor(Math.log(x) / Math.log(base))`. */
  function FloorLog(base: nat, x: nat): (i: nat)
    requires base > 1 && x > 0
    ensures Pow(base, i) <= x < Pow(base, i + 1)
    decreases x
  {
    if x < base then 0
    else
      DivShrinks(x, base);
      var i := FloorLog(base, x / base);
      FloorLogStep(base, x, i);
      i + 1
  }

  /** One more factor of base: if base^i <= x / base < base^(i+1) then
      base^(i+1) <= x < base^(i+2). */
  lemma FloorLogStep(base: nat, x: nat, i: nat)
    requires base > 1
    requires Pow(base, i) <= x / base < Pow(base, i + 1)
    ensures Pow(base, i + 1) <= x < Pow(base, i + 2)
  {
    var q := x / base;
    DivBounds(x, base);
    MulMonotone(base, Pow(base, i), q);
    MulMonotone(base, q + 1, Pow(base, i + 1));
  }

  lemma DivShrinks(x: nat, d: nat)
    requires 1 < d <= x
    ensures 0 < x / d < x
  {
    DivBounds(x, d);
    MulMonotone(x / d, 2, d);
  }

  lemma DivBounds(x: nat, d: nat)
    requires d > 0
    ensures d * (x / d) <= x < d * (x / d + 1)
  {
    assert x == d * (x / d) + x % d;
  }

  /** Only one exponent brackets x, so FloorLog is the integer logarithm. */
  lemma FloorLogUnique(base: nat, x: nat, i: nat)
    requires base > 1 && x > 0
    requires Pow(base, i) <= x < Pow(base, i + 1)
    ensures FloorLog(base, x) == i
  {
    var j := FloorLog(base, x);
    PowMonotone(base, j + 1, i);
    PowMonotone(base, i + 1, j);
  }
}
