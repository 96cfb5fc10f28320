/** Integer helpers shared by the model: C++ truncating division and the
    uniqueness of Euclidean quotient and remainder. */
module Arith {

  /** C++ `/` on int: the quotient is truncated toward zero. */
  function CDiv(a: int, b: int): (q: int)
    requires b != 0
    ensures a >= 0 && b > 0 ==> q == a / b
  {
    var m := if b > 0 then b else -b;
    var t := if a >= 0 then a / m else -((-a) / m);
    if b > 0 then t else -t
  }

  lemma MulNonneg(a: int, b: int)
    requires a >= 0 && b >= 0
    ensures a * b >= 0
  {
  }

  lemma MulPositive(a: int, b: int)
    requires a > 0 && b > 0
    ensures a * b > 0
  {
    MulNonneg(a - 1, b);
  }

  lemma MulMonotone(a: int, b: int, w: int)
    requires a <= b && w >= 0
    ensures a * w <= b * w
  {
    MulNonneg(b - a, w);
    assert b * w - a * w == (b - a) * w;
  }

  /** A value below twice the modulus wraps at most once. */
  lemma ModWrap(x: int, n: int)
    requires n > 0 && 0 <= x < 2 * n
    ensures x % n == if x < n then x else x - n
  {
    if x < n {
      DivModUnique(x, n, 0, x);
    } else {
      DivModUnique(x, n, 1, x - n);
    }
  }

  /** Quotient and remainder are determined by `x == q * w + r, 0 <= r < w`. */
  lemma DivModUnique(x: int, w: int, q: int, r: int)
    requires w > 0 && 0 <= r < w && x == q * w + r
    ensures x / w == q && x % w == r
  {
    var q0, r0 := x / w, x % w;
    assert x == q0 * w + r0;
    var d := q - q0;
    assert d * w == r0 - r by { assert q * w - q0 * w == (q - q0) * w; }
    if d >= 1 {
      MulNonneg(d - 1, w);
    } else if d <= -1 {
      MulNonneg(-d - 1, w);
    }
  }
}
