/** Small facts about integer multiplication and Euclidean division that
    the grid arithmetic relies on. */
module Arith {

  lemma MulLe(a: int, b: int, d: int)
    requires a <= b && d >= 0
    ensures a * d <= b * d
  {
    assert b * d - a * d == (b - a) * d;
  }

  lemma MulLtCancel(a: int, b: int, d: int)
    requires d >= 1 && a * d < b * d
    ensures a < b
  {
    if a >= b {
      MulLe(b, a, d);
    }
  }

  lemma MulAtLeast(k: int, d: int)
    requires k >= 1 && d >= 1
    ensures k * d >= d
  {
    MulLe(1, k, d);
  }

  /** Euclidean division is determined by any quotient and remainder pair. */
  lemma DivModUnique(x: int, d: int, q: int, m: int)
    requires d >= 1 && 0 <= m < d && x == q * d + m
    ensures x / d == q && x % d == m
  {
    var q', m' := x / d, x % d;
    var k := q' - q;
    assert k * d == m - m' by {
      assert q' * d - q * d == (q' - q) * d;
    }
    if k >= 1 {
      MulAtLeast(k, d);
    } else if k <= -1 {
      MulAtLeast(-k, d);
    }
  }
}
