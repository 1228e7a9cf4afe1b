/** Small facts about multiplication, division and remainder by a variable
    divisor, which the solver does not find on its own. */
module Arith {

  lemma {:induction false} MulAtLeastFactor(a: int, d: int)
    requires a >= 1 && d > 0
    ensures a * d >= d
    decreases a
  {
    if a > 1 {
      MulAtLeastFactor(a - 1, d);
      assert a * d == (a - 1) * d + d;
    }
  }

  /** Multiplying by a non-negative factor preserves `<=`. */
  lemma MulMonotone(a: int, b: int, c: int)
    requires a <= b && c >= 0
    ensures a * c <= b * c
  {
    if a < b && c > 0 {
      assert b * c - a * c == (b - a) * c;
      MulAtLeastFactor(b - a, c);
    }
  }

  /** Quotient and remainder are the only pair with `n == q * d + r` and `0 <= r < d`. */
  lemma DivModUnique(n: int, d: int, q: int, r: int)
    requires d > 0 && 0 <= r < d && n == q * d + r
    ensures n / d == q && n % d == r
  {
    var q', r' := n / d, n % d;
    assert n == q' * d + r' && 0 <= r' < d;
    if q > q' {
      assert (q - q') * d == q * d - q' * d;
      MulAtLeastFactor(q - q', d);
      assert false;
    } else if q < q' {
      assert (q' - q) * d == q' * d - q * d;
      MulAtLeastFactor(q' - q, d);
      assert false;
    }
  }

  /** A row-major pair `(a, b)` with `a < rows` and `b < cols` has a flat index below `rows * cols`. */
  lemma RowMajorBound(a: int, b: int, rows: int, cols: int)
    requires 0 <= a < rows && 0 <= b < cols
    ensures 0 <= a * cols + b < rows * cols
  {
    MulMonotone(a + 1, rows, cols);
    assert (a + 1) * cols == a * cols + cols;
    MulMonotone(0, a, cols);
  }

  /** Splitting a flat index `n < rows * cols` into quotient and remainder by `cols`. */
  lemma RowMajorSplit(n: int, rows: int, cols: int)
    requires cols > 0 && 0 <= n < rows * cols
    ensures 0 <= n / cols < rows && 0 <= n % cols < cols
    ensures n == (n / cols) * cols + n % cols
  {
    assert n == (n / cols) * cols + n % cols;
    if n / cols >= rows {
      MulMonotone(rows, n / cols, cols);
      assert false;
    }
  }
}
