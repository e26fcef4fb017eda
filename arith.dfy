/** Facts about Euclidean division on `int` that the index arithmetic of the model relies on. */
module Arith {

  /** Division by `m` recovers quotient and remainder. */
  lemma DivMod(q: int, m: int, r: int)
    requires m > 0 && q >= 0 && 0 <= r < m
    ensures (q * m + r) / m == q && (q * m + r) % m == r
  {
    var n := q * m + r;
    var q', r' := n / m, n % m;
    assert n == q' * m + r';
    if q' < q {
      MulLe(q' + 1, q, m);
    } else if q < q' {
      MulLe(q + 1, q', m);
    }
  }

  /** Incrementing modulo `m` wraps to zero exactly at `m`. */
  lemma WrapSucc(n: int, m: int)
    requires 0 <= n < m
    ensures (n + 1) % m == if n + 1 < m then n + 1 else 0
  {
    if n + 1 < m {
      DivMod(0, m, n + 1);
    } else {
      DivMod(1, m, 0);
    }
  }

  /** Multiplication by a non-negative factor is monotone. */
  lemma MulLe(a: int, b: int, c: int)
    requires 0 <= a <= b && 0 <= c
    ensures a * c <= b * c
  {
  }

  /** A cell number `a + b * m` of an `m` by `m` grid is below `m * m`. */
  lemma CellBound(a: int, b: int, m: int)
    requires 0 <= a < m && 0 <= b < m
    ensures a + b * m < m * m
  {
    MulLe(b, m - 1, m);
    assert (m - 1) * m == m * m - m;
  }

  /** A number below `n * m` splits into a block `q / m` below `n` and a position `q % m` in it. */
  lemma QuotientBelow(q: int, n: int, m: int)
    requires m > 0 && 0 <= q < n * m
    ensures 0 <= q / m < n && 0 <= q % m < m && q == q / m * m + q % m
  {
    if q / m >= n {
      MulLe(n, q / m, m);
    }
  }

  /** A number below `m * m` splits into a row `q / m` below `m` and a column `q % m`. */
  lemma QuotientBound(q: int, m: int)
    requires m > 0 && 0 <= q < m * m
    ensures q / m < m && 0 <= q % m < m && q == q / m * m + q % m
  {
    QuotientBelow(q, m, m);
  }
}
