/** Integer facts about products that the grid layouts need. */
module Arith {
  lemma MulLe(a: int, b: int, c: int)
    requires a <= b && c >= 0
    ensures a * c <= b * c
  {
    assert b * c - a * c == (b - a) * c;
  }

  /** Row-major layout: an index a * n + b with a < m and b < n is below m * n. */
  lemma RowMajor(a: nat, b: nat, m: nat, n: nat)
    requires a < m && b < n
    ensures a * n + b < m * n
  {
    MulLe(a, m - 1, n);
    assert (m - 1) * n + n == m * n;
  }

  /** The inverse of the row-major layout: an index below m * n splits into k / n < m and k % n < n. */
  lemma SplitIndex(k: nat, m: nat, n: nat)
    requires k < m * n
    ensures n > 0 && k / n < m && 0 <= k % n < n && k == (k / n) * n + k % n
  {
    if k / n >= m {
      MulLe(m, k / n, n);
    }
  }
}
