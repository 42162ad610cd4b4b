/** Division facts that index and stride computations rest on. */
module Arith {

  lemma MulCancelLess(c: int, x: int, y: int)
    requires c > 0 && c * x < c * y
    ensures x < y
  {
  }

  lemma RemainderUnique(m: int, q: int, r: int, q': int, r': int)
    requires 0 <= r < m && 0 <= r' < m && m * q + r == m * q' + r'
    ensures q == q' && r == r'
  {
    MulCancelLess(m, q, q' + 1);
    MulCancelLess(m, q', q + 1);
  }

  /** Quotient and remainder are unique. */
  lemma DivModUnique(a: int, m: int, q: int, r: int)
    requires 0 <= r < m && a == q * m + r
    ensures a / m == q && a % m == r
  {
    RemainderUnique(m, q, r, a / m, a % m);
  }

  lemma DivLowerBound(t: int, c: int, k: int)
    requires c > 0 && c * k <= t
    ensures t / c >= k
  {
    assert t == c * (t / c) + t % c;
    assert c * (t / c + 1) == c * (t / c) + c;
    MulCancelLess(c, k, t / c + 1);
  }

  /** i * n + j with j below n stays below m * n when i is below m. */
  lemma IndexBound(i: nat, m: nat, j: nat, n: nat)
    requires i < m && j < n
    ensures 0 <= i * n + j < m * n
  {
    assert i * n <= (m - 1) * n;
    assert (m - 1) * n == m * n - n;
  }

  /** Splitting an index into row and column. */
  lemma IndexSplit(p: nat, m: nat, n: nat)
    requires p < m * n
    ensures n > 0 && p / n < m && p % n < n && p == (p / n) * n + p % n
  {
    assert n > 0;
    assert p == n * (p / n) + p % n;
    assert n * m == m * n;
    MulCancelLess(n, p / n, m);
  }
}
