/** Division facts the solver does not find on its own. */
module Arithmetic {

  lemma ModShift(k: nat, r: nat, m: nat)
    requires m > 0
    ensures (k * m + r) % m == r % m
    decreases k
  {
    if k > 0 {
      ModShift(k - 1, r, m);
      ModStep((k - 1) * m + r, m);
      assert k * m + r == (k - 1) * m + r + m;
    }
  }

  lemma ModStep(x: nat, m: nat)
    requires m > 0
    ensures (x + m) % m == x % m
  {
    var q, r := x / m, x % m;
    assert x + m == (q + 1) * m + r;
    ModUnique(x + m, m, q + 1, r);
  }

  lemma ModUnique(x: nat, m: nat, q: nat, r: nat)
    requires m > 0 && x == q * m + r && r < m
    ensures x % m == r && x / m == q
  {
    var d := x / m - q;
    assert d * m == r - x % m;
    assert d >= 1 ==> d * m >= m;
    assert d <= -1 ==> (-d) * m >= m && (-d) * m == -(d * m);
  }

  lemma DivDiv(a: nat, m: nat, n: nat)
    requires m > 0 && n > 0
    ensures m * n > 0 && a / (m * n) == a / m / n
  {
    var q, r := a / m, a % m;
    var k, i := q / n, q % n;
    DivDivParts(a, m, n, k, i, r);
  }

  lemma DivDivParts(a: nat, m: nat, n: nat, k: nat, i: nat, r: nat)
    requires m > 0 && n > 0 && r < m && i < n && a == (k * n + i) * m + r
    ensures m * n > 0 && a / (m * n) == k
  {
    Regroup(k, n, i, m, r);
    Below(i, n, m, r);
    ModUnique(a, m * n, k, i * m + r);
  }

  lemma Regroup(k: nat, n: nat, i: nat, m: nat, r: nat)
    ensures (k * n + i) * m + r == k * (m * n) + (i * m + r)
  {
    assert (k * n + i) * m == k * n * m + i * m;
    assert k * n * m == k * (n * m);
    assert n * m == m * n;
  }

  lemma Below(i: nat, n: nat, m: nat, r: nat)
    requires i < n && r < m
    ensures i * m + r < m * n
  {
    MulLe(i + 1, n, m);
    assert (i + 1) * m == i * m + m;
  }

  lemma MulLe(a: nat, b: nat, n: nat)
    requires a <= b
    ensures a * n <= b * n
  {
    assert b * n == a * n + (b - a) * n;
  }
}
