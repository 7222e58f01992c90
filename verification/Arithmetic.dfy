/** Facts about Euclidean division by a variable that the solver needs spelled out. */
module Arithmetic {

  lemma MultipleAtLeast(k: int, e: int)
    requires k > 0 && e >= 1
    ensures k * e >= k
  {
    assert k * (e - 1) >= 0;
  }

  lemma SmallMultiple(k: int, e: int)
    requires k > 0 && -k < k * e < k
    ensures e == 0
  {
    assert k * -e == -(k * e);
    if e >= 1 {
      MultipleAtLeast(k, e);
    } else if e <= -1 {
      MultipleAtLeast(k, -e);
    }
  }

  lemma QuotientIs(x: int, m: int, q: int, r: int)
    requires m > 0 && 0 <= r < m && x == m * q + r
    ensures x / m == q && x % m == r
  {
    var e := x / m - q;
    assert m * e == r - x % m;
    SmallMultiple(m, e);
  }

  lemma ModStep(a: int, k: int)
    requires k > 0
    ensures (a + k) % k == a % k
  {
    assert a + k == k * (a / k + 1) + a % k;
    QuotientIs(a + k, k, a / k + 1, a % k);
  }

  lemma SmallMod(a: int, k: int)
    requires 0 <= a < k
    ensures a % k == a
  {
    QuotientIs(a, k, 0, a);
  }

  lemma Halve(x: int, m: int)
    requires m > 0
    ensures x / (2 * m) == x / 2 / m
    ensures x % (2 * m) / 2 == (x / 2) % m && x % (2 * m) % 2 == x % 2
  {
    var a, s, r := x / 2 / m, (x / 2) % m, x % 2;
    assert x / 2 == m * a + s && x == 2 * (x / 2) + r;
    assert x == 2 * m * a + (2 * s + r);
    QuotientIs(x, 2 * m, a, 2 * s + r);
  }

  lemma ScaleBelow(r: int, m: int, p: int)
    requires 0 <= r < m && p > 0
    ensures 0 <= r * p < m * p
  {
    assert r * p + (m - r) * p == m * p;
    MultipleAtLeast(p, m - r);
  }

  lemma ModScale(v: int, m: int, p: int)
    requires m > 0 && p > 0
    ensures m * p > 0 && v * p % (m * p) == v % m * p
  {
    var q, r := v / m, v % m;
    ScaleBelow(r, m, p);
    assert v * p == (m * q + r) * p == m * p * q + r * p;
    QuotientIs(v * p, m * p, q, r * p);
  }
}
