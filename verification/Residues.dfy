/** Remainders of sums and products. */
module Residues {
  lemma ModAddMultiple(x: int, k: int, m: int)
    requires m > 0
    ensures (x + k * m) % m == x % m
  {
    var q, r := x / m, x % m;
    assert x + k * m == (q + k) * m + r by { assert (q + k) * m == q * m + k * m; }
    ModUnique(x + k * m, q + k, r, m);
  }

  lemma ModUnique(x: int, q: int, r: int, m: int)
    requires m > 0 && x == q * m + r && 0 <= r < m
    ensures x % m == r
  {
    var q', r' := x / m, x % m;
    var d := q' - q;
    assert d * m == r - r' by {
      assert d * m == q' * m - q * m;
      assert q' * m + r' == x;
    }
    if d > 0 {
      AtLeastOne(d, m);
    } else if d < 0 {
      AtLeastOne(-d, m);
    }
  }

  lemma AtLeastOne(k: int, m: int)
    requires k >= 1 && m > 0
    ensures k * m >= m
  {
  }

  lemma ModMul(a: int, b: int, m: int)
    requires m > 0
    ensures ((a % m) * (b % m)) % m == (a * b) % m
  {
    var qa, ra, qb, rb := a / m, a % m, b / m, b % m;
    var k := qa * b + ra * qb;
    assert a * b == ra * rb + k * m by {
      assert a * b == (qa * m + ra) * b == qa * b * m + ra * b;
      assert ra * b == ra * (qb * m + rb) == ra * qb * m + ra * rb;
      assert k * m == qa * b * m + ra * qb * m;
    }
    ModAddMultiple(ra * rb, k, m);
  }

  lemma SquareReflected(y: int, m: int)
    requires m > 0
    ensures ((m - y) * (m - y)) % m == (y * y) % m
  {
    var k := m - 2 * y;
    assert (m - y) * (m - y) == y * y + k * m;
    ModAddMultiple(y * y, k, m);
  }
}
