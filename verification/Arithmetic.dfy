/** Division facts used by several models. */
module Arithmetic {
  lemma MulMono(a: nat, b: nat, d: nat)
    requires a <= b
    ensures a * d <= b * d
  {
  }

  lemma MulSucc(n: nat, d: nat)
    ensures (n + 1) * d == n * d + d
  {
  }

  lemma QuotientUnique(q: nat, r: nat, q': nat, r': nat, d: nat)
    requires r < d && r' < d && q * d + r == q' * d + r'
    ensures q == q' && r == r'
  {
    if q < q' {
      MulMono(q + 1, q', d);
    } else if q' < q {
      MulMono(q' + 1, q, d);
    }
  }

  lemma DivMod(q: nat, r: nat, d: nat)
    requires r < d
    ensures (q * d + r) / d == q && (q * d + r) % d == r
  {
    var x := q * d + r;
    assert x == (x / d) * d + x % d;
    QuotientUnique(q, r, x / d, x % d, d);
  }

  /** Counters that are less than one wrap apart are equal when their residues are. */
  lemma SameResidue(a: nat, b: nat, m: nat)
    requires 0 < m && a <= b < a + m && b % m == a % m
    ensures a == b
  {
    assert a == (a / m) * m + a % m;
    assert b == (b / m) * m + b % m;
    var d: int := b / m - a / m;
    assert d * m == b - a;
    if d >= 1 {
      MulMono(1, d, m);
    } else if d <= -1 {
      MulMono(1, -d, m);
    }
  }

  /** Dropping the remainder gives the greatest multiple that is not larger. */
  lemma Floor(x: nat, r: nat, d: nat)
    requires d > 0 && r == x % d
    ensures r <= x && (x - r) % d == 0 && r < d
  {
    assert x == (x / d) * d + r;
    DivMod(x / d, 0, d);
  }

  lemma DividesTrans(r: nat, b: nat, a: nat)
    requires a > 0 && b > 0 && r % b == 0 && b % a == 0
    ensures r % a == 0
  {
    var m, n := r / b, b / a;
    assert r == m * b && b == n * a;
    assert r == (m * n) * a by { assert m * (n * a) == (m * n) * a; }
    DivMod(m * n, 0, a);
  }
}
