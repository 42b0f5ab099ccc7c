/** Quotients and remainders. */
module Arithmetic {
  function Min(a: nat, b: nat): nat
  {
    if a < b then a else b
  }

  lemma AtLeast(d: int, m: int)
    requires 0 < d && 1 <= m
    ensures d * m >= d
  {
  }

  lemma QuotientIs(y: int, d: int, q: int, r: int)
    requires 0 <= r < d && y == d * q + r
    ensures y / d == q && y % d == r
  {
    var e := q - y / d;
    assert d * e == d * q - d * (y / d);
    assert d * e == y % d - r;
    if e >= 1 { AtLeast(d, e); }
    if e <= -1 { AtLeast(d, -e); }
  }

  /** Whole multiples of the divisor pass through a division. */
  lemma AddMultiple(x: int, d: int, m: int)
    requires 0 < d
    ensures (x + d * m) / d == x / d + m && (x + d * m) % d == x % d
  {
    assert d * (x / d + m) == d * (x / d) + d * m;
    QuotientIs(x + d * m, d, x / d + m, x % d);
  }

  /** A digit does not depend on what lies above it. */
  lemma DigitOfRemainder(a: int, s: int, r: int, q: int)
    requires 0 < s && 0 < r && 0 < q && 0 < s * (r * q)
    ensures a % (s * (r * q)) / s % r == a / s % r
  {
    var l := s * (r * q);
    var x, k := a % l, a / l;
    assert a == x + l * k;
    assert l * k == s * (r * (q * k));
    AddMultiple(x, s, r * (q * k));
    AddMultiple(x / s, r, q * k);
  }

  lemma Distribute(s: int, r: int, d: int, m: int)
    ensures s * (r * d + m) == (s * r) * d + s * m
  {
  }

  lemma Monotone(s: int, m: int, n: int)
    requires 0 <= s && m <= n
    ensures s * m <= s * n
  {
  }

  /** Dividing twice is dividing by the product. */
  lemma DivideTwice(x: int, s: int, r: int)
    requires 0 <= x && 0 < s && 0 < r && 0 < s * r
    ensures x / (s * r) == x / s / r
  {
    var q := x / s;
    var d, m := q / r, q % r;
    assert q == r * d + m;
    assert x == s * q + x % s;
    Distribute(s, r, d, m);
    Monotone(s, m, r - 1);
    QuotientIs(x, s * r, d, s * m + x % s);
  }

  lemma ScaledQuotient(s: int, k: int, q: int)
    requires 0 < s && 0 < q && 0 < s * q
    ensures s * k / (s * q) == k / q && s * k % (s * q) == s * (k % q)
  {
    assert k == q * (k / q) + k % q;
    assert s * k == (s * q) * (k / q) + s * (k % q);
    assert s * (k % q) <= s * (q - 1);
    QuotientIs(s * k, s * q, k / q, s * (k % q));
  }

  /** One step of a small region stays in the larger one or reaches its boundary. */
  lemma StepInside(a: int, s: int, q: int)
    requires 0 < s && 0 < q && 0 < s * q && a % s == 0
    ensures (a + s) % (s * q) == 0 || (a + s) / (s * q) == a / (s * q)
  {
    var k := a / s;
    assert a == s * k && a + s == s * (k + 1);
    ScaledQuotient(s, k, q);
    ScaledQuotient(s, k + 1, q);
    if (k + 1) % q != 0 { QuotientIs(k, q, (k + 1) / q, (k + 1) % q - 1); }
  }

  /** Multiples of a multiple. */
  lemma MultipleOf(a: int, s: int, q: int)
    requires 0 < s && 0 < q && 0 < s * q && a % (s * q) == 0
    ensures a % s == 0 && (a + s * q) % s == 0 && (a + s) % s == 0
  {
    var k := a / (s * q);
    assert a == s * (q * k);
    AddMultiple(0, s, q * k);
    AddMultiple(a, s, q);
    AddMultiple(a, s, 1);
  }
}
