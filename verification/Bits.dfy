/** Bitwise operations on natural numbers. */
module Bits {
  import opened Arithmetic

  function Or(a: nat, b: nat): nat
    decreases a + b
  {
    if a == 0 then b else if b == 0 then a
    else 2 * Or(a / 2, b / 2) + (if a % 2 == 1 || b % 2 == 1 then 1 else 0)
  }

  function And(a: nat, b: nat): nat
    decreases a + b
  {
    if a == 0 || b == 0 then 0
    else 2 * And(a / 2, b / 2) + (if a % 2 == 1 && b % 2 == 1 then 1 else 0)
  }

  function Pow2(n: nat): (p: nat)
    ensures p > 0
  {
    if n == 0 then 1 else 2 * Pow2(n - 1)
  }

  /** Numbers without a common bit are joined by adding them. */
  lemma {:induction false} OrIsSum(k: nat, n: nat, r: nat)
    requires r < Pow2(n)
    ensures Or(Pow2(n) * k, r) == Pow2(n) * k + r
  {
    if n > 0 && k > 0 && r > 0 {
      var m := Pow2(n - 1) * k;
      assert Pow2(n) * k == 2 * m;
      OrIsSum(k, n - 1, r / 2);
    }
  }

  /** A mask of low bits takes the remainder. */
  lemma {:induction false} MaskIsRemainder(a: nat, n: nat)
    ensures And(a, Pow2(n) - 1) == a % Pow2(n)
  {
    if n == 0 || a == 0 {
      if a == 0 { QuotientIs(0, Pow2(n), 0, 0); }
    } else {
      var m := Pow2(n - 1);
      MaskIsRemainder(a / 2, n - 1);
      assert (2 * m - 1) / 2 == m - 1;
      HalfRemainder(a, m);
    }
  }

  lemma HalfRemainder(a: nat, m: nat)
    requires m > 0
    ensures a % (2 * m) == 2 * (a / 2 % m) + a % 2
  {
    var h := a / 2;
    assert h == m * (h / m) + h % m;
    assert (2 * m) * (h / m) == 2 * (m * (h / m));
    QuotientIs(a, 2 * m, h / m, 2 * (h % m) + a % 2);
  }
}
