/** Division without `/`: quotient and remainder by repeated subtraction, and what the proofs need of
    products. */
module Quotient {

  lemma MulStep(n: nat, a: nat, b: nat)
    requires a < b
    ensures a * n + n <= b * n
  {
    var d := b - a - 1;
    assert b * n == a * n + n + d * n;
  }

  lemma DigitsUnique(n: nat, a: nat, x: nat, b: nat, y: nat)
    requires x < n && y < n
    requires a * n + x == b * n + y
    ensures a == b && x == y
  {
    if a < b {
      MulStep(n, a, b);
    } else if b < a {
      MulStep(n, b, a);
    }
  }

  /** Quotient and remainder by repeated subtraction. They equal `/` and `%`, and keep division by a
      variable out of the proofs that do not need it. */
  ghost function Quot(q: nat, n: nat): (i: nat)
    requires 0 < n
  {
    if q < n then 0 else 1 + Quot(q - n, n)
  }

  ghost function Rem(q: nat, n: nat): (r: nat)
    requires 0 < n
    ensures r < n
  {
    if q < n then q else Rem(q - n, n)
  }

  lemma {:induction false} QuotRem(q: nat, n: nat)
    requires 0 < n
    ensures q == Quot(q, n) * n + Rem(q, n)
  {
    if n <= q {
      QuotRem(q - n, n);
      assert Quot(q, n) * n == Quot(q - n, n) * n + n;
    }
  }

  lemma QuotIsDiv(q: nat, n: nat)
    requires 0 < n
    ensures Quot(q, n) == q / n && Rem(q, n) == q % n
  {
    QuotRem(q, n);
    assert q == q / n * n + q % n;
    DigitsUnique(n, q / n, q % n, Quot(q, n), Rem(q, n));
  }

  lemma QuotOf(n: nat, i: nat, r: nat)
    requires r < n
    ensures Quot(i * n + r, n) == i && Rem(i * n + r, n) == r
  {
    QuotRem(i * n + r, n);
    DigitsUnique(n, Quot(i * n + r, n), Rem(i * n + r, n), i, r);
  }

  lemma {:induction false} QuotMonotone(q: nat, q': nat, n: nat)
    requires 0 < n && q <= q'
    ensures Quot(q, n) <= Quot(q', n)
  {
    if n <= q {
      QuotMonotone(q - n, q' - n, n);
    }
  }

  lemma QuotInjective(n: nat, q: nat, q': nat)
    requires 0 < n && Quot(q, n) == Quot(q', n) && Rem(q, n) == Rem(q', n)
    ensures q == q'
  {
    QuotRem(q, n);
    QuotRem(q', n);
  }
}
