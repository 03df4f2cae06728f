/** Quotients, products and powers of two. */
module Arithmetic {
  lemma Scale(x: nat, y: nat, a: nat)
    requires x <= y
    ensures x * a <= y * a
  {
  }

  lemma Associate(a: nat, b: nat, c: nat)
    ensures (a * b) * c == a * (b * c)
  {
  }

  lemma QuotientUnique(x: nat, m: nat, k: nat)
    requires m > 0
    ensures x / m == k <==> k * m <= x < k * m + m
  {
    var q := x / m;
    assert x == q * m + x % m;
    if k < q {
      Scale(k + 1, q, m);
    } else if q < k {
      Scale(q + 1, k, m);
    }
  }

  lemma QuotientTwice(x: nat, a: nat, b: nat)
    requires a > 0 && b > 0 && a * b > 0
    ensures x / (a * b) == x / a / b
  {
    var r, q := x / a, x / a / b;
    QuotientUnique(x, a, r);
    QuotientUnique(r, b, q);
    Scale(q * b, r, a);
    Scale(r + 1, q * b + b, a);
    Regroup(q, a, b);
    assert r * a + a == (r + 1) * a;
    QuotientUnique(x, a * b, q);
  }

  lemma Regroup(q: nat, a: nat, b: nat)
    ensures q * b * a == q * (a * b) && (q * b + b) * a == q * (a * b) + a * b
  {
    Associate(q, b, a);
  }

  // ----- Intervals -----

  /** The multiples of `m` cut the numbers into intervals. */
  lemma SameInterval(x: nat, y: nat, m: nat)
    requires m > 0
    ensures 0 <= y / m * m <= y
    ensures x / m == y / m <==> y / m * m <= x < y / m * m + m
    ensures (y / m * m) / m == y / m
  {
    QuotientUnique(y, m, y / m);
    QuotientUnique(x, m, y / m);
    Scale(0, y / m, m);
    QuotientUnique(y / m * m, m, y / m);
  }

  lemma LastInterval(x: nat, m: nat, n: nat)
    requires m > 0 && x < n * m
    ensures x / m * m + m <= n * m
  {
    var k := x / m;
    QuotientUnique(x, m, k);
    if k >= n { Scale(n, k, m); }
    Scale(k + 1, n, m);
  }

  // ----- Powers of two -----

  function Pow2(n: nat): (p: nat)
    ensures p > 0
  {
    if n == 0 then 1 else 2 * Pow2(n - 1)
  }

  lemma {:induction false} Pow2Adds(m: nat, n: nat)
    ensures Pow2(m + n) == Pow2(m) * Pow2(n)
    decreases m
  {
    if m > 0 {
      Pow2Adds(m - 1, n);
      Associate(2, Pow2(m - 1), Pow2(n));
    }
  }

  lemma {:induction false} Pow2Monotone(m: nat, n: nat)
    ensures m <= n ==> Pow2(m) <= Pow2(n)
    ensures m < n ==> Pow2(m) < Pow2(n)
  {
    if m < n { Pow2Monotone(m, n - 1); }
  }
}
