/** Multiples and remainders of a variable unit, with the product kept behind a name so that it can be hidden. */
module Arithmetic {

  function Times(k: int, p: nat): int { k * p }

  lemma TimesSum(a: int, b: int, p: nat)
    ensures Times(a + b, p) == Times(a, p) + Times(b, p)
  {}

  lemma TimesOne(p: nat)
    ensures Times(1, p) == p && Times(0, p) == 0
  {}

  lemma TimesOrder(a: int, b: int, p: nat)
    requires p > 0
    ensures a <= b <==> Times(a, p) <= Times(b, p)
  {
    if a <= b {
      MulMonotone(b - a, p);
    } else {
      MulMonotone(a - b - 1, p);
    }
  }

  lemma MulMonotone(d: nat, p: nat)
    ensures d * p >= 0
  {}

  lemma Factor(x: nat, p: nat) returns (k: nat)
    requires p > 0 && x % p == 0
    ensures x == Times(k, p) && k == x / p
  {
    k := x / p;
  }

  lemma Quotient(k: nat, rest: nat, p: nat)
    requires rest < p
    ensures (Times(k, p) + rest) / p == k && (Times(k, p) + rest) % p == rest
  {
    var x := Times(k, p) + rest;
    var q, m := x / p, x % p;
    assert x == Times(q, p) + m;
    SameQuotient(k, rest, q, m, p);
  }

  lemma SameQuotient(k: nat, rest: nat, q: nat, m: nat, p: nat)
    requires rest < p && m < p && Times(k, p) + rest == Times(q, p) + m
    ensures k == q && rest == m
  {
    hide Times;
    TimesOne(p);
    TimesSum(k, 1, p); TimesSum(q, 1, p);
    TimesOrder(k + 1, q, p); TimesOrder(q + 1, k, p);
  }

  function TimesNat(k: nat, p: nat): nat {
    TimesOrderNat(k, p);
    Times(k, p)
  }

  lemma TimesOrderNat(k: nat, p: nat)
    ensures Times(k, p) >= 0
  {}

  lemma SumMultiple(a: nat, b: nat, p: nat)
    requires p > 0 && a % p == 0
    ensures (a + b) % p == 0 <==> b % p == 0
  {
    var k := Factor(a, p);
    var q, rest := b / p, b % p;
    assert b == Times(q, p) + rest;
    hide Times;
    TimesSum(k, q, p);
    Quotient(k + q, rest, p);
  }

  // ---- the cells of a circular buffer ----

  lemma Advance(n: nat, w: nat)
    requires w > 0
    ensures (n % w + 1) % w == (n + 1) % w
  {
    var q, m := n / w, n % w;
    assert n == Times(q, w) + m;
    if m + 1 < w {
      Quotient(q, m + 1, w);
      Quotient(0, m + 1, w);
    } else {
      Quotient(q + 1, 0, w);
      Quotient(1, 0, w);
      TimesSum(q, 1, w);
    }
    TimesOne(w);
  }

  lemma DistinctCells(k: nat, n: nat, w: nat)
    requires w > 0 && k < n < k + w
    ensures k % w != n % w
  {
    var q, r := k / w, n / w;
    assert k == Times(q, w) + k % w && n == Times(r, w) + n % w;
    if k % w == n % w {
      hide Times;
      TimesSum(q, r - q, w);
      TimesOne(w);
      TimesOrder(r - q, 0, w);
      TimesOrder(1, r - q, w);
    }
  }
}
