/** Facts about quotients and remainders that several components need. */
module Arithmetic {

  lemma MultipleOrder(d: int, p: int)
    requires 0 < p
    ensures d >= 1 ==> d * p >= p
    ensures d <= -1 ==> d * p <= -p
  {
  }

  lemma MultipleGap(a: int, b: int, p: int)
    requires 0 < p
    ensures a < b ==> a * p + p <= b * p
    ensures a <= b ==> a * p <= b * p
  {
    MultipleOrder(b - a, p);
    assert b * p == a * p + (b - a) * p;
  }

  // A quotient and remainder are determined by their defining equation.
  lemma QuotientIs(x: int, q: int, r: int, p: int)
    requires 0 < p && x == q * p + r && 0 <= r < p
    ensures x / p == q && x % p == r
  {
    var d := x / p - q;
    assert x == (x / p) * p + x % p;
    assert d * p == r - x % p;
    MultipleOrder(d, p);
  }

  lemma NextRemainder(h: nat, p: nat)
    requires p > 0
    ensures (h + 1) % p == (h % p + 1) % p
  {
    var r := (h % p + 1) % p;
    assert h + 1 == (h / p + (h % p + 1) / p) * p + r;
    QuotientIs(h + 1, h / p + (h % p + 1) / p, r, p);
  }

  // Numbers less than p apart have different remainders.
  lemma RemaindersDiffer(i: nat, j: nat, p: nat)
    requires i < j < i + p
    ensures i % p != j % p
  {
    var q := j / p - i / p;
    assert j - i == q * p + (j % p - i % p);
    MultipleOrder(q, p);
  }
}
