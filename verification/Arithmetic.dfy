/**
 Quotients and remainders by a number that is not a constant.
 */
module Arithmetic {

  lemma MulMonotone(a: int, b: int, d: nat)
    ensures a <= b ==> a * d <= b * d
  {
  }

  lemma MulBounds(k: int, p: int)
    requires p > 0
    ensures k > 0 ==> k * p >= p
    ensures k < 0 ==> k * p <= -p
  {
  }

  lemma QuotientAtLeast(x: int, d: nat, q: nat)
    requires d > 0 && x >= q * d
    ensures x / d >= q
  {
    MulMonotone(x / d + 1, q, d);
  }

  lemma QuotientBelow(x: int, d: nat, q: nat)
    requires d > 0 && x < q * d
    ensures x / d < q
  {
  }

  lemma QuotientIs(x: nat, d: nat, q: int)
    requires d > 0
    ensures x / d == q <==> q * d <= x < (q + 1) * d
  {
    assert x == (x / d) * d + x % d;
    if q < x / d {
      MulMonotone(q + 1, x / d, d);
    } else {
      MulMonotone(x / d + 1, q, d);
    }
  }

  lemma QuotientMonotone(a: nat, b: nat, d: nat)
    requires d > 0 && a <= b
    ensures a / d <= b / d
  {
    assert a == (a / d) * d + a % d;
    QuotientAtLeast(b, d, a / d);
  }

  lemma ModUnique(x: nat, q: int, r: nat, p: nat)
    requires p > 0 && r < p && x == q * p + r
    ensures x % p == r
  {
    var k := x / p - q;
    assert k * p == r - x % p;
    MulBounds(k, p);
  }

  lemma ModShift(d: nat, p: nat)
    requires d >= p > 0
    ensures (d - p) % p == d % p
  {
    var q := d / p;
    assert d - p == (q - 1) * p + d % p;
    ModUnique(d - p, q - 1, d % p, p);
  }

  lemma {:induction false} ModAddMultiple(a: nat, k: nat, n: nat)
    requires n > 0
    ensures (a + k * n) % n == a % n
    decreases k
  {
    if k > 0 {
      ModAddMultiple(a, k - 1, n);
      assert a + k * n == (a + (k - 1) * n) + n;
      ModShift(a + k * n, n);
    }
  }
}
