/** Small facts about products and quotients that the solver needs to be told one at a time. */
module Arith {
  lemma MulLe(a: int, b: int, c: int)
    requires a <= b && 0 <= c
    ensures a * c <= b * c
  {
  }

  lemma MulLt(a: int, b: int, c: int)
    requires a < b && 0 < c
    ensures a * c < b * c
  {
  }

  lemma MulAssoc(a: int, b: int, c: int)
    ensures (a * b) * c == a * (b * c)
  {
  }

  lemma MulDist(a: int, b: int, c: int)
    ensures (a + b) * c == a * c + b * c
    ensures (a - b) * c == a * c - b * c
  {
  }

  lemma DivMod(v: int, p: int)
    requires p > 0
    ensures v == v / p * p + v % p && 0 <= v % p < p
  {
    assert v == p * (v / p) + v % p;
  }

  lemma DivUnique(v: int, p: int, q: int, r: int)
    requires p > 0 && v == q * p + r && 0 <= r < p
    ensures v / p == q && v % p == r
  {
    DivMod(v, p);
    var a := v / p;
    if a < q {
      MulLe(a + 1, q, p);
      MulDist(a, 1, p);
    }
    if q < a {
      MulLe(q + 1, a, p);
      MulDist(q, 1, p);
    }
  }

  lemma DivDiv(v: nat, p: nat)
    requires p > 0
    ensures v / 2 / p == v / (2 * p)
  {
    var q, r := v / (2 * p), v % (2 * p);
    DivMod(v, 2 * p);
    MulAssoc(q, 2, p);
    MulAssoc(2, q, p);
    assert v == 2 * (q * p) + r;
    DivUnique(v / 2, p, q, r / 2);
  }

  lemma DivAtLeast(v: nat, p: nat, k: nat)
    requires p > 0 && v >= k * p
    ensures v / p >= k
  {
    DivMod(v, p);
    if v / p < k {
      MulLe(v / p + 1, k, p);
      MulDist(v / p, 1, p);
    }
  }

  lemma DivBelow(v: nat, p: nat, k: nat)
    requires p > 0 && v < k * p
    ensures v / p < k
  {
    DivMod(v, p);
    if v / p >= k { MulLe(k, v / p, p); }
  }
}
