/** Facts about products and quotients of naturals that byte strings, windows and periods share. */
module Quotients {
  lemma MulGap(a: nat, b: nat, d: nat)
    requires a < b
    ensures a * d + d <= b * d
  {
    assert (b - a - 1) * d >= 0;
    assert (b - a - 1) * d == b * d - a * d - d;
  }

  lemma QuotientIs(x: nat, d: nat, q: nat, r: nat)
    requires x == q * d + r && r < d
    ensures x / d == q && x % d == r
  {
    var p, t := x / d, x % d;
    assert x == p * d + t;
    if p < q { MulGap(p, q, d); }
    if q < p { MulGap(q, p, d); }
  }

  /** A multiple of `d` is at or below `x` exactly when its index is at most the quotient. */
  lemma MultipleReached(k: nat, d: nat, x: nat)
    requires 1 <= d
    ensures k * d <= x <==> k <= x / d
  {
    var q, r := x / d, x % d;
    assert x == q * d + r;
    if k < q { MulGap(k, q, d); }
    if q < k { MulGap(q, k, d); }
  }
}
