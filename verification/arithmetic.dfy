/** The few facts about products that several proofs need. */
module Arithmetic {

  lemma OneMore(a: nat, d: nat)
    ensures (a + 1) * d == a * d + d
  {
  }

  lemma {:induction false} Scale(a: nat, b: nat, d: nat)
    requires a <= b
    ensures a * d <= b * d
  {
    if a < b {
      Scale(a, b - 1, d);
      OneMore(b - 1, d);
    }
  }

  lemma Apart(p: nat, q: nat, d: nat)
    requires p < q
    ensures q * d >= p * d + d
  {
    OneMore(p, d);
    Scale(p + 1, q, d);
  }

  /** A quotient is at least `q` exactly if `q` divisors fit. */
  lemma QuotientAtLeast(x: nat, d: nat, q: nat)
    requires d > 0
    ensures q * d <= x <==> q <= x / d
  {
    var y := x / d;
    assert y * d <= x < y * d + d;
    OneMore(y, d);
    if q <= y {
      Scale(q, y, d);
    } else {
      Scale(y + 1, q, d);
    }
  }
}
