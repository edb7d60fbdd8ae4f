/** Products and quotients of natural numbers. */
module Arithmetic {

  lemma NextMultiple(a: nat, b: nat, d: nat)
    requires a < b
    ensures a * d + d == (a + 1) * d <= b * d
  {
  }

  lemma QuotientUnique(n: nat, d: nat, q: nat, r: nat)
    requires n == q * d + r && r < d
    ensures n / d == q && n % d == r
  {
    var q' := n / d;
    assert n == q' * d + n % d;
    if q' < q {
      NextMultiple(q', q, d);
    } else if q < q' {
      NextMultiple(q, q', d);
    }
  }

  lemma Division(n: nat, u: nat)
    requires u > 0
    ensures n == n / u * u + n % u
  {
  }
}
