/** Facts about products and quotients that the solver does not find on its own. */
module Arithmetic {
  lemma MulMono(a: int, b: int, c: int)
    requires 0 <= a && b <= c
    ensures a * b <= a * c
  {
  }

  /** Quotient and remainder are the only such decomposition. */
  lemma Divide(x: nat, d: nat, q: nat, r: nat)
    requires r < d && x == q * d + r
    ensures x / d == q && x % d == r
  {
    var e := x / d - q;
    assert x == (x / d) * d + x % d;
    assert e * d == r - x % d;
    if e >= 1 {
      MulMono(d, 1, e);
    } else if e <= -1 {
      MulMono(d, e, -1);
    }
  }
}
