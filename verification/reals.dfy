/** Facts about division of reals that the bounds on bins and on mean
    positions rest on, each stated on its own so that the solver meets it
    without unrelated context. */
module Reals {

  /** Dividing by a positive number keeps a strict order. */
  lemma QuotientLess(a: real, b: real, w: real)
    requires a < b && w > 0.0
    ensures a / w < b / w
  {
    var qa, qb := a / w, b / w;
    assert qa * w == a && qb * w == b;
    assert (qb - qa) * w == b - a;
  }

  /** Dividing by a positive number keeps a non-strict order. */
  lemma QuotientAtMost(a: real, b: real, w: real)
    requires a <= b && w > 0.0
    ensures a / w <= b / w
  {
    if a < b {
      QuotientLess(a, b, w);
    }
  }

  /** Multiplying and then dividing by the same non-zero number is the
      identity. */
  lemma ProductQuotient(x: real, w: real)
    requires w != 0.0
    ensures (x * w) / w == x
  {
  }

  /** Converting a product of naturals to a real is the product of the
      converted factors. */
  lemma {:induction false} CastProduct(a: nat, b: nat)
    ensures (a * b) as real == (a as real) * (b as real)
    decreases b
  {
    if b > 0 {
      CastProduct(a, b - 1);
      assert a * b == a * (b - 1) + a;
      assert (b as real) == ((b - 1) as real) + 1.0;
    }
  }
}
