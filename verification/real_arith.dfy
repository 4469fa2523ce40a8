/**
  Facts about products of reals that the solver does not find unaided:
  squares are non-negative, and a product is zero exactly when a factor is.
*/
module RealArith {

  lemma SquareNonNegative(x: real)
    ensures x * x >= 0.0
  {
  }

  /** Only zero squares to zero. */
  lemma SquareZero(x: real)
    ensures x * x == 0.0 ==> x == 0.0
  {
    if x * x == 0.0 {
      ProductZero(x, x);
    }
  }

  /** A product is zero only when a factor is. */
  lemma ProductZero(a: real, b: real)
    requires a * b == 0.0
    ensures a == 0.0 || b == 0.0
  {
  }

  lemma NonZeroProduct(a: real, b: real)
    requires a != 0.0 && b != 0.0
    ensures a * b != 0.0
  {
  }
}
