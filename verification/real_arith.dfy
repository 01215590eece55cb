/** Sign and order facts about products and quotients of reals, shared by
    the pricing and the hedging modules. */
module RealArith {

  /** Multiplying by a nonzero y keeps the sign of x when y is positive
      and flips it when y is negative. */
  lemma SignOfProduct(x: real, y: real)
    requires y != 0.0
    ensures y > 0.0 ==> (x >= 0.0 <==> x * y >= 0.0)
    ensures y < 0.0 ==> (x >= 0.0 <==> x * y <= 0.0)
  {
    if x >= 0.0 {
      assert y > 0.0 ==> x * y >= 0.0;
      assert y < 0.0 ==> x * y <= 0.0;
    } else {
      assert y > 0.0 ==> x * y < 0.0;
      assert y < 0.0 ==> x * y > 0.0;
    }
  }

  /** The product of two non-negative reals is non-negative. */
  lemma ProductNonNegative(x: real, y: real)
    requires x >= 0.0 && y >= 0.0
    ensures x * y >= 0.0
  {
  }

  /** Multiplying by a non-negative c keeps the order of a and b. */
  lemma MulMonotone(c: real, a: real, b: real)
    requires c >= 0.0 && a <= b
    ensures c * a <= c * b
  {
    ProductNonNegative(c, b - a);
    assert c * b - c * a == c * (b - a);
  }

  /** A quotient a / b lies in [0, 1] when a lies between 0 and b. */
  lemma RatioInUnit(a: real, b: real)
    requires b != 0.0
    requires b > 0.0 ==> 0.0 <= a <= b
    requires b < 0.0 ==> b <= a <= 0.0
    ensures 0.0 <= a / b <= 1.0
  {
    var q := a / b;
    assert q * b == a;
    assert (1.0 - q) * b == b - a;
    SignOfProduct(q, b);
    SignOfProduct(1.0 - q, b);
  }

  /** A quotient with a non-negative numerator and a positive denominator
      is non-negative. */
  lemma QuotientNonNegative(a: real, b: real)
    requires a >= 0.0 && b > 0.0
    ensures a / b >= 0.0
  {
  }

  /** b, the product of two positive reals, is positive. */
  lemma ProductPositive(x: real, y: real, b: real)
    requires x > 0.0 && y > 0.0 && b == x * y
    ensures b > 0.0
  {
  }

  /** The square b of a non-zero h is positive. */
  lemma SquarePositive(h: real, b: real)
    requires h != 0.0 && b == h * h
    ensures b > 0.0
  {
    if h > 0.0 {
      ProductPositive(h, h, b);
    } else {
      assert b == (-h) * (-h);
      ProductPositive(-h, -h, b);
    }
  }
}
