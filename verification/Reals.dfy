/** Contracts of the real-valued library functions, and the few facts about squares the statistics need. */
module Reals {
  /** What `math.sqrt` promises on nonnegative reals. */
  ghost predicate IsSqrt(sqrt: real -> real) {
    forall x | x >= 0.0 :: sqrt(x) >= 0.0 && sqrt(x) * sqrt(x) == x
  }

  lemma SquareNonNegative(x: real)
    ensures x * x >= 0.0
  {
  }

  lemma ProductNonNegative(x: real, y: real)
    requires x >= 0.0 && y >= 0.0
    ensures x * y >= 0.0
  {
  }

  lemma PositiveProduct(x: real, y: real, product: real)
    requires x > 0.0 && y > 0.0 && product == x * y
    ensures product > 0.0
  {
  }

  lemma ProductMonotone(x: real, y: real, k: real)
    requires x <= y && k >= 0.0
    ensures x * k <= y * k
  {
    ProductNonNegative(y - x, k);
    assert (y - x) * k == y * k - x * k;
  }

  /** Comparing magnitudes is comparing squares. */
  lemma SquaresCompare(u: real, m: real)
    requires m >= 0.0
    ensures -m <= u <= m <==> u * u <= m * m
  {
    if -m <= u <= m {
      ProductNonNegative(m - u, m + u);
      assert (m - u) * (m + u) == m * m - u * u;
    } else if u > m {
      PositiveProduct(u - m, u + m, (u - m) * (u + m));
      assert (u - m) * (u + m) == u * u - m * m;
    } else {
      PositiveProduct(m - u, -u - m, (m - u) * (-u - m));
      assert (m - u) * (-u - m) == u * u - m * m;
    }
  }

  lemma StrictProduct(x: real, y: real, k: real)
    requires k > 0.0
    ensures x > y ==> x * k > y * k
  {
    if x > y {
      assert (x - y) * k > 0.0;
      assert (x - y) * k == x * k - y * k;
    }
  }

  lemma CancelFactor(x: real, y: real, k: real)
    requires k > 0.0 && x * k == y * k
    ensures x == y
  {
    StrictProduct(x, y, k);
    StrictProduct(y, x, k);
  }

  lemma CancelLess(x: real, y: real, k: real)
    requires k > 0.0 && x * k < y * k
    ensures x < y
  {
    if y <= x {
      ProductMonotone(y, x, k);
    }
  }

  /** Clearing a positive denominator. */
  lemma DivideCompare(a: real, b: real, d: real)
    requires d > 0.0
    ensures a / d <= b <==> a <= b * d
    ensures b <= a / d <==> b * d <= a
  {
    var q := a / d;
    assert q * d == a;
    if q <= b {
      ProductMonotone(q, b, d);
    }
    if b <= q {
      ProductMonotone(b, q, d);
    }
    StrictProduct(q, b, d);
    StrictProduct(b, q, d);
  }
}
