/** The Wilson score interval, over the reals. */
module Wilson {
  import opened Reals

  datatype Result = Interval(low: real, high: real) | InvalidCounts | InvalidConfidence

  /** What `NormalDist().inv_cdf` promises above the median. */
  ghost predicate IsQuantile(quantile: real -> real) {
    && (forall p | 0.5 < p < 1.0 :: quantile(p) > 0.0)
    && (forall p, q | 0.5 < p <= q < 1.0 :: quantile(p) <= quantile(q))
  }

  function Radicand(phat: real, n: real, z: real): real
    requires n > 0.0
  {
    phat * (1.0 - phat) / n + z * z / (4.0 * n * n)
  }

  function Denominator(n: real, z: real): (d: real)
    requires n > 0.0
    ensures d >= 1.0
  {
    SquareNonNegative(z);
    DivideCompare(z * z, 0.0, n);
    1.0 + z * z / n
  }

  function Center(phat: real, n: real, z: real): real
    requires n > 0.0
  {
    (phat + z * z / (2.0 * n)) / Denominator(n, z)
  }

  function Margin(phat: real, n: real, z: real, sqrt: real -> real): real
    requires n > 0.0
  {
    z * sqrt(Radicand(phat, n, z)) / Denominator(n, z)
  }

  function Max(a: real, b: real): real { if a >= b then a else b }

  function Min(a: real, b: real): real { if a <= b then a else b }

  function WilsonCi(successes: int, total: int, confidence: real, quantile: real -> real, sqrt: real -> real): Result {
    if total < 0 || successes < 0 || successes > total then InvalidCounts
    else if !(0.0 < confidence < 1.0) then InvalidConfidence
    else if total == 0 then Interval(0.0, 1.0)
    else
      var z := quantile(1.0 - (1.0 - confidence) / 2.0);
      var n := total as real;
      var phat := successes as real / n;
      var center, margin := Center(phat, n, z), Margin(phat, n, z, sqrt);
      Interval(Max(0.0, center - margin), Min(1.0, center + margin))
  }

  /** The polynomial identity behind the interval, with a = z^2 / n. */
  lemma CompletedSquare(p: real, x: real, a: real)
    ensures var u := x * (1.0 + a) - p - a / 2.0;
            u * u - (a * p * (1.0 - p) + a * a / 4.0) == (1.0 + a) * ((p - x) * (p - x) - a * x * (1.0 - x))
  {
  }

  /** The score-test inequality the interval inverts. */
  ghost predicate Plausible(phat: real, n: real, z: real, x: real) {
    n * ((phat - x) * (phat - x)) <= z * z * (x * (1.0 - x))
  }

  ghost predicate Estimate(phat: real, n: real, z: real) {
    n > 0.0 && z > 0.0 && 0.0 <= phat <= 1.0
  }

  lemma RadicandNonNegative(phat: real, n: real, z: real)
    requires Estimate(phat, n, z)
    ensures Radicand(phat, n, z) >= 0.0
  {
    ProductNonNegative(phat, 1.0 - phat);
    DivideCompare(phat * (1.0 - phat), 0.0, n);
    SquareNonNegative(z);
    PositiveProduct(4.0 * n, n, 4.0 * n * n);
    DivideCompare(z * z, 0.0, 4.0 * n * n);
  }

  /** Scaled by the denominator, the squared margin is a polynomial in phat and a = z^2 / n. */
  lemma MarginSquared(phat: real, n: real, z: real, sqrt: real -> real)
    requires Estimate(phat, n, z) && IsSqrt(sqrt)
    ensures var m, a := z * sqrt(Radicand(phat, n, z)), z * z / n;
            m >= 0.0 && m * m == a * phat * (1.0 - phat) + a * a / 4.0
  {
    RadicandNonNegative(phat, n, z);
    var r := Radicand(phat, n, z);
    var s, a := sqrt(r), z * z / n;
    ProductNonNegative(z, s);
    assert (z * s) * (z * s) == (z * z) * (s * s);
    assert s * s == r;
    ScaledRadicand(phat, n, z);
  }

  lemma ScaledRadicand(phat: real, n: real, z: real)
    requires n > 0.0
    ensures var a := z * z / n; (z * z) * Radicand(phat, n, z) == a * phat * (1.0 - phat) + a * a / 4.0
  {
    var a, q := z * z / n, phat * (1.0 - phat);
    assert a * n == z * z;
    assert q / n * n == q;
    var t := z * z / (4.0 * n * n);
    assert t * (4.0 * n * n) == z * z;
    assert (z * z) * (q / n) == a * q by {
      assert (z * z) * (q / n) == a * n * (q / n);
      assert a * n * (q / n) == a * (q / n * n);
    }
    assert (z * z) * t == a * a / 4.0 by {
      assert (z * z) * t == (a * n) * t;
      assert t * 4.0 * n == a by {
        assert t * 4.0 * n * n == a * n;
        CancelFactor(t * 4.0 * n, a, n);
      }
      assert (a * n) * t * 4.0 == a * (t * 4.0 * n);
    }
    assert a * phat * (1.0 - phat) == a * q;
  }

  /** Membership with the divisions cleared: d is the denominator, top and scaled the two numerators. */
  lemma MembershipCleared(p: real, x: real, a: real, d: real, c: real, m: real, top: real, scaled: real)
    requires d == 1.0 + a && d > 0.0 && c * d == top && m * d == scaled
    requires top == p + a / 2.0 && scaled >= 0.0 && scaled * scaled == a * p * (1.0 - p) + a * a / 4.0
    ensures c - m <= x <= c + m <==> (p - x) * (p - x) - a * x * (1.0 - x) <= 0.0
  {
    var u := x * d - top;
    EndsInBand(c, m, x, d, top, scaled, u);
    BandIsPlausible(p, x, a, d, top, scaled, u);
  }

  lemma EndsInBand(c: real, m: real, x: real, d: real, top: real, scaled: real, u: real)
    requires d > 0.0 && c * d == top && m * d == scaled && u == x * d - top
    ensures c - m <= x <= c + m <==> -scaled <= u <= scaled
  {
    EndsScaled(c, m, x, d);
  }

  lemma BandIsPlausible(p: real, x: real, a: real, d: real, top: real, scaled: real, u: real)
    requires d == 1.0 + a && d > 0.0 && top == p + a / 2.0 && u == x * d - top
    requires scaled >= 0.0 && scaled * scaled == a * p * (1.0 - p) + a * a / 4.0
    ensures -scaled <= u <= scaled <==> (p - x) * (p - x) - a * x * (1.0 - x) <= 0.0
  {
    SquaresCompare(u, scaled);
    SquareGap(p, x, a, d, u, scaled * scaled, u * u);
  }

  lemma SquareGap(p: real, x: real, a: real, d: real, u: real, square: real, uu: real)
    requires d == 1.0 + a && d > 0.0 && u == x * d - p - a / 2.0 && uu == u * u
    requires square == a * p * (1.0 - p) + a * a / 4.0
    ensures uu <= square <==> (p - x) * (p - x) - a * x * (1.0 - x) <= 0.0
  {
    var gap := (p - x) * (p - x) - a * x * (1.0 - x);
    assert uu - square == d * gap by {
      CompletedSquare(p, x, a);
      assert u == x * (1.0 + a) - p - a / 2.0;
    }
    SignOfProduct(d, gap);
  }

  /** x lies between the unclamped ends exactly when it passes the score test. */
  lemma WilsonMembership(phat: real, n: real, z: real, sqrt: real -> real, x: real)
    requires Estimate(phat, n, z) && IsSqrt(sqrt)
    ensures var c, m := Center(phat, n, z), Margin(phat, n, z, sqrt);
            c - m <= x <= c + m <==> Plausible(phat, n, z, x)
  {
    var a, d := z * z / n, Denominator(n, z);
    var top, scaled := phat + z * z / (2.0 * n), z * sqrt(Radicand(phat, n, z));
    HalfQuotient(z * z, n);
    MarginSquared(phat, n, z, sqrt);
    MembershipCleared(phat, x, a, d, top / d, scaled / d, top, scaled);
    PlausibleByRatio(phat, n, z, x);
  }

  lemma HalfQuotient(q: real, n: real)
    requires n > 0.0
    ensures q / (2.0 * n) == q / n / 2.0
  {
    assert q / n * n == q;
    var h := q / (2.0 * n);
    assert h * (2.0 * n) == q;
    CancelFactor(h * 2.0, q / n, n);
  }

  lemma EndsScaled(c: real, m: real, x: real, d: real)
    requires d > 0.0
    ensures c - m <= x <= c + m <==> -(m * d) <= x * d - c * d <= m * d
  {
    assert (x - (c - m)) * d == x * d - c * d + m * d;
    assert ((c + m) - x) * d == c * d + m * d - x * d;
    SignOfProduct(d, (c - m) - x);
    SignOfProduct(d, x - (c + m));
    assert d * ((c - m) - x) == -((x - (c - m)) * d);
    assert d * (x - (c + m)) == -(((c + m) - x) * d);
  }

  lemma SignOfProduct(d: real, g: real)
    requires d > 0.0
    ensures d * g <= 0.0 <==> g <= 0.0
  {
    StrictProduct(g, 0.0, d);
    StrictProduct(0.0, g, d);
  }

  lemma PlausibleByRatio(phat: real, n: real, z: real, x: real)
    requires n > 0.0
    ensures Plausible(phat, n, z, x) <==> (phat - x) * (phat - x) - z * z / n * x * (1.0 - x) <= 0.0
  {
    var a, g := z * z / n, (phat - x) * (phat - x);
    assert a * n == z * z;
    var v := x * (1.0 - x);
    assert z * z * v == n * (a * v) by {
      assert a * n * v == n * (a * v);
    }
    assert a * x * (1.0 - x) == a * v;
    assert n * (g - a * v) == n * g - n * (a * v);
    SignOfProduct(n, g - a * v);
  }

  lemma NonNegativeFactor(k: real, v: real)
    requires k > 0.0 && k * v >= 0.0
    ensures v >= 0.0
  {
    StrictProduct(0.0, v, k);
  }

  lemma PlausibleIsProbability(phat: real, n: real, z: real, x: real)
    requires Estimate(phat, n, z) && Plausible(phat, n, z, x)
    ensures 0.0 <= x <= 1.0
  {
    SquareNonNegative(phat - x);
    ProductNonNegative(n, (phat - x) * (phat - x));
    PositiveProduct(z, z, z * z);
    NonNegativeFactor(z * z, x * (1.0 - x));
    if x < 0.0 {
      StrictProduct(1.0 - x, 0.0, -x);
      assert false;
    }
    if x > 1.0 {
      StrictProduct(x, 0.0, x - 1.0);
      assert false;
    }
  }

  /** The clamps never bite, and the interval contains the observed proportion. */
  lemma WilsonContainsEstimate(phat: real, n: real, z: real, sqrt: real -> real)
    requires Estimate(phat, n, z) && IsSqrt(sqrt)
    ensures var c, m := Center(phat, n, z), Margin(phat, n, z, sqrt);
            0.0 <= c - m <= phat <= c + m <= 1.0
  {
    var c, m := Center(phat, n, z), Margin(phat, n, z, sqrt);
    MarginNonNegative(phat, n, z, sqrt);
    WilsonMembership(phat, n, z, sqrt, c - m);
    WilsonMembership(phat, n, z, sqrt, c + m);
    PlausibleIsProbability(phat, n, z, c - m);
    PlausibleIsProbability(phat, n, z, c + m);
    ProductNonNegative(phat, 1.0 - phat);
    ProductNonNegative(z * z, phat * (1.0 - phat));
    WilsonMembership(phat, n, z, sqrt, phat);
  }

  lemma MarginNonNegative(phat: real, n: real, z: real, sqrt: real -> real)
    requires Estimate(phat, n, z) && IsSqrt(sqrt)
    ensures Margin(phat, n, z, sqrt) >= 0.0
  {
    MarginSquared(phat, n, z, sqrt);
    DivideCompare(z * sqrt(Radicand(phat, n, z)), 0.0, Denominator(n, z));
  }

  lemma PlausibleGrows(phat: real, n: real, z: real, z': real, x: real)
    requires Estimate(phat, n, z) && z <= z' && Plausible(phat, n, z, x)
    ensures Plausible(phat, n, z', x)
  {
    PlausibleIsProbability(phat, n, z, x);
    ProductNonNegative(x, 1.0 - x);
    ProductMonotone(z, z', z);
    ProductMonotone(z, z', z');
    ProductMonotone(z * z, z' * z', x * (1.0 - x));
  }

  /** A wider quantile gives an interval that contains the narrower one. */
  lemma WilsonGrows(phat: real, n: real, z: real, z': real, sqrt: real -> real)
    requires Estimate(phat, n, z) && z <= z' && IsSqrt(sqrt)
    ensures Center(phat, n, z') - Margin(phat, n, z', sqrt) <= Center(phat, n, z) - Margin(phat, n, z, sqrt)
    ensures Center(phat, n, z) + Margin(phat, n, z, sqrt) <= Center(phat, n, z') + Margin(phat, n, z', sqrt)
  {
    var lo, hi := Center(phat, n, z) - Margin(phat, n, z, sqrt), Center(phat, n, z) + Margin(phat, n, z, sqrt);
    MarginNonNegative(phat, n, z, sqrt);
    WilsonMembership(phat, n, z, sqrt, lo);
    WilsonMembership(phat, n, z, sqrt, hi);
    PlausibleGrows(phat, n, z, z', lo);
    PlausibleGrows(phat, n, z, z', hi);
    WilsonMembership(phat, n, z', sqrt, lo);
    WilsonMembership(phat, n, z', sqrt, hi);
  }

  /** Counting failures instead of successes mirrors the interval. */
  lemma WilsonMirrors(phat: real, n: real, z: real, sqrt: real -> real)
    requires Estimate(phat, n, z) && IsSqrt(sqrt)
    ensures Center(1.0 - phat, n, z) - Margin(1.0 - phat, n, z, sqrt)
        == 1.0 - (Center(phat, n, z) + Margin(phat, n, z, sqrt))
    ensures Center(1.0 - phat, n, z) + Margin(1.0 - phat, n, z, sqrt)
        == 1.0 - (Center(phat, n, z) - Margin(phat, n, z, sqrt))
  {
    MirrorContains(phat, n, z, sqrt);
    MirrorContains(1.0 - phat, n, z, sqrt);
    assert 1.0 - (1.0 - phat) == phat;
  }

  lemma PlausibleMirrors(phat: real, n: real, z: real, x: real)
    requires Plausible(phat, n, z, x)
    ensures Plausible(1.0 - phat, n, z, 1.0 - x)
  {
    assert ((1.0 - phat) - (1.0 - x)) * ((1.0 - phat) - (1.0 - x)) == (phat - x) * (phat - x);
    assert (1.0 - x) * (1.0 - (1.0 - x)) == x * (1.0 - x);
  }

  lemma MirrorContains(phat: real, n: real, z: real, sqrt: real -> real)
    requires Estimate(phat, n, z) && IsSqrt(sqrt)
    ensures Center(1.0 - phat, n, z) - Margin(1.0 - phat, n, z, sqrt)
        <= 1.0 - (Center(phat, n, z) + Margin(phat, n, z, sqrt))
    ensures 1.0 - (Center(phat, n, z) - Margin(phat, n, z, sqrt))
        <= Center(1.0 - phat, n, z) + Margin(1.0 - phat, n, z, sqrt)
  {
    var lo, hi := Center(phat, n, z) - Margin(phat, n, z, sqrt), Center(phat, n, z) + Margin(phat, n, z, sqrt);
    MarginNonNegative(phat, n, z, sqrt);
    WilsonMembership(phat, n, z, sqrt, lo);
    WilsonMembership(phat, n, z, sqrt, hi);
    PlausibleMirrors(phat, n, z, lo);
    PlausibleMirrors(phat, n, z, hi);
    WilsonMembership(1.0 - phat, n, z, sqrt, 1.0 - lo);
    WilsonMembership(1.0 - phat, n, z, sqrt, 1.0 - hi);
  }

  /**
   * What the returned interval means, for all counts and confidences: the errors are exactly the bad
   * inputs, and otherwise x is in the clamped interval exactly when it passes the score test.
   */
  lemma WilsonCiMeans(successes: int, total: int, confidence: real, quantile: real -> real, sqrt: real -> real, x: real)
    requires IsQuantile(quantile) && IsSqrt(sqrt)
    ensures var r := WilsonCi(successes, total, confidence, quantile, sqrt);
            && (r.InvalidCounts? <==> !(0 <= successes <= total))
            && (r.InvalidConfidence? <==> 0 <= successes <= total && !(0.0 < confidence < 1.0))
            && (r.Interval? && total == 0 ==> r == Interval(0.0, 1.0))
            && (r.Interval? && total > 0 ==>
                var z := quantile(1.0 - (1.0 - confidence) / 2.0);
                var phat := successes as real / total as real;
                && 0.0 <= r.low <= phat <= r.high <= 1.0
                && (r.low <= x <= r.high <==> Plausible(phat, total as real, z, x)))
  {
    if 0 <= successes <= total && 0.0 < confidence < 1.0 && total > 0 {
      var z := quantile(1.0 - (1.0 - confidence) / 2.0);
      var n := total as real;
      var phat := successes as real / n;
      DivideCompare(successes as real, 0.0, n);
      DivideCompare(successes as real, 1.0, n);
      assert 0.5 < 1.0 - (1.0 - confidence) / 2.0 < 1.0;
      WilsonContainsEstimate(phat, n, z, sqrt);
      WilsonMembership(phat, n, z, sqrt, x);
    }
  }

  /** More confidence never gives a narrower interval. */
  lemma WilsonGrowsWithConfidence(
      successes: int, total: int, c: real, c': real, quantile: real -> real, sqrt: real -> real)
    requires IsQuantile(quantile) && IsSqrt(sqrt) && 0.0 < c <= c' < 1.0
    requires 0 <= successes <= total && total > 0
    ensures var r, r' := WilsonCi(successes, total, c, quantile, sqrt), WilsonCi(successes, total, c', quantile, sqrt);
            r.Interval? && r'.Interval? && r'.low <= r.low && r.high <= r'.high
  {
    var n := total as real;
    var phat := successes as real / n;
    var p, p' := 1.0 - (1.0 - c) / 2.0, 1.0 - (1.0 - c') / 2.0;
    DivideCompare(successes as real, 0.0, n);
    DivideCompare(successes as real, 1.0, n);
    assert 0.5 < p <= p' < 1.0;
    WilsonGrows(phat, n, quantile(p), quantile(p'), sqrt);
  }
}
