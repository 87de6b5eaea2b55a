/** The drift alert: a z-score of the last day's drift rate against the whole window, over the reals. */
module DriftAlert {
  import opened Common
  import opened Reals

  datatype Family = Family(name: string)

  datatype Finding = Finding(family: Option<Family>, driftDelta: int)

  // ------------------------------------------------------------------------------- sums

  function Sum(s: seq<real>): real {
    if s == [] then 0.0 else Sum(s[..|s| - 1]) + s[|s| - 1]
  }

  /** Sum of squared distances to y. */
  function Spread(s: seq<real>, y: real): real {
    if s == [] then 0.0
    else Spread(s[..|s| - 1], y) + (s[|s| - 1] - y) * (s[|s| - 1] - y)
  }

  lemma {:induction false} SpreadNonNegative(s: seq<real>, y: real)
    ensures Spread(s, y) >= 0.0
  {
    if s != [] {
      SpreadNonNegative(s[..|s| - 1], y);
      SquareNonNegative(s[|s| - 1] - y);
    }
  }

  /** Sum of distances to m. */
  ghost function Deviation(s: seq<real>, m: real): real {
    if s == [] then 0.0 else Deviation(s[..|s| - 1], m) + (s[|s| - 1] - m)
  }

  lemma {:induction false} DeviationIsSum(s: seq<real>, m: real, n: real)
    requires n == |s| as real
    ensures Deviation(s, m) == Sum(s) - n * m
  {
    if s != [] {
      DeviationIsSum(s[..|s| - 1], m, n - 1.0);
      assert (n - 1.0) * m == n * m - m;
    }
  }

  /** One more value keeps the square of a sum below the count times the sum of squares. */
  lemma MeanSquareStep(sum: real, squares: real, k: real, y: real)
    requires k > 0.0 && sum * sum <= k * squares
    ensures (sum + y) * (sum + y) <= (k + 1.0) * (squares + y * y)
  {
    var slack := squares + k * (y * y) - 2.0 * (sum * y);
    assert (sum - k * y) * (sum - k * y) == sum * sum - 2.0 * k * (sum * y) + k * (k * (y * y));
    SquareNonNegative(sum - k * y);
    assert k * slack >= 0.0;
    StrictProduct(0.0, slack, k);
    assert (sum + y) * (sum + y) == sum * sum + 2.0 * (sum * y) + y * y;
  }

  lemma {:induction false} MeanSquare(s: seq<real>, m: real, n: real)
    requires n == |s| as real
    ensures Deviation(s, m) * Deviation(s, m) <= n * Spread(s, m)
  {
    if |s| == 1 {
      assert s[..0] == [];
    } else if |s| > 1 {
      var front, x := s[..|s| - 1], s[|s| - 1];
      MeanSquare(front, m, n - 1.0);
      MeanSquareStep(Deviation(front, m), Spread(front, m), n - 1.0, x - m);
    }
  }

  function Mean(s: seq<real>): real
    requires s != []
  {
    Sum(s) / |s| as real
  }

  /** The squared sample standard deviation. */
  function Variance(s: seq<real>): real
    requires |s| >= 2
  {
    Spread(s, Mean(s)) / (|s| - 1) as real
  }

  /** Samuelson's inequality: how far one value can be from the mean, for the spread of all of them. */
  lemma Samuelson(s: seq<real>, m: real, n: real, w: real)
    requires s != [] && n == |s| as real && n * m == Sum(s) && w == n - 1.0
    ensures var d := s[|s| - 1] - m; n * (d * d) <= w * Spread(s, m)
  {
    var rest, d := s[..|s| - 1], s[|s| - 1] - m;
    RestDeviation(s, m, n);
    MeanSquare(rest, m, w);
    SamuelsonAlgebra(Spread(rest, m), Deviation(rest, m), d, n, w);
  }

  lemma RestDeviation(s: seq<real>, m: real, n: real)
    requires s != [] && n == |s| as real && n * m == Sum(s)
    ensures Deviation(s[..|s| - 1], m) == -(s[|s| - 1] - m)
  {
    DeviationIsSum(s, m, n);
  }

  lemma SamuelsonAlgebra(r: real, t: real, d: real, n: real, w: real)
    requires t == -d && t * t <= w * r && w == n - 1.0
    ensures n * (d * d) <= w * (r + d * d)
  {
    assert t * t == d * d;
    assert n * (d * d) == w * (d * d) + d * d;
    assert w * (r + d * d) == w * r + w * (d * d);
  }

  // ------------------------------------------------------------------------- the alert

  datatype Alert =
    | InsufficientHistory
    | Scored(alert: bool, zScore: real, currentRate: real, meanRate: real, stdDev: real, family: Family,
        triggered: bool)

  /** How many findings of a day drifted, whatever their family. */
  function Drifted(day: seq<Finding>): (n: nat)
    ensures n <= |day|
  {
    if day == [] then 0
    else Drifted(day[..|day| - 1]) + if day[|day| - 1].driftDelta != 0 then 1 else 0
  }

  function Rate(day: seq<Finding>): real {
    if |day| > 0 then Drifted(day) as real / |day| as real else 0.0
  }

  /** The share of the findings with a drift delta other than zero; none of no findings. */
  ghost predicate IsShare(day: seq<Finding>, rate: real) {
    if day == [] then rate == 0.0 else rate * |day| as real == |DriftedAt(day)| as real
  }

  ghost function DriftedAt(day: seq<Finding>): set<int> {
    set i | 0 <= i < |day| && day[i].driftDelta != 0
  }

  lemma {:induction false} DriftedIsSize(day: seq<Finding>)
    ensures Drifted(day) == |DriftedAt(day)|
  {
    if day != [] {
      var n := |day| - 1;
      DriftedIsSize(day[..n]);
      assert DriftedAt(day) == DriftedAt(day[..n]) + if day[n].driftDelta != 0 then {n} else {};
    }
  }

  lemma RateIsShare(day: seq<Finding>)
    ensures IsShare(day, Rate(day))
  {
    DriftedIsSize(day);
  }

  function Rates(history: seq<seq<Finding>>): (r: seq<real>)
    ensures |r| == |history| && forall i | 0 <= i < |r| :: r[i] == Rate(history[i])
  {
    seq(|history|, i requires 0 <= i < |history| => Rate(history[i]))
  }

  ghost function ZScore(s: seq<real>, sqrt: real -> real): real
    requires |s| >= 2
  {
    var sd := sqrt(Variance(s));
    if sd == 0.0 then 0.0 else (s[|s| - 1] - Mean(s)) / sd
  }

  /** The z-score of the last value of a list exceeds the threshold. */
  ghost predicate Alerts(s: seq<real>, threshold: real, sqrt: real -> real)
    requires |s| >= 2
  {
    ZScore(s, sqrt) > threshold
  }

  /** The family is only passed through: rates, score and alert are those of all findings. */
  method CheckDriftAlert(
      history: seq<seq<Finding>>, family: Family, threshold: real, sqrt: real -> real) returns (r: Alert)
    ensures r.InsufficientHistory? <==> |history| < 2
    ensures r.Scored? ==>
              && r.currentRate == Rates(history)[|history| - 1]
              && r.meanRate == Mean(Rates(history))
              && r.stdDev == sqrt(Variance(Rates(history)))
              && r.zScore == ZScore(Rates(history), sqrt)
              && (r.alert <==> Alerts(Rates(history), threshold, sqrt))
              && r.family == family && r.triggered == r.alert
    ensures r.Scored? ==> IsShare(history[|history| - 1], r.currentRate) && (r.alert <==> r.zScore > threshold)
  {
    if |history| < 2 {
      return InsufficientHistory;
    }
    var rates: seq<real> := [];
    for d := 0 to |history|
      invariant |rates| == d && forall i | 0 <= i < d :: rates[i] == Rate(history[i])
    {
      var day := history[d];
      var drifted := 0;
      for i := 0 to |day|
        invariant drifted == Drifted(day[..i])
      {
        assert day[..i + 1][..i] == day[..i];
        if day[i].driftDelta != 0 {
          drifted := drifted + 1;
        }
      }
      assert day[..|day|] == day;
      rates := rates + [if |day| > 0 then drifted as real / |day| as real else 0.0];
    }
    assert rates == Rates(history);
    RateIsShare(history[|history| - 1]);
    var mean := Mean(rates);
    var stdDev := sqrt(Variance(rates));
    var current := rates[|rates| - 1];
    var z := if stdDev == 0.0 then 0.0 else (current - mean) / stdDev;
    r := Scored(z > threshold, z, current, mean, stdDev, family, z > threshold);
  }

  lemma VarianceScaled(s: seq<real>, w: real)
    requires |s| >= 2 && w == (|s| - 1) as real
    ensures Variance(s) >= 0.0 && Variance(s) * w == Spread(s, Mean(s))
  {
    var spread := Spread(s, Mean(s));
    SpreadNonNegative(s, Mean(s));
    VarianceIs(s, spread, w);
    QuotientScaled(spread, w);
  }

  lemma VarianceIs(s: seq<real>, spread: real, w: real)
    requires |s| >= 2 && spread == Spread(s, Mean(s)) && w == (|s| - 1) as real
    ensures Variance(s) == spread / w
  {
  }

  lemma QuotientScaled(a: real, d: real)
    requires a >= 0.0 && d > 0.0
    ensures a / d >= 0.0 && a / d * d == a
  {
    DivideCompare(a, 0.0, d);
  }

  lemma AlertAlgebra(d: real, sd: real, t: real, n: real, w: real)
    requires sd > 0.0 && t >= 0.0 && n > 0.0 && d > t * sd
    requires n * (d * d) <= w * (w * (sd * sd))
    ensures t * t * n < w * w
  {
    var u, v := t * sd, sd * sd;
    ProductNonNegative(t, sd);
    PositiveProduct(sd, sd, v);
    SquaresCompare(d, u);
    assert d * d > u * u;
    assert u * u == t * t * v;
    StrictProduct(d * d, t * t * v, n);
    assert t * t * v * n == t * t * n * v;
    assert w * (w * v) == w * w * v;
    assert t * t * n * v < w * w * v;
    CancelLess(t * t * n, w * w, v);
  }

  /** An alert at a nonnegative threshold needs a window longer than the threshold allows. */
  lemma AlertNeedsLongWindow(s: seq<real>, threshold: real, sqrt: real -> real)
    requires |s| >= 2 && threshold >= 0.0 && IsSqrt(sqrt) && Alerts(s, threshold, sqrt)
    ensures threshold * threshold * |s| as real < (|s| - 1) as real * (|s| - 1) as real
  {
    var n, w, m := |s| as real, (|s| - 1) as real, Mean(s);
    var d, v := s[|s| - 1] - m, Variance(s);
    VarianceScaled(s, w);
    var sd := sqrt(v);
    assert m * n == Sum(s);
    Samuelson(s, m, n, w);
    assert v * w == w * v && w * (v * w) == w * (w * (sd * sd));
    DivideCompare(d, threshold, sd);
    AlertAlgebra(d, sd, threshold, n, w);
  }

  /** At the default threshold no window of five days or fewer can ever alert. */
  lemma DefaultNeverAlertsWithinFiveDays(s: seq<real>, sqrt: real -> real)
    requires 2 <= |s| <= 5 && IsSqrt(sqrt)
    ensures !Alerts(s, 2.0, sqrt)
  {
    assert |s| == 2 || |s| == 3 || |s| == 4 || |s| == 5;
    if Alerts(s, 2.0, sqrt) {
      AlertNeedsLongWindow(s, 2.0, sqrt);
      assert false;
    }
  }

  // ----------------------------------------------------------------- the bound is attained

  /** n - 1 quiet days, then one day whose only finding drifted. */
  ghost function Spike(n: nat, family: Option<Family>): (history: seq<seq<Finding>>)
    requires n >= 1
    ensures |history| == n
  {
    seq(n, i requires 0 <= i < n => if i == n - 1 then [Finding(family, 1)] else [])
  }

  ghost function Zeros(k: nat): seq<real> {
    seq(k, i => 0.0)
  }

  lemma SpikeRates(n: nat, family: Option<Family>)
    requires n >= 1
    ensures Rates(Spike(n, family)) == Zeros(n - 1) + [1.0]
  {
    assert [Finding(family, 1)][..0] == [];
    assert Drifted([Finding(family, 1)]) == 1;
  }

  lemma {:induction false} ZeroSums(k: nat, m: real, w: real)
    requires w == k as real
    ensures Sum(Zeros(k)) == 0.0 && Spread(Zeros(k), m) == w * (m * m)
  {
    if k > 0 {
      assert Zeros(k)[..k - 1] == Zeros(k - 1);
      ZeroSums(k - 1, m, w - 1.0);
      assert (0.0 - m) * (0.0 - m) == m * m;
      assert w * (m * m) == (w - 1.0) * (m * m) + m * m;
    }
  }

  lemma SpikeStatistics(s: seq<real>, n: real)
    requires |s| >= 2 && s == Zeros(|s| - 1) + [1.0] && n == |s| as real
    ensures var m := Mean(s); m > 0.0 && m * n == 1.0 && Variance(s) == m && s[|s| - 1] - m == (n - 1.0) * m
  {
    var k := |s| - 1;
    var w := n - 1.0;
    assert s[..k] == Zeros(k);
    ZeroSums(k, Mean(s), w);
    var m := Mean(s);
    assert m * n == 1.0;
    DivideCompare(1.0, 0.0, n);
    SpikeAlgebra(m, n, w);
    assert Spread(s, m) == m * w;
    assert Variance(s) == Spread(s, m) / w;
    VarianceScaled(s, w);
    CancelFactor(Variance(s), m, w);
  }

  lemma SpikeAlgebra(m: real, n: real, w: real)
    requires m * n == 1.0 && w == n - 1.0
    ensures 1.0 - m == w * m
    ensures w * (m * m) + (1.0 - m) * (1.0 - m) == m * w
  {
    assert w * m == n * m - m;
    var g := w * m;
    assert w * (m * m) == g * m;
    assert g * m + g * g == g * (m + g);
    assert m + g == 1.0;
  }

  /** One spike after n - 1 quiet days alerts exactly when the bound leaves room. */
  lemma SpikeAlertsIff(n: nat, family: Option<Family>, threshold: real, sqrt: real -> real)
    requires n >= 2 && threshold >= 0.0 && IsSqrt(sqrt)
    ensures Alerts(Rates(Spike(n, family)), threshold, sqrt) <==>
            threshold * threshold * n as real < (n - 1) as real * (n - 1) as real
  {
    var s := Rates(Spike(n, family));
    SpikeRates(n, family);
    SpikeStatistics(s, n as real);
    var m, w := Mean(s), (n - 1) as real;
    var sd := sqrt(m);
    var d := s[|s| - 1] - m;
    assert d == w * (sd * sd);
    assert sd > 0.0;
    QuotientBySelf(w, sd, d);
    SpikeThreshold(w, sd, threshold, n as real);
  }

  lemma QuotientBySelf(w: real, sd: real, d: real)
    requires sd > 0.0 && d == w * (sd * sd)
    ensures d / sd == w * sd
  {
    var q := d / sd;
    assert q * sd == (w * sd) * sd;
    CancelFactor(q, w * sd, sd);
  }

  lemma SpikeThreshold(w: real, sd: real, t: real, n: real)
    requires w > 0.0 && sd > 0.0 && t >= 0.0 && n > 0.0 && sd * sd * n == 1.0
    ensures w * sd > t <==> t * t * n < w * w
  {
    var z := w * sd;
    PositiveProduct(w, sd, z);
    SquaresCompare(z, t);
    assert z * z == w * w * (sd * sd);
    assert z * z * n == w * w * (sd * sd * n);
    StrictProduct(z * z, t * t, n);
    if t * t * n < w * w {
      CancelLess(t * t, z * z, n);
    }
  }

  /** Some history of n days alerts at a threshold exactly when threshold^2 * n < (n - 1)^2. */
  lemma AlertPossibleIff(n: nat, threshold: real, sqrt: real -> real)
    requires n >= 2 && threshold >= 0.0 && IsSqrt(sqrt)
    ensures (exists history: seq<seq<Finding>> | |history| == n :: Alerts(Rates(history), threshold, sqrt)) <==>
            threshold * threshold * n as real < (n - 1) as real * (n - 1) as real
  {
    SpikeAlertsIff(n, None, threshold, sqrt);
    assert |Spike(n, None)| == n;
    forall history: seq<seq<Finding>> | |history| == n && Alerts(Rates(history), threshold, sqrt)
      ensures threshold * threshold * n as real < (n - 1) as real * (n - 1) as real
    {
      AlertNeedsLongWindow(Rates(history), threshold, sqrt);
    }
  }

  // ---------------------------------------------------------------------- the family asked for

  /** A day's findings of one family, in order. */
  function Of(day: seq<Finding>, family: Family): (r: seq<Finding>)
    ensures |r| <= |day|
  {
    if day == [] then []
    else Of(day[..|day| - 1], family) + if day[|day| - 1].family == Some(family) then [day[|day| - 1]] else []
  }

  function FamilyHistory(history: seq<seq<Finding>>, family: Family): (r: seq<seq<Finding>>)
    ensures |r| == |history| && forall i | 0 <= i < |r| :: r[i] == Of(history[i], family)
  {
    seq(|history|, i requires 0 <= i < |history| => Of(history[i], family))
  }

  /** The family drifts in the same share as the whole day; without findings of the family, nothing drifts. */
  predicate SameShare(day: seq<Finding>, family: Family) {
    var own := Of(day, family);
    if own == [] then Drifted(day) == 0 else Drifted(own) * |day| == Drifted(day) * |own|
  }

  lemma {:induction false} EqualQuotients(a: real, b: real, c: real, d: real)
    requires b > 0.0 && d > 0.0
    ensures a / b == c / d <==> a * d == c * b
  {
    var p, q := a / b, c / d;
    assert p * b == a && q * d == c;
    if p == q {
      assert a * d == p * b * d && c * b == p * d * b;
    }
    if a * d == c * b {
      assert p * (b * d) == a * d && q * (b * d) == c * b;
      PositiveProduct(b, d, b * d);
      CancelFactor(p, q, b * d);
    }
  }

  /** A day's rate is the family's own rate exactly when the family drifts in the same share. */
  lemma RateIsFamilyRateIff(day: seq<Finding>, family: Family)
    ensures Rate(day) == Rate(Of(day, family)) <==> SameShare(day, family)
  {
    var own := Of(day, family);
    if own != [] {
      EqualShares(Drifted(day), |day|, Drifted(own), |own|);
    } else if day != [] {
      EqualShares(Drifted(day), |day|, 0, 1);
    }
  }

  lemma ProductOfCounts(a: nat, b: nat)
    ensures a as real * b as real == (a * b) as real
  {
  }

  lemma EqualShares(d: nat, n: nat, k: nat, m: nat)
    requires n > 0 && m > 0
    ensures d as real / n as real == k as real / m as real <==> k * n == d * m
  {
    EqualQuotients(d as real, n as real, k as real, m as real);
    ProductOfCounts(d, m);
    ProductOfCounts(k, n);
  }

  /** How far the last rate is from the mean, and the variance it is measured by; a flat list measures nothing. */
  ghost function Excess(s: seq<real>): real
    requires |s| >= 2
  {
    if Variance(s) == 0.0 then 0.0 else s[|s| - 1] - Mean(s)
  }

  ghost function Scale(s: seq<real>): real
    requires |s| >= 2
  {
    if Variance(s) == 0.0 then 1.0 else Variance(s)
  }

  /** Two excesses are alike, each in the measure of its own variance; no root is taken. */
  ghost predicate SameStanding(d: real, v: real, e: real, w: real) {
    (d >= 0.0 <==> e >= 0.0) && d * d * w == e * e * v
  }

  lemma RootOf(s: seq<real>, sqrt: real -> real) returns (root: real)
    requires |s| >= 2 && IsSqrt(sqrt)
    ensures Scale(s) > 0.0 && root > 0.0 && root * root == Scale(s) && ZScore(s, sqrt) == Excess(s) / root
  {
    VarianceScaled(s, (|s| - 1) as real);
    RootIsZeroIff(sqrt, Variance(s));
    if Variance(s) == 0.0 {
      root := 1.0;
    } else {
      root := sqrt(Variance(s));
    }
  }

  lemma RootIsZeroIff(sqrt: real -> real, v: real)
    requires IsSqrt(sqrt) && v >= 0.0
    ensures sqrt(v) >= 0.0 && sqrt(v) * sqrt(v) == v && (sqrt(v) == 0.0 <==> v == 0.0)
  {
    var r := sqrt(v);
    if r > 0.0 {
      PositiveProduct(r, r, v);
    }
  }

  lemma QuotientSign(d: real, p: real)
    requires p > 0.0
    ensures d / p >= 0.0 <==> d >= 0.0
  {
    DivideCompare(d, 0.0, p);
  }

  /** Two values of one sign are equal exactly when their squares are. */
  lemma CrossSquares(x: real, y: real)
    requires x >= 0.0 <==> y >= 0.0
    ensures x == y <==> x * x == y * y
  {
    if x >= 0.0 {
      SquaresCompare(x, y);
      SquaresCompare(y, x);
    } else {
      SquaresCompare(-x, -y);
      SquaresCompare(-y, -x);
      assert -x * -x == x * x && -y * -y == y * y;
    }
  }

  lemma ProductSign(x: real, k: real)
    requires k > 0.0
    ensures x * k >= 0.0 <==> x >= 0.0
  {
    StrictProduct(0.0, x, k);
    if x >= 0.0 {
      ProductNonNegative(x, k);
    }
  }

  lemma SquareOfProduct(x: real, k: real, kk: real)
    requires kk == k * k
    ensures (x * k) * (x * k) == x * x * kk
  {
    assert (x * k) * (x * k) == x * x * (k * k);
  }

  lemma QuotientsAgreeIff(d: real, p: real, v: real, e: real, q: real, w: real)
    requires p > 0.0 && q > 0.0 && p * p == v && q * q == w
    ensures d / p == e / q <==> SameStanding(d, v, e, w)
  {
    EqualQuotients(d, p, e, q);
    QuotientSign(d, p);
    QuotientSign(e, q);
    ProductSign(d, q);
    ProductSign(e, p);
    SquareOfProduct(d, q, w);
    SquareOfProduct(e, p, v);
    if d >= 0.0 <==> e >= 0.0 {
      CrossSquares(d * q, e * p);
    }
  }

  /** Two lists have the same score exactly when their last values stand alike; the condition takes no root. */
  lemma ScoresAgreeIff(s: seq<real>, t: seq<real>, sqrt: real -> real)
    requires |s| >= 2 && |t| >= 2 && IsSqrt(sqrt)
    ensures ZScore(s, sqrt) == ZScore(t, sqrt) <==> SameStanding(Excess(s), Scale(s), Excess(t), Scale(t))
  {
    var p := RootOf(s, sqrt);
    var q := RootOf(t, sqrt);
    QuotientsAgreeIff(Excess(s), p, Scale(s), Excess(t), q, Scale(t));
  }

  /**
   * The code's alert for a family is the family's own alert at every threshold exactly when the last day stands
   * alike among all findings and among the family's, measured by rates alone; and all rates are the family's own
   * exactly when it drifts in the same share every day.
   */
  lemma AlertIsFamilyAlertIff(history: seq<seq<Finding>>, family: Family, sqrt: real -> real)
    requires |history| >= 2 && IsSqrt(sqrt)
    ensures var all, own := Rates(history), Rates(FamilyHistory(history, family));
            (forall t: real :: Alerts(all, t, sqrt) <==> Alerts(own, t, sqrt)) <==>
            SameStanding(Excess(all), Scale(all), Excess(own), Scale(own))
    ensures Rates(history) == Rates(FamilyHistory(history, family)) <==>
            forall i | 0 <= i < |history| :: SameShare(history[i], family)
  {
    var all, own := Rates(history), Rates(FamilyHistory(history, family));
    ScoresAgreeIff(all, own, sqrt);
    assert Alerts(all, ZScore(own, sqrt), sqrt) <==> ZScore(all, sqrt) > ZScore(own, sqrt);
    assert Alerts(own, ZScore(all, sqrt), sqrt) <==> ZScore(own, sqrt) > ZScore(all, sqrt);
    RatesAreFamilyRatesIff(history, family);
  }

  lemma RatesAreFamilyRatesIff(history: seq<seq<Finding>>, family: Family)
    ensures Rates(history) == Rates(FamilyHistory(history, family)) <==>
            forall i | 0 <= i < |history| :: SameShare(history[i], family)
  {
    var all, own := Rates(history), Rates(FamilyHistory(history, family));
    forall i | 0 <= i < |history| ensures all[i] == own[i] <==> SameShare(history[i], family) {
      RateIsFamilyRateIff(history[i], family);
    }
  }

  lemma QuietNeverAlerts(n: nat, threshold: real, sqrt: real -> real)
    requires n >= 2 && threshold >= 0.0 && IsSqrt(sqrt)
    ensures !Alerts(Zeros(n), threshold, sqrt)
  {
    ZeroSums(n, 0.0, n as real);
    assert Mean(Zeros(n)) == 0.0;
    assert Variance(Zeros(n)) == 0.0;
    assert sqrt(0.0) * sqrt(0.0) == 0.0;
  }

  /** The code alerts for a family none of whose findings ever drifted, as soon as another family's spike does. */
  lemma AnotherFamilyAlerts(n: nat, asked: Family, other: Family, threshold: real, sqrt: real -> real)
    requires asked != other && n >= 2 && threshold >= 0.0 && IsSqrt(sqrt)
    requires threshold * threshold * n as real < (n - 1) as real * (n - 1) as real
    ensures var history := Spike(n, Some(other));
            && (forall day, f | day in history && f in Of(day, asked) :: f.driftDelta == 0)
            && Alerts(Rates(history), threshold, sqrt)
            && !Alerts(Rates(FamilyHistory(history, asked)), threshold, sqrt)
  {
    var history := Spike(n, Some(other));
    SpikeAlertsIff(n, Some(other), threshold, sqrt);
    assert Of([Finding(Some(other), 1)], asked) == [] by {
      assert [Finding(Some(other), 1)][..0] == [];
    }
    assert forall day | day in history :: Of(day, asked) == [];
    assert Rates(FamilyHistory(history, asked)) == Zeros(n);
    QuietNeverAlerts(n, threshold, sqrt);
  }
}
