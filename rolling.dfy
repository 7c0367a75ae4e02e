/**
 * The per-page metrics of transform_data, computed over the views of one
 * (language, title_normalized) group in day order: the 7- and 28-row rolling
 * means, the percentage change from the previous row, and the 28-row z-score
 * called trend_score. Windows and "previous" count rows, not calendar days.
 * Views are integers, so every quantity except the square root of the
 * z-score is exact as a `real`.
 */
module RollingMetrics {
  const ShortWindow := 7
  const LongWindow := 28

  function Sum(s: seq<int>): int
  {
    if s == [] then 0 else s[0] + Sum(s[1..])
  }

  function Mean(s: seq<int>): real
    requires s != []
  {
    Sum(s) as real / |s| as real
  }

  function Minimum(s: seq<int>): (m: int)
    requires s != []
    ensures m in s && forall i :: 0 <= i < |s| ==> m <= s[i]
  {
    if |s| == 1 then s[0]
    else var m := Minimum(s[1..]); if s[0] <= m then s[0] else m
  }

  function Maximum(s: seq<int>): (m: int)
    requires s != []
    ensures m in s && forall i :: 0 <= i < |s| ==> s[i] <= m
  {
    if |s| == 1 then s[0]
    else var m := Maximum(s[1..]); if m <= s[0] then s[0] else m
  }

  lemma {:induction false} SumBounds(s: seq<int>, lo: int, hi: int)
    requires forall i :: 0 <= i < |s| ==> lo <= s[i] <= hi
    ensures |s| * lo <= Sum(s) <= |s| * hi
  {
    if s != [] {
      SumBounds(s[1..], lo, hi);
    }
  }

  /** A mean lies between the least and the greatest value it is taken over. */
  lemma MeanBounds(s: seq<int>)
    requires s != []
    ensures Minimum(s) as real <= Mean(s) <= Maximum(s) as real
  {
    SumBounds(s, Minimum(s), Maximum(s));
    QuotientBounds(Sum(s), |s|, Minimum(s), Maximum(s));
  }

  lemma QuotientBounds(x: int, n: int, lo: int, hi: int)
    requires n > 0 && n * lo <= x <= n * hi
    ensures lo as real <= x as real / n as real <= hi as real
  {
    var q := x as real / n as real;
    assert q * n as real == x as real;
    assert (n * lo) as real == n as real * lo as real;
    assert (n * hi) as real == n as real * hi as real;
  }

  /** The rows a window of n rows ending at row k covers. */
  function Window(views: seq<int>, k: int, n: int): (w: seq<int>)
    requires 0 <= k < |views| && n >= 1
    ensures |w| == if k + 1 < n then k + 1 else n
    ensures w[|w| - 1] == views[k]
    ensures forall i :: 0 <= i < |w| ==> w[i] == views[k + 1 - |w| + i]
  {
    views[if k + 1 < n then 0 else k + 1 - n..k + 1]
  }

  /** rolling(window=n, min_periods=1).mean() at row k. */
  function RollingMean(views: seq<int>, k: int, n: int): real
    requires 0 <= k < |views| && n >= 1
  {
    Mean(Window(views, k, n))
  }

  /** avg_views_7d and avg_views_28d lie between the least and the greatest
      views of the rows their window covers. */
  lemma RollingMeanBounds(views: seq<int>, k: int, n: int)
    requires 0 <= k < |views| && n >= 1
    ensures var w := Window(views, k, n);
      Minimum(w) as real <= RollingMean(views, k, n) <= Maximum(w) as real
  {
    MeanBounds(Window(views, k, n));
  }

  /** A window of one row is that row. */
  lemma FirstRowMean(views: seq<int>, n: int)
    requires views != [] && n >= 1
    ensures RollingMean(views, 0, n) == views[0] as real
  {
    var w := Window(views, 0, n);
    assert w == [views[0]];
    assert w[1..] == [];
    assert Sum(w) == views[0];
  }

  /** variations at row k: the change from the previous row of the group, in
      percent; 0 on the first row, where the previous value is missing, and
      when the previous value is 0, where the quotient is infinite or NaN. */
  function Variation(views: seq<int>, k: int): real
    requires 0 <= k < |views|
  {
    if k == 0 || views[k - 1] == 0 then 0.0
    else 100.0 * (views[k] - views[k - 1]) as real / views[k - 1] as real
  }

  /** The variation gives back the current views from the previous ones. */
  lemma VariationRecoversViews(views: seq<int>, k: int)
    requires 0 < k < |views| && views[k - 1] != 0
    ensures views[k - 1] as real * (1.0 + Variation(views, k) / 100.0) == views[k] as real
  {
    var p, v := views[k - 1] as real, views[k] as real;
    assert Variation(views, k) / 100.0 == (v - p) / p;
    assert p * ((v - p) / p) == v - p;
  }

  /** With positive previous views, the variation is positive exactly when the
      views grew and zero exactly when they stayed the same. */
  lemma VariationSign(views: seq<int>, k: int)
    requires 0 < k < |views| && views[k - 1] > 0
    ensures Variation(views, k) > 0.0 <==> views[k] > views[k - 1]
    ensures Variation(views, k) == 0.0 <==> views[k] == views[k - 1]
  {
    var p, d := views[k - 1] as real, (views[k] - views[k - 1]) as real;
    assert Variation(views, k) == 100.0 * d / p;
    if d > 0.0 {
      assert 100.0 * d / p > 0.0;
    } else if d < 0.0 {
      assert 100.0 * d / p < 0.0;
    }
  }

  /** n * (x - mean of w) with n = |w|: the distance of x from the mean of w,
      scaled by the window size so that it stays an integer. */
  function ScaledDeviation(w: seq<int>, x: int): int
  {
    |w| * x - Sum(w)
  }

  /** The sum over s of (n * s[i] - total)^2. With n = |w| and total = Sum(w)
      this is n^2 times the squared deviations of w from its mean. */
  function ScaledSquares(s: seq<int>, n: int, total: int): (r: int)
    ensures r >= 0
  {
    if s == [] then 0
    else (n * s[0] - total) * (n * s[0] - total) + ScaledSquares(s[1..], n, total)
  }

  /** The sample variance (ddof 1) of a window: rolling(...).std() squared. */
  function Variance(w: seq<int>): real
    requires |w| >= 2
  {
    ScaledSquares(w, |w|, Sum(w)) as real / (|w| * |w| * (|w| - 1)) as real
  }

  /** The sum over s of (s[i] - m)^2. */
  function SquaredDeviations(s: seq<int>, m: real): (r: real)
    ensures r >= 0.0
  {
    if s == [] then 0.0 else (s[0] as real - m) * (s[0] as real - m) + SquaredDeviations(s[1..], m)
  }

  /** Each scaled square is n^2 times the squared deviation from total / n. */
  lemma {:induction false} ScaledSquaresMeaning(s: seq<int>, n: int, total: int)
    requires n > 0
    ensures ScaledSquares(s, n, total) as real == (n * n) as real * SquaredDeviations(s, total as real / n as real)
  {
    if s != [] {
      var m := total as real / n as real;
      var t, rest := (n * s[0] - total) * (n * s[0] - total), ScaledSquares(s[1..], n, total);
      ScaledSquaresMeaning(s[1..], n, total);
      ScaledSquareMeaning(s[0], n, total);
      Distribute((n * n) as real, t, rest, (s[0] as real - m) * (s[0] as real - m), SquaredDeviations(s[1..], m));
    }
  }

  /** One scaled square: (n * x - total)^2 is n^2 times (x - total / n)^2. */
  lemma ScaledSquareMeaning(x: int, n: int, total: int)
    requires n > 0
    ensures ((n * x - total) * (n * x - total)) as real
      == (n * n) as real * ((x as real - total as real / n as real) * (x as real - total as real / n as real))
  {
    var k := n as real;
    var m := total as real / k;
    var d := x as real - m;
    assert k * m == total as real;
    var e := (n * x - total) as real;
    assert e == k * d;
    assert ((n * x - total) * (n * x - total)) as real == e * e;
    assert (n * n) as real == k * k;
    assert e * e == (k * k) * (d * d);
  }

  lemma Distribute(k: real, a: int, b: int, x: real, y: real)
    requires a as real == k * x && b as real == k * y
    ensures (a + b) as real == k * (x + y)
  {
  }

  /** Variance is the sample variance: the squared deviations from the mean,
      summed and divided by |w| - 1. */
  lemma VarianceIsSampleVariance(w: seq<int>)
    requires |w| >= 2
    ensures Variance(w) == SquaredDeviations(w, Mean(w)) / (|w| - 1) as real
  {
    var n := |w|;
    ScaledSquaresMeaning(w, n, Sum(w));
    DenominatorPositive(n);
    CancelSquare(ScaledSquares(w, n, Sum(w)) as real, SquaredDeviations(w, Mean(w)), n);
  }

  /** (n^2 q) / (n^2 (n - 1)) is q / (n - 1). */
  lemma CancelSquare(a: real, q: real, n: int)
    requires n >= 2 && a == (n * n) as real * q
    ensures a / (n * n * (n - 1)) as real == q / (n - 1) as real
  {
    var k := (n * n) as real;
    var l := (n - 1) as real;
    assert (n * n * (n - 1)) as real == k * l;
    assert k > 0.0 && l > 0.0;
    assert (k * q) / (k * l) == q / l;
  }

  ghost predicate Constant(s: seq<int>)
  {
    forall i :: 0 <= i < |s| ==> s[i] == s[0]
  }

  /** The scaled deviation has the sign of x - mean. */
  lemma ScaledDeviationMeaning(w: seq<int>, x: int)
    requires w != []
    ensures ScaledDeviation(w, x) as real == |w| as real * (x as real - Mean(w))
    ensures IntSign(ScaledDeviation(w, x)) == Sign(x as real - Mean(w))
  {
    var n := |w| as real;
    assert Mean(w) * n == Sum(w) as real;
    assert (|w| * x) as real == n * x as real;
    var d := x as real - Mean(w);
    if d > 0.0 {
      assert n * d > 0.0;
    } else if d < 0.0 {
      assert n * d < 0.0;
    }
  }

  lemma {:induction false} ScaledSquaresZero(s: seq<int>, n: int, total: int)
    ensures ScaledSquares(s, n, total) == 0 <==> forall i :: 0 <= i < |s| ==> n * s[i] == total
  {
    if s != [] {
      var t := s[1..];
      ScaledSquaresZero(t, n, total);
      var d := n * s[0] - total;
      if d != 0 {
        assert d * d > 0;
      }
      if ScaledSquares(s, n, total) == 0 {
        forall i | 0 <= i < |s| ensures n * s[i] == total {
          if i > 0 { assert s[i] == t[i - 1]; }
        }
      }
    }
  }

  lemma {:induction false} SumOfConstant(s: seq<int>, c: int)
    requires forall i :: 0 <= i < |s| ==> s[i] == c
    ensures Sum(s) == |s| * c
  {
    if s != [] {
      SumOfConstant(s[1..], c);
    }
  }

  lemma CancelFactor(n: int, a: int, b: int)
    requires n > 0 && n * a == n * b
    ensures a == b
  {
  }

  /** The scaled squares of a window vanish exactly when the window is constant. */
  lemma ScaledSquaresZeroIffConstant(w: seq<int>)
    requires w != []
    ensures ScaledSquares(w, |w|, Sum(w)) == 0 <==> Constant(w)
  {
    var n := |w|;
    ScaledSquaresZero(w, n, Sum(w));
    if Constant(w) {
      SumOfConstant(w, w[0]);
    } else {
      var i :| 0 <= i < n && w[i] != w[0];
      if n * w[i] == Sum(w) && n * w[0] == Sum(w) {
        CancelFactor(n, w[i], w[0]);
      }
    }
  }

  /** The variance is zero exactly when every value in the window is the same. */
  lemma VarianceZeroIffConstant(w: seq<int>)
    requires |w| >= 2
    ensures Variance(w) == 0.0 <==> Constant(w)
  {
    ScaledSquaresZeroIffConstant(w);
    var n := |w|;
    var q, m := ScaledSquares(w, n, Sum(w)), n * n * (n - 1);
    DenominatorPositive(n);
    PositiveQuotient(q, m);
    assert Variance(w) == q as real / m as real;
  }

  lemma DenominatorPositive(n: int)
    requires n >= 2
    ensures n * n * (n - 1) > 0
  {
    assert n * n > 0;
  }

  lemma PositiveQuotient(a: int, b: int)
    requires a >= 0 && b > 0
    ensures a as real / b as real == 0.0 <==> a == 0
  {
    if a > 0 {
      assert a as real / b as real > 0.0;
    }
  }

  /**
   * trend_score as an exact value: sign * sqrt(square). The root itself is
   * left symbolic; a zero score has sign 0 and square 0.
   */
  datatype TrendScore = TrendScore(sign: int, square: real)

  const ZeroScore := TrendScore(0, 0.0)

  function Sign(x: real): int
  {
    if x > 0.0 then 1 else if x < 0.0 then -1 else 0
  }

  function IntSign(x: int): int
  {
    if x > 0 then 1 else if x < 0 then -1 else 0
  }

  /**
   * (views - avg_views_28d) / rolling_std_28d at row k, 0 when the standard
   * deviation is missing (a single row) or zero. With n rows in the window,
   * d = n * (x - mean) and q = n^2 * (sum of squared deviations), the square
   * of the score is (d / n)^2 / (q / (n^2 (n - 1))) = d^2 (n - 1) / q.
   */
  function Trend(views: seq<int>, k: int): TrendScore
    requires 0 <= k < |views|
  {
    var w := Window(views, k, LongWindow);
    var q := ScaledSquares(w, |w|, Sum(w));
    if |w| < 2 || q == 0 then ZeroScore
    else
      var d := ScaledDeviation(w, views[k]);
      TrendScore(IntSign(d), (d * d * (|w| - 1)) as real / q as real)
  }

  /** The score is zero on a group's first row and whenever the 28-row window
      holds one value repeated. */
  lemma TrendOfConstant(views: seq<int>, k: int)
    requires 0 <= k < |views|
    requires k == 0 || Constant(Window(views, k, LongWindow))
    ensures Trend(views, k) == ZeroScore
  {
    var w := Window(views, k, LongWindow);
    if |w| >= 2 {
      ScaledSquaresZeroIffConstant(w);
    }
  }

  /** Otherwise the sign of the score is the sign of views minus
      avg_views_28d, and its square times the variance is the square of that
      difference (both sides written with the difference scaled by the window
      size). */
  lemma TrendOfVarying(views: seq<int>, k: int)
    requires 0 < k < |views|
    requires !Constant(Window(views, k, LongWindow))
    ensures Trend(views, k).sign == Sign(views[k] as real - RollingMean(views, k, LongWindow))
    ensures var w := Window(views, k, LongWindow);
      var d := ScaledDeviation(w, views[k]);
      Trend(views, k).square * Variance(w) == (d * d) as real / (|w| * |w|) as real
  {
    TrendSignOfVarying(views, k);
    TrendSquareOfVarying(views, k);
  }

  lemma TrendSignOfVarying(views: seq<int>, k: int)
    requires 0 < k < |views|
    requires !Constant(Window(views, k, LongWindow))
    ensures Trend(views, k).sign == Sign(views[k] as real - RollingMean(views, k, LongWindow))
  {
    var w := Window(views, k, LongWindow);
    ScaledDeviationMeaning(w, views[k]);
    ScaledSquaresZeroIffConstant(w);
    TrendFormula(views, k);
  }

  lemma TrendSquareOfVarying(views: seq<int>, k: int)
    requires 0 < k < |views|
    requires !Constant(Window(views, k, LongWindow))
    ensures var w := Window(views, k, LongWindow);
      var d := ScaledDeviation(w, views[k]);
      Trend(views, k).square * Variance(w) == (d * d) as real / (|w| * |w|) as real
  {
    var w := Window(views, k, LongWindow);
    ScaledSquaresZeroIffConstant(w);
    var n, q, d := |w|, ScaledSquares(w, |w|, Sum(w)), ScaledDeviation(w, views[k]);
    TrendFormula(views, k);
    assert Trend(views, k).square == (d * d * (n - 1)) as real / q as real;
    QuotientProduct(d * d, n, q);
  }

  lemma TrendFormula(views: seq<int>, k: int)
    requires 0 <= k < |views|
    requires var w := Window(views, k, LongWindow); |w| >= 2 && ScaledSquares(w, |w|, Sum(w)) != 0
    ensures var w := Window(views, k, LongWindow);
      var n, d := |w|, ScaledDeviation(w, views[k]);
      Trend(views, k) == TrendScore(IntSign(d), (d * d * (n - 1)) as real / ScaledSquares(w, n, Sum(w)) as real)
  {
  }

  /** (d2 (n - 1) / q) * (q / (n^2 (n - 1))) = d2 / n^2, the step from the
      square of the score to the square of the deviation. */
  lemma QuotientProduct(d2: int, n: int, q: int)
    requires n >= 2 && q > 0
    ensures (d2 * (n - 1)) as real / q as real * (q as real / (n * n * (n - 1)) as real)
      == d2 as real / (n * n) as real
  {
    var a, b, c := (n - 1) as real, q as real, (n * n) as real;
    assert (d2 * (n - 1)) as real == d2 as real * a;
    assert (n * n * (n - 1)) as real == c * a;
    assert c > 0.0 && a > 0.0;
    assert d2 as real * a / b * (b / (c * a)) == d2 as real / c;
  }

  /** The score is zero exactly on the first row, on a constant window, and
      when the row equals its 28-row mean. */
  lemma TrendZeroIff(views: seq<int>, k: int)
    requires 0 <= k < |views|
    ensures Trend(views, k).sign == 0 <==>
      k == 0 || Constant(Window(views, k, LongWindow)) || views[k] as real == RollingMean(views, k, LongWindow)
  {
    if k == 0 || Constant(Window(views, k, LongWindow)) {
      TrendOfConstant(views, k);
    } else {
      TrendOfVarying(views, k);
    }
  }

  /** Constant views give every row the score 0. */
  lemma ConstantViewsHaveNoTrend(views: seq<int>, k: int)
    requires Constant(views) && 0 <= k < |views|
    ensures Trend(views, k) == ZeroScore
  {
    var w := Window(views, k, LongWindow);
    assert Constant(w) by {
      forall i | 0 <= i < |w| ensures w[i] == w[0] {
        assert w[i] == views[k + 1 - |w| + i];
      }
    }
    TrendOfConstant(views, k);
  }

  /** Views 100, 150, 110, 220 have 7-row means 100, 125, 120, 145. */
  lemma ShortMeansExample(views: seq<int>)
    requires views == [100, 150, 110, 220]
    ensures RollingMean(views, 0, ShortWindow) == 100.0
    ensures RollingMean(views, 1, ShortWindow) == 125.0
    ensures RollingMean(views, 2, ShortWindow) == 120.0
    ensures RollingMean(views, 3, ShortWindow) == 145.0
  {
    assert Window(views, 0, ShortWindow) == [100];
    assert Sum([100]) == 100;
    assert Window(views, 1, ShortWindow) == [100, 150];
    assert Sum([100, 150]) == 250;
    assert Window(views, 2, ShortWindow) == [100, 150, 110];
    assert Sum([100, 150, 110]) == 360;
    assert Window(views, 3, ShortWindow) == [100, 150, 110, 220];
    assert Sum([100, 150, 110, 220]) == 580;
  }

  /** The same views have variations 0, 50, -80/3 (about -26.67) and 100. */
  lemma VariationsExample(views: seq<int>)
    requires views == [100, 150, 110, 220]
    ensures Variation(views, 0) == 0.0
    ensures Variation(views, 1) == 50.0
    ensures Variation(views, 2) == -80.0 / 3.0
    ensures Variation(views, 3) == 100.0
  {
  }

  /** A spike to 500 after 100, 100 scores sqrt(4/3), about 1.1547. */
  lemma SpikeExample(views: seq<int>)
    requires views == [100, 100, 500]
    ensures Trend(views, 2) == TrendScore(1, 4.0 / 3.0)
  {
    var w := Window(views, 2, LongWindow);
    assert w == [100, 100, 500];
    assert Sum([100, 100, 500]) == 700;
    assert ScaledSquares([500], 3, 700) == 640000;
    assert ScaledSquares([100, 500], 3, 700) == 800000;
    assert ScaledSquares(w, 3, 700) == 960000;
    assert ScaledDeviation(w, 500) == 800;
  }
}
