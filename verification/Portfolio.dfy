/**
 The arithmetic of the portfolio agents, over exact reals: the weights, the covariance
 double loop and the ratios of examples/portfolio/agents/risk_agent.py, and the one-pass
 drawdown of metrics_agent.py. A square root appears through its square.
 */
module Portfolio {
  import opened Vectors

  const TRADING_DAYS: real := 252.0

  // ------------------------------------------------------------- weights

  /** `_normalize_weights`, on the raw holdings of the valid tickers. */
  function NormalizedWeights(raw: Vec): Vec
    requires raw != []
  {
    if Sum(raw) <= 0.0 then Constant(|raw|, 1.0 / |raw| as real)
    else seq(|raw|, i requires 0 <= i < |raw| => raw[i] / Sum(raw))
  }

  function Scaled(x: Vec, c: real): Vec {
    seq(|x|, i requires 0 <= i < |x| => x[i] * c)
  }

  lemma SumOfScaled(x: Vec, c: real)
    ensures Sum(Scaled(x, c)) == c * Sum(x)
  {
    DotWithConstant(x, c);
    var l, r := Products(x, Constant(|x|, c)), Scaled(x, c);
    forall i | 0 <= i < |x| ensures l[i] == r[i] {}
    assert l == r;
  }

  lemma Quotient(a: real, b: real)
    requires b > 0.0
    ensures a / b == a * (1.0 / b)
    ensures a >= 0.0 ==> a / b >= 0.0
    ensures a > 0.0 ==> a / b > 0.0
    ensures b * (1.0 / b) == 1.0
  {}

  lemma WeightsSumToOne(raw: Vec)
    requires raw != []
    ensures |NormalizedWeights(raw)| == |raw| && Sum(NormalizedWeights(raw)) == 1.0
    ensures (forall i :: 0 <= i < |raw| ==> raw[i] >= 0.0) ==>
              forall i :: 0 <= i < |raw| ==> NormalizedWeights(raw)[i] >= 0.0
  {
    var n, t, w := |raw|, Sum(raw), NormalizedWeights(raw);
    Quotient(1.0, n as real);
    if t <= 0.0 {
      SumOfConstant(n, 1.0 / n as real);
    } else {
      var scaled := Scaled(raw, 1.0 / t);
      forall i | 0 <= i < n ensures w[i] == scaled[i] && (raw[i] >= 0.0 ==> w[i] >= 0.0) {
        Quotient(raw[i], t);
      }
      assert w == scaled;
      SumOfScaled(raw, 1.0 / t);
      Quotient(t, t);
    }
  }

  /** Each weight is the holding's share of the total; without a positive total all are alike. */
  lemma WeightsAreShares(raw: Vec, i: nat)
    requires i < |raw|
    ensures Sum(raw) > 0.0 ==> NormalizedWeights(raw)[i] * Sum(raw) == raw[i]
    ensures Sum(raw) <= 0.0 ==> NormalizedWeights(raw)[i] * |raw| as real == 1.0
  {
    hide Sum;
    var w, n, t := NormalizedWeights(raw)[i], |raw| as real, Sum(raw);
    if t > 0.0 {
      assert w == raw[i] / t;
      hide NormalizedWeights;
      TimesQuotient(raw[i], t);
    } else {
      assert w == 1.0 / n;
      hide NormalizedWeights;
      TimesQuotient(1.0, n);
    }
  }

  lemma TimesQuotient(a: real, b: real)
    requires b > 0.0
    ensures a / b * b == a
  {}

  /** The Herfindahl index `sum(w**2)`. */
  function Concentration(w: Vec): real {
    Dot(w, w)
  }

  /** Of n weights that sum to one, the even ones, and only they, are the least concentrated. */
  lemma EvenIsLeastConcentrated(w: Vec, m: real)
    requires w != [] && Sum(w) == 1.0 && m == 1.0 / |w| as real
    ensures Concentration(w) >= m
    ensures Concentration(w) == m <==> w == Constant(|w|, m)
  {
    hide Dot, Sum, AddScaled, Constant;
    DistanceFromEven(w, m);
    LengthIsPositive(AddScaled(w, -1.0, Constant(|w|, m)));
    OffZeroIsEven(w, m);
    WithEven(w, m);
  }

  /** Non-negative weights that sum to one are at most fully concentrated. */
  lemma ConcentrationAtMostOne(w: Vec)
    requires Sum(w) == 1.0 && forall i :: 0 <= i < |w| ==> w[i] >= 0.0
    ensures Concentration(w) <= 1.0
  {
    PartsAtMost(w, 1.0);
  }

  lemma OffZeroIsEven(w: Vec, m: real)
    ensures AddScaled(w, -1.0, Constant(|w|, m)) == Constant(|w|, 0.0) ==> w == Constant(|w|, m)
  {
    var off := AddScaled(w, -1.0, Constant(|w|, m));
    if off == Constant(|w|, 0.0) {
      forall i | 0 <= i < |w| ensures w[i] == m {
        assert off[i] == 0.0;
      }
    }
  }

  lemma DistanceFromEven(w: Vec, m: real)
    requires w != [] && Sum(w) == 1.0 && m == 1.0 / |w| as real
    ensures var off := AddScaled(w, -1.0, Constant(|w|, m)); Dot(off, off) == Dot(w, w) - m
  {
    hide Dot, Sum, AddScaled, Constant;
    var even := Constant(|w|, m);
    WithEven(w, m);
    EvenWithEven(|w|, m);
    LengthOfSum(w, -1.0, even);
    EvenScalars(m, Dot(w, w));
  }

  lemma WithEven(w: Vec, m: real)
    requires Sum(w) == 1.0
    ensures Dot(w, Constant(|w|, m)) == m
  {
    hide Dot, Sum, Constant;
    DotWithConstant(w, m);
  }

  lemma EvenWithEven(n: nat, m: real)
    requires n > 0 && m == 1.0 / n as real
    ensures Dot(Constant(n, m), Constant(n, m)) == m
  {
    hide Dot, Sum, Constant;
    DotWithConstant(Constant(n, m), m);
    SumOfConstant(n, m);
    Quotient(1.0, n as real);
    assert n as real * m == 1.0;
  }

  lemma EvenScalars(m: real, ww: real)
    ensures (ww + -1.0 * m) + -1.0 * (m + -1.0 * m) == ww - m
  {}

  /** Non-negative parts of a whole of at most s have squares that sum to at most s * s. */
  lemma {:induction false} PartsAtMost(w: Vec, s: real)
    requires forall i :: 0 <= i < |w| ==> w[i] >= 0.0
    requires Sum(w) <= s
    ensures 0.0 <= Sum(w)
    ensures Dot(w, w) <= s * s
    decreases |w|
  {
    if w != [] {
      var n := |w| - 1;
      var last := w[n];
      PartsAtMost(w[..n], s - last);
      DotSplits(w, w);
      WholeAndPart(s, last);
    } else {
      SquareIsPositive(s);
    }
  }

  lemma WholeAndPart(s: real, last: real)
    requires 0.0 <= last <= s
    ensures (s - last) * (s - last) + last * last <= s * s
  {
    var rest := s - last;
    assert last * rest >= 0.0;
    assert s * s == rest * rest + last * rest + last * rest + last * last;
  }

  // ---------------------------------------------------------- covariance

  function Mean(x: Vec): real
    requires x != []
  {
    Sum(x) / |x| as real
  }

  function Deviations(x: Vec): Vec
    requires x != []
  {
    AddScaled(x, -Mean(x), Constant(|x|, 1.0))
  }

  /** The average product of two rows of n numbers. */
  function Average(x: Vec, y: Vec, n: nat): real
    requires |x| == |y| == n && n > 0
  {
    Dot(x, y) / n as real
  }

  function Covariance(x: Vec, y: Vec): real
    requires |x| == |y| && x != []
  {
    Average(Deviations(x), Deviations(y), |x|)
  }

  /** What is left after the mean is taken off sums to nothing. */
  lemma DeviationsSumToZero(x: Vec)
    requires x != []
    ensures Sum(Deviations(x)) == 0.0
  {
    var n, m := |x| as real, Mean(x);
    SumIsLinear(x, -m, Constant(|x|, 1.0));
    SumOfConstant(|x|, 1.0);
    assert m * n == Sum(x);
  }

  lemma DotOfDeviations(x: Vec, y: Vec)
    requires |x| == |y| && x != []
    ensures Dot(Deviations(x), Deviations(y)) == Dot(x, y) - Mean(x) * Sum(y)
  {
    hide Sum, Products, AddScaled, Mean;
    var mx, my, ones := Mean(x), Mean(y), Constant(|x|, 1.0);
    var dx := Deviations(x);
    assert Dot(dx, Deviations(y)) == Dot(dx, y) by {
      hide Dot;
      DeviationsSumToZero(x);
      WithSum(y, -my, ones, dx);
      DotWithConstant(dx, 1.0);
      assert Dot(dx, Deviations(y)) == Dot(dx, y) + -my * Dot(dx, ones);
      assert -my * 0.0 == 0.0;
    }
    assert Dot(dx, y) == Dot(x, y) - mx * Sum(y) by {
      hide Dot;
      DotIsSymmetric(dx, y);
      WithSum(x, -mx, ones, y);
      DotWithConstant(y, 1.0);
      DotIsSymmetric(x, y);
      assert -mx * (1.0 * Sum(y)) == -(mx * Sum(y));
    }
  }

  /** The covariance from plain sums: the average product less the product of the averages. */
  lemma CovarianceOfSums(x: Vec, y: Vec)
    requires |x| == |y| && x != []
    ensures var n := |x| as real; n * n * Covariance(x, y) == n * Dot(x, y) - Sum(x) * Sum(y)
  {
    hide Sum, Products, Deviations, Dot;
    DotOfDeviations(x, y);
    SumsFromMeans(|x| as real, Mean(x), Sum(x), Sum(y), Dot(x, y), Covariance(x, y));
  }

  lemma SumsFromMeans(n: real, mx: real, sx: real, sy: real, xy: real, cov: real)
    requires n > 0.0 && mx == sx / n && cov == (xy - mx * sy) / n
    ensures n * n * cov == n * xy - sx * sy
  {
    assert n * cov == xy - mx * sy && n * mx == sx;
    assert n * (n * cov) == n * xy - n * mx * sy;
  }

  function AllDeviations(table: seq<Vec>, n: nat): (rows: seq<Vec>)
    requires n > 0 && IsTable(table, n)
    ensures |rows| == |table| && forall i :: 0 <= i < |rows| ==> |rows[i]| == n && rows[i] == Deviations(table[i])
  {
    seq(|table|, i requires 0 <= i < |table| => Deviations(table[i]))
  }

  /** The portfolio's return of each day: the weighted sum of its tickers' returns. */
  function PortfolioReturns(w: Vec, table: seq<Vec>, n: nat): Vec
    requires |w| == |table| && IsTable(table, n)
  {
    Combine(w, table, n)
  }

  lemma MeanIsLinear(x: Vec, c: real, d: Vec)
    requires |x| == |d| && x != []
    ensures Mean(AddScaled(x, c, d)) == Mean(x) + c * Mean(d)
  {
    SumIsLinear(x, c, d);
    var n := |x| as real;
    assert (Sum(x) + c * Sum(d)) / n == Sum(x) / n + c * (Sum(d) / n);
  }

  lemma DeviationsAreLinear(x: Vec, c: real, d: Vec)
    requires |x| == |d| && x != []
    ensures Deviations(AddScaled(x, c, d)) == AddScaled(Deviations(x), c, Deviations(d))
  {
    hide Mean;
    MeanIsLinear(x, c, d);
    var l, r := Deviations(AddScaled(x, c, d)), AddScaled(Deviations(x), c, Deviations(d));
    forall i | 0 <= i < |x| ensures l[i] == r[i] {
      DeviateScalars(x[i], c, d[i], Mean(x), Mean(d));
    }
    assert l == r;
  }

  lemma DeviateScalars(x: real, c: real, d: real, mx: real, md: real)
    ensures (x + c * d) + -(mx + c * md) * 1.0 == (x + -mx * 1.0) + c * (d + -md * 1.0)
  {}

  lemma {:induction false} DeviationsOfPortfolio(w: Vec, table: seq<Vec>, n: nat)
    requires n > 0 && |w| == |table| && IsTable(table, n)
    ensures Deviations(PortfolioReturns(w, table, n)) == Combine(w, AllDeviations(table, n), n)
  {
    if w == [] {
      SumOfConstant(n, 0.0);
      assert Mean(Constant(n, 0.0)) == 0.0;
      assert Deviations(Constant(n, 0.0)) == Constant(n, 0.0);
    } else {
      var k := |w| - 1;
      DeviationsOfPortfolio(w[..k], table[..k], n);
      assert AllDeviations(table, n)[..k] == AllDeviations(table[..k], n);
      DeviationsAreLinear(Combine(w[..k], table[..k], n), w[k], table[k]);
    }
  }

  // ------------------------------------------------------- the double loop

  lemma DivideSum(a: real, c: real, b: real, n: real)
    requires n > 0.0
    ensures (a + c * b) / n == a / n + c * (b / n)
  {}

  lemma AverageWithSum(x: Vec, c: real, d: Vec, y: Vec, n: nat)
    requires |x| == |d| == |y| == n && n > 0
    ensures Average(y, AddScaled(x, c, d), n) == Average(y, x, n) + c * Average(y, d, n)
  {
    hide Sum, Products;
    WithSum(x, c, d, y);
    DivideSum(Dot(y, x), c, Dot(y, d), n as real);
  }

  lemma AverageIsSymmetric(x: Vec, y: Vec, n: nat)
    requires |x| == |y| == n && n > 0
    ensures Average(x, y, n) == Average(y, x, n)
  {
    DotIsSymmetric(x, y);
  }

  lemma AverageWithNothing(y: Vec, n: nat)
    requires |y| == n && n > 0
    ensures Average(y, Constant(n, 0.0), n) == 0.0
  {
    DotWithConstant(y, 0.0);
    hide Sum;
    var total := Sum(y);
    assert 0.0 * total == 0.0;
  }

  lemma OneMoreRow(w: Vec, rows: seq<Vec>, n: nat, j: nat, y: Vec)
    requires n > 0 && |w| == |rows| && IsTable(rows, n) && |y| == n && j < |w|
    ensures Average(y, Combine(w[..j + 1], rows[..j + 1], n), n) ==
            Average(y, Combine(w[..j], rows[..j], n), n) + w[j] * Average(y, rows[j], n)
  {
    hide Average, AddScaled;
    assert w[..j + 1][..j] == w[..j] && rows[..j + 1][..j] == rows[..j];
    AverageWithSum(Combine(w[..j], rows[..j], n), w[j], rows[j], y, n);
  }

  lemma AddProduct(sum: real, a: real, b: real, known: real, product: real)
    ensures (sum + a * known) + a * b * product == sum + a * (known + b * product)
  {}

  /** One turn of the outer loop. */
  method AddRowOfForm(w: Vec, rows: seq<Vec>, n: nat, i: nat, before: real) returns (dailyVar: real)
    requires n > 0 && |w| == |rows| && IsTable(rows, n) && i < |w|
    ensures dailyVar == before + w[i] * Average(rows[i], Combine(w, rows, n), n)
  {
    hide Average, Combine;
    dailyVar := before;
    ghost var known := 0.0;
    NothingCombined(w, rows, n);
    AverageWithNothing(rows[i], n);
    for j := 0 to |w|
      invariant known == Average(rows[i], Combine(w[..j], rows[..j], n), n)
      invariant dailyVar == before + w[i] * known
    {
      var cov := Average(rows[i], rows[j], n);
      OneMoreRow(w, rows, n, j, rows[i]);
      AddProduct(before, w[i], w[j], known, cov);
      dailyVar := dailyVar + w[i] * w[j] * cov;
      known := known + w[j] * cov;
    }
    assert w[..|w|] == w && rows[..|w|] == rows;
  }

  lemma NothingCombined(w: Vec, rows: seq<Vec>, n: nat)
    requires |w| == |rows| && IsTable(rows, n)
    ensures Combine(w[..0], rows[..0], n) == Constant(n, 0.0)
  {}

  /** The covariance double loop: it adds up to the variance of the portfolio's daily returns. */
  method DailyVariance(w: Vec, table: seq<Vec>, n: nat) returns (dailyVar: real)
    requires n > 0 && |w| == |table| && IsTable(table, n)
    ensures dailyVar == Covariance(PortfolioReturns(w, table, n), PortfolioReturns(w, table, n)) >= 0.0
  {
    var rows := AllDeviations(table, n);
    DeviationsOfPortfolio(w, table, n);
    dailyVar := FormOver(w, rows, n);
  }

  method FormOver(w: Vec, rows: seq<Vec>, n: nat) returns (dailyVar: real)
    requires n > 0 && |w| == |rows| && IsTable(rows, n)
    ensures dailyVar == Average(Combine(w, rows, n), Combine(w, rows, n), n) >= 0.0
  {
    hide Average, Combine;
    dailyVar := 0.0;
    ghost var whole := Combine(w, rows, n);
    NothingCombined(w, rows, n);
    AverageWithNothing(whole, n);
    for i := 0 to |w|
      invariant dailyVar == Average(whole, Combine(w[..i], rows[..i], n), n)
    {
      OneMoreRow(w, rows, n, i, whole);
      AverageIsSymmetric(whole, rows[i], n);
      dailyVar := AddRowOfForm(w, rows, n, i, dailyVar);
    }
    assert w[..|w|] == w && rows[..|w|] == rows;
    AverageIsPositive(whole, n);
  }

  lemma AverageIsPositive(x: Vec, n: nat)
    requires |x| == n && n > 0
    ensures Average(x, x, n) >= 0.0
  {
    hide Sum, Products;
    LengthIsPositive(x);
    Quotient(Dot(x, x), n as real);
  }

  // ------------------------------------------------------ the volatility

  ghost predicate IsShortest(series: seq<Vec>, n: nat) {
    && (forall i :: 0 <= i < |series| ==> n <= |series[i]|)
    && (if series == [] then n == 0 else exists i :: 0 <= i < |series| && |series[i]| == n)
  }

  method ShortestLength(series: seq<Vec>) returns (n: nat)
    ensures IsShortest(series, n)
  {
    if series == [] {
      return 0;
    }
    n := |series[0]|;
    for i := 1 to |series|
      invariant forall k :: 0 <= k < i ==> n <= |series[k]|
      invariant exists k :: 0 <= k < i && |series[k]| == n
    {
      if |series[i]| < n {
        n := |series[i]|;
      }
    }
  }

  /** The last n returns of every ticker. */
  function Aligned(series: seq<Vec>, n: nat): (table: seq<Vec>)
    requires forall i :: 0 <= i < |series| ==> n <= |series[i]|
    ensures |table| == |series| && IsTable(table, n)
  {
    seq(|series|, i requires 0 <= i < |series| => series[i][|series[i]| - n..])
  }

  /** The histories with earlier returns put before them. */
  function WithOlder(older: seq<Vec>, series: seq<Vec>): (r: seq<Vec>)
    requires |older| == |series|
    ensures |r| == |series| && forall i :: 0 <= i < |series| ==> r[i] == older[i] + series[i]
  {
    seq(|series|, i requires 0 <= i < |series| => older[i] + series[i])
  }

  /** Only the latest returns count: earlier ones change nothing, and histories of the length are taken whole. */
  lemma AlignedIsLatest(older: seq<Vec>, series: seq<Vec>, n: nat)
    requires |older| == |series| && forall i :: 0 <= i < |series| ==> n <= |series[i]|
    ensures Aligned(WithOlder(older, series), n) == Aligned(series, n)
    ensures (forall i :: 0 <= i < |series| ==> |series[i]| == n) ==> Aligned(series, n) == series
  {
    forall i | 0 <= i < |series| ensures Aligned(WithOlder(older, series), n)[i] == Aligned(series, n)[i] {
      var all := older[i] + series[i];
      assert all[|all| - n..] == series[i][|series[i]| - n..];
    }
  }

  /** What is asked of `math.sqrt`. */
  ghost predicate IsRoot(root: real -> real) {
    forall x :: x >= 0.0 ==> root(x) >= 0.0 && root(x) * root(x) == x
  }

  /** The annualised deviation of some daily returns. */
  function Volatility(root: real -> real, daily: Vec): real
    requires daily != []
  {
    root(Covariance(daily, daily) * TRADING_DAYS)
  }

  /**
   `_portfolio_volatility`: over the shortest common window, the volatility of the portfolio's
   own returns; under two days, the average. The clamp at zero never changes anything.
   */
  method PortfolioVolatility(root: real -> real, w: Vec, volatilities: Vec, series: seq<Vec>)
    returns (v: real, n: nat, clamped: bool)
    requires |w| == |volatilities| == |series|
    ensures IsShortest(series, n) && !clamped
    ensures n < 2 ==> v == Dot(w, volatilities)
    ensures n >= 2 ==> v == Volatility(root, PortfolioReturns(w, Aligned(series, n), n))
  {
    clamped := false;
    n := ShortestLength(series);
    if n < 2 {
      v := Dot(w, volatilities);
      return;
    }
    var dailyVar := DailyVariance(w, Aligned(series, n), n);
    clamped := dailyVar < 0.0;
    v := root((if clamped then 0.0 else dailyVar) * TRADING_DAYS);
  }

  // ------------------------------------------------------------ drawdown

  ghost predicate Positive(closes: Vec) {
    forall i :: 0 <= i < |closes| ==> closes[i] > 0.0
  }

  /** The highest of the first k prices. */
  ghost predicate IsPeak(closes: Vec, k: nat, peak: real)
    requires k <= |closes|
  {
    (forall i :: 0 <= i < k ==> closes[i] <= peak) && exists i :: 0 <= i < k && closes[i] == peak
  }

  /** The fall from day i to day j, at or after it. */
  function Fall(closes: Vec, i: nat, j: nat): real
    requires i <= j < |closes| && closes[i] != 0.0
  {
    closes[j] / closes[i] - 1.0
  }

  /** The lowest fall between any two of the first k days. */
  ghost predicate IsWorst(closes: Vec, k: nat, worst: real)
    requires k <= |closes| && Positive(closes)
  {
    && (forall i, j :: 0 <= i <= j < k ==> worst <= Fall(closes, i, j))
    && exists i, j :: 0 <= i <= j < k && worst == Fall(closes, i, j)
  }

  lemma HigherFallsFurther(price: real, low: real, high: real)
    requires 0.0 < low <= high && price > 0.0
    ensures price / high <= price / low
    ensures price / high > 0.0
  {
    var a, b := price / high, price / low;
    Quotient(price, high);
    assert a * high == price && b * low == price;
    Scale(a, low, high);
    Scale(low, a, b);
  }

  lemma SelfRatio(x: real)
    requires x > 0.0
    ensures x / x == 1.0
  {}

  /** The fall from the peak to the next day is the worst that ends on that day. */
  lemma FallFromPeak(closes: Vec, k: nat, peak: real)
    requires k < |closes| && Positive(closes) && IsPeak(closes, k + 1, peak)
    ensures peak > 0.0 && -1.0 < closes[k] / peak - 1.0 <= 0.0
    ensures forall i :: 0 <= i <= k ==> closes[k] / peak - 1.0 <= Fall(closes, i, k)
    ensures exists i :: 0 <= i <= k && closes[k] / peak - 1.0 == Fall(closes, i, k)
  {
    var top :| 0 <= top <= k && closes[top] == peak;
    assert closes[k] / peak - 1.0 == Fall(closes, top, k);
    HigherFallsFurther(closes[k], closes[k], peak);
    SelfRatio(closes[k]);
    forall i | 0 <= i <= k ensures closes[k] / peak - 1.0 <= Fall(closes, i, k) {
      HigherFallsFurther(closes[k], closes[i], peak);
    }
  }

  lemma PeakGrows(closes: Vec, k: nat, peak: real)
    requires 0 < k < |closes| && IsPeak(closes, k, peak)
    ensures IsPeak(closes, k + 1, if peak < closes[k] then closes[k] else peak)
  {}

  lemma WorstGrows(closes: Vec, k: nat, worst: real, drawdown: real)
    requires 0 < k < |closes| && Positive(closes) && IsWorst(closes, k, worst)
    requires forall i :: 0 <= i <= k ==> drawdown <= Fall(closes, i, k)
    requires exists i :: 0 <= i <= k && drawdown == Fall(closes, i, k)
    ensures IsWorst(closes, k + 1, if drawdown < worst then drawdown else worst)
  {
    var next := if drawdown < worst then drawdown else worst;
    if drawdown < worst {
      var i :| 0 <= i <= k && drawdown == Fall(closes, i, k);
      assert next == Fall(closes, i, k);
    } else {
      var i, j :| 0 <= i <= j < k && worst == Fall(closes, i, j);
      assert next == Fall(closes, i, j);
    }
    forall i, j | 0 <= i <= j < k + 1 ensures next <= Fall(closes, i, j) {}
  }

  lemma FirstDay(closes: Vec)
    requires closes != [] && Positive(closes)
    ensures closes[0] / closes[0] - 1.0 == 0.0
    ensures IsPeak(closes, 1, closes[0]) && IsWorst(closes, 1, 0.0)
  {
    assert Fall(closes, 0, 0) == 0.0;
  }

  /** `_max_drawdown`: one pass with a running peak finds the worst fall between any two days. */
  method MaxDrawdown(closes: Vec) returns (worst: real)
    requires closes != [] && Positive(closes)
    ensures -1.0 < worst <= 0.0
    ensures forall i, j :: 0 <= i <= j < |closes| ==> worst <= closes[j] / closes[i] - 1.0
    ensures exists i, j :: 0 <= i <= j < |closes| && worst == closes[j] / closes[i] - 1.0
  {
    var peak := closes[0];
    worst := 0.0;
    FirstDay(closes);
    for k := 0 to |closes|
      invariant k == 0 ==> peak == closes[0] && worst == 0.0
      invariant k > 0 ==> IsPeak(closes, k, peak) && IsWorst(closes, k, worst)
      invariant -1.0 < worst <= 0.0
    {
      hide IsPeak, IsWorst, Fall;
      var price := closes[k];
      if k > 0 {
        PeakGrows(closes, k, peak);
      }
      peak := if peak < price then price else peak;
      FallFromPeak(closes, k, peak);
      var drawdown := price / peak - 1.0;
      if k > 0 {
        WorstGrows(closes, k, worst, drawdown);
      }
      worst := if drawdown < worst then drawdown else worst;
    }
    assert forall i, j :: 0 <= i <= j < |closes| ==> Fall(closes, i, j) == closes[j] / closes[i] - 1.0;
  }
}
