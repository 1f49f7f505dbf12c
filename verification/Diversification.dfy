/**
 The diversification ratio of `assess` in examples/portfolio/agents/risk_agent.py: the
 weighted average of the tickers' volatilities, each over all its own returns, divided by
 the portfolio's volatility over the shortest common window.

 Over one window the ratio is at least one. The code's windows differ, and `AtLeastOneExactly`
 says for which lengths of the histories the bound still holds.
 */
module Diversification {
  import opened Vectors
  import opened Portfolio

  // ------------------------------------------------------ square roots

  lemma SquareGrows(a: real, b: real)
    requires 0.0 <= a <= b
    ensures a * a <= b * b
  {
    if a < b {
      LargerSquare(a, b);
    }
  }

  lemma Ratio(a: real, b: real)
    requires b > 0.0
    ensures a / b < 1.0 <==> a < b
  {
    assert a == a / b * b;
  }

  lemma RootsCompare(vol: real, s: real, m: real)
    requires m > 0.0 && vol > 0.0 && s >= 0.0
    requires m * vol * vol <= m * s * s
    ensures s / vol >= 1.0
  {
    assert m * (vol * vol - s * s) == m * vol * vol - m * s * s;
    if s < vol {
      LargerSquare(s, vol);
      Product(m, vol * vol - s * s);
    }
    Ratio(s, vol);
  }

  // ------------------------------------------------------ over one window

  /** A volatility, through its square. */
  ghost predicate IsVolatility(sigma: real, daily: Vec) {
    sigma >= 0.0 && daily != [] && sigma * sigma == Covariance(daily, daily) * TRADING_DAYS
  }

  lemma Undivide(xx: real, n: real, s: real)
    requires n > 0.0 && s * s == xx / n * TRADING_DAYS
    ensures n / TRADING_DAYS > 0.0 && xx == n / TRADING_DAYS * s * s
  {
    var mean := xx / n;
    assert xx == n * mean && mean == s * s / TRADING_DAYS;
    assert n * (s * s / TRADING_DAYS) == n / TRADING_DAYS * s * s;
  }

  lemma VolatilityIsDeviation(x: Vec, sigma: real, n: nat, m: real)
    requires n > 0 && |x| == n && IsVolatility(sigma, x) && m == n as real / TRADING_DAYS
    ensures m > 0.0 && HasDeviation(Deviations(x), m, sigma)
  {
    hide Dot, Deviations;
    Undivide(Dot(Deviations(x), Deviations(x)), n as real, sigma);
  }

  /**
   With non-negative weights the portfolio is at most as volatile as its tickers' weighted
   average over the same window.
   */
  lemma DiversificationIsAtLeastOne(w: Vec, table: seq<Vec>, n: nat, sigma: Vec, vol: real)
    requires n > 0 && |w| == |table| == |sigma| && IsTable(table, n)
    requires forall i :: 0 <= i < |w| ==> w[i] >= 0.0 && sigma[i] >= 0.0
    requires forall i :: 0 <= i < |w| && w[i] > 0.0 ==> IsVolatility(sigma[i], table[i])
    requires vol > 0.0 && IsVolatility(vol, PortfolioReturns(w, table, n))
    ensures Dot(w, sigma) / vol >= 1.0
  {
    hide Sum, Covariance;
    var rows, m := AllDeviations(table, n), n as real / TRADING_DAYS;
    forall i | 0 <= i < |w| && w[i] > 0.0 ensures HasDeviation(rows[i], m, sigma[i]) {
      VolatilityIsDeviation(table[i], sigma[i], n, m);
    }
    VolatilityIsDeviation(PortfolioReturns(w, table, n), vol, n, m);
    CombineIsBounded(w, rows, n, m, sigma);
    DeviationsOfPortfolio(w, table, n);
    RootsCompare(vol, Dot(w, sigma), m);
  }

  // -------------------------------------------------- the ratio of `assess`

  predicate HasLengths(series: seq<Vec>, lengths: seq<nat>) {
    |series| == |lengths| && forall i :: 0 <= i < |series| ==> |series[i]| == lengths[i]
  }

  /** No price falls to zero: every daily return is above -1. */
  predicate AreReturns(series: seq<Vec>) {
    forall i, k :: 0 <= i < |series| && 0 <= k < |series[i]| ==> series[i][k] > -1.0
  }

  predicate AllAtLeast(lengths: seq<nat>, n: nat) {
    forall i :: 0 <= i < |lengths| ==> n <= lengths[i]
  }

  ghost predicate IsLeast(lengths: seq<nat>, n: nat) {
    AllAtLeast(lengths, n) && exists i :: 0 <= i < |lengths| && lengths[i] == n
  }

  /** The least length is the window `PortfolioVolatility` takes. */
  lemma LeastIsShortest(series: seq<Vec>, lengths: seq<nat>, n: nat)
    requires HasLengths(series, lengths)
    ensures IsLeast(lengths, n) <==> IsShortest(series, n) && series != []
  {
    if IsLeast(lengths, n) {
      var i :| 0 <= i < |lengths| && lengths[i] == n;
      assert |series[i]| == n;
    }
    if IsShortest(series, n) && series != [] {
      var i :| 0 <= i < |series| && |series[i]| == n;
      assert lengths[i] == n;
    }
  }

  /** `annualized_volatility` of every ticker, over its whole history. */
  function OwnVolatilities(root: real -> real, series: seq<Vec>): (r: Vec)
    requires forall i :: 0 <= i < |series| ==> series[i] != []
    ensures |r| == |series|
  {
    seq(|series|, i requires 0 <= i < |series| => Volatility(root, series[i]))
  }

  function CommonVolatility(root: real -> real, w: Vec, series: seq<Vec>, n: nat): real
    requires n > 0 && |w| == |series| && forall i :: 0 <= i < |series| ==> n <= |series[i]|
  {
    Volatility(root, PortfolioReturns(w, Aligned(series, n), n))
  }

  /** The ratio is at least one, whenever the code computes it, for these histories. */
  ghost predicate AtLeastOne(root: real -> real, w: Vec, series: seq<Vec>, n: nat)
    requires n > 0 && |w| == |series| && forall i :: 0 <= i < |series| ==> n <= |series[i]|
  {
    CommonVolatility(root, w, series, n) > 0.0 ==>
      Dot(w, OwnVolatilities(root, series)) / CommonVolatility(root, w, series, n) >= 1.0
  }

  ghost predicate AlwaysAtLeastOne(root: real -> real, w: Vec, lengths: seq<nat>, n: nat)
    requires n > 0 && |w| == |lengths| && AllAtLeast(lengths, n)
  {
    forall series :: HasLengths(series, lengths) && AreReturns(series) ==> AtLeastOne(root, w, series, n)
  }

  lemma RootOfCovariance(root: real -> real, x: Vec)
    requires IsRoot(root) && x != []
    ensures IsVolatility(Volatility(root, x), x)
  {
    hide Sum, Products;
    AverageIsPositive(Deviations(x), |x|);
    var variance := Covariance(x, x) * TRADING_DAYS;
    assert variance >= 0.0;
    assert root(variance) >= 0.0 && root(variance) * root(variance) == variance;
  }

  lemma EqualWindowsAreEnough(root: real -> real, w: Vec, series: seq<Vec>, n: nat)
    requires IsRoot(root) && n > 0 && |w| == |series| && (forall i :: 0 <= i < |series| ==> n <= |series[i]|)
    requires forall i :: 0 <= i < |w| ==> w[i] >= 0.0 && (w[i] > 0.0 ==> |series[i]| == n)
    ensures AtLeastOne(root, w, series, n)
  {
    hide Volatility, IsVolatility, Dot;
    var table, sigma := Aligned(series, n), OwnVolatilities(root, series);
    var vol := CommonVolatility(root, w, series, n);
    forall i | 0 <= i < |w| ensures sigma[i] >= 0.0 && (w[i] > 0.0 ==> IsVolatility(sigma[i], table[i])) {
      RootOfCovariance(root, series[i]);
      VolatilityIsPositive(sigma[i], series[i]);
      assert w[i] > 0.0 ==> table[i] == series[i];
    }
    RootOfCovariance(root, PortfolioReturns(w, table, n));
    if vol > 0.0 {
      DiversificationIsAtLeastOne(w, table, n, sigma, vol);
    }
  }

  lemma VolatilityIsPositive(sigma: real, x: Vec)
    requires IsVolatility(sigma, x)
    ensures sigma >= 0.0
  {}

  // ---------------------------------------- a longer window falls short

  /** A history that is quiet but for a rise and a fall on its last two days. */
  function Spike(length: nat): (x: Vec)
    requires length >= 2
    ensures |x| == length
  {
    Constant(length - 2, 0.0) + [0.5, -0.5]
  }

  lemma SumOfTwoMore(x: Vec, a: real, b: real)
    ensures Sum(x + [a, b]) == Sum(x) + a + b
  {
    assert (x + [a, b])[..|x| + 1] == x + [a];
    assert (x + [a])[..|x|] == x;
  }

  lemma SpikeIs(length: nat)
    requires length >= 2
    ensures Sum(Spike(length)) == 0.0 && Dot(Spike(length), Spike(length)) == 0.5
  {
    var quiet := Constant(length - 2, 0.0);
    SumOfConstant(length - 2, 0.0);
    SumOfTwoMore(quiet, 0.5, -0.5);
    SumOfTwoMore(quiet, 0.25, 0.25);
    assert Products(Spike(length), Spike(length)) == quiet + [0.25, 0.25];
  }

  lemma ZeroIs(n: nat)
    ensures Sum(Constant(n, 0.0)) == 0.0
  {
    SumOfConstant(n, 0.0);
  }

  lemma AroundZero(x: Vec)
    requires x != [] && Sum(x) == 0.0
    ensures Deviations(x) == x
  {
    hide Sum;
    DivideSum(0.0, 0.0, 0.0, |x| as real);
    assert Mean(x) == 0.0;
    hide Mean;
    forall i | 0 <= i < |x| ensures Deviations(x)[i] == x[i] {}
  }

  lemma DotWithZero(x: Vec)
    ensures Dot(x, Constant(|x|, 0.0)) == 0.0 && Dot(Constant(|x|, 0.0), x) == 0.0
  {
    DotWithConstant(x, 0.0);
    DotIsSymmetric(x, Constant(|x|, 0.0));
  }

  /** The variance of c times a spike. */
  lemma SpikeVariance(c: real, n: nat)
    requires n >= 2
    ensures var x := AddScaled(Constant(n, 0.0), c, Spike(n)); Covariance(x, x) == c * c * (0.5 / n as real)
  {
    var zero, spike := Constant(n, 0.0), Spike(n);
    var x := AddScaled(zero, c, spike);
    SpikeIs(n);
    ZeroIs(n);
    AroundZero(zero);
    AroundZero(spike);
    DeviationsAreLinear(zero, c, spike);
    LengthOfSum(zero, c, spike);
    DotWithZero(spike);
    DotWithZero(zero);
    hide Deviations, Dot, Spike, AddScaled;
    ScaleSpike(c, Dot(x, x), n as real);
  }

  lemma ScaleSpike(c: real, xx: real, n: real)
    requires n > 0.0 && xx == (0.0 + c * 0.0) + c * (0.0 + c * 0.5)
    ensures xx / n == c * c * (0.5 / n)
  {
    assert xx == c * c * 0.5;
  }

  lemma {:induction false} CombineNone(w: Vec, rows: seq<Vec>, n: nat)
    requires |w| == |rows| && IsTable(rows, n) && forall i :: 0 <= i < |rows| ==> rows[i] == Constant(n, 0.0)
    ensures Combine(w, rows, n) == Constant(n, 0.0)
  {
    if w != [] {
      var k := |w| - 1;
      CombineNone(w[..k], rows[..k], n);
    }
  }

  /** A combination in which one row alone is not zero. */
  lemma {:induction false} CombineOne(w: Vec, rows: seq<Vec>, n: nat, j: nat)
    requires |w| == |rows| && j < |rows| && IsTable(rows, n)
    requires forall i :: 0 <= i < |rows| && i != j ==> rows[i] == Constant(n, 0.0)
    ensures Combine(w, rows, n) == AddScaled(Constant(n, 0.0), w[j], rows[j])
  {
    var k := |w| - 1;
    if j == k {
      CombineNone(w[..k], rows[..k], n);
    } else {
      CombineOne(w[..k], rows[..k], n, j);
      var rest := Combine(w[..k], rows[..k], n);
      assert AddScaled(rest, w[k], Constant(n, 0.0)) == rest;
    }
  }

  lemma {:induction false} DotOne(w: Vec, y: Vec, j: nat)
    requires |w| == |y| && j < |w| && forall i :: 0 <= i < |y| && i != j ==> y[i] == 0.0
    ensures Dot(w, y) == w[j] * y[j]
  {
    var k := |w| - 1;
    DotSplits(w, y);
    if j == k {
      assert y[..k] == Constant(|w[..k]|, 0.0);
      DotWithZero(w[..k]);
    } else {
      DotOne(w[..k], y[..k], j);
    }
  }

  /** All histories are flat but that of ticker j. */
  function OneMoves(lengths: seq<nat>, j: nat): (series: seq<Vec>)
    requires AllAtLeast(lengths, 2)
    ensures HasLengths(series, lengths) && AreReturns(series)
  {
    seq(|lengths|, i requires 0 <= i < |lengths| => if i == j then Spike(lengths[i]) else Constant(lengths[i], 0.0))
  }

  lemma FlatVolatility(root: real -> real, n: nat)
    requires IsRoot(root) && n > 0
    ensures Volatility(root, Constant(n, 0.0)) == 0.0
  {
    var zero := Constant(n, 0.0);
    ZeroIs(n);
    AroundZero(zero);
    DotWithZero(zero);
    assert Covariance(zero, zero) == 0.0;
    assert root(0.0) >= 0.0 && root(0.0) * root(0.0) == 0.0;
    if root(0.0) > 0.0 {
      LargerSquare(0.0, root(0.0));
    }
  }

  lemma OwnAverage(root: real -> real, w: Vec, lengths: seq<nat>, j: nat)
    requires IsRoot(root) && |w| == |lengths| && j < |w| && AllAtLeast(lengths, 2)
    ensures Dot(w, OwnVolatilities(root, OneMoves(lengths, j))) == w[j] * Volatility(root, Spike(lengths[j]))
  {
    hide Volatility, Dot;
    var own := OwnVolatilities(root, OneMoves(lengths, j));
    forall i | 0 <= i < |own| && i != j ensures own[i] == 0.0 {
      FlatVolatility(root, lengths[i]);
    }
    DotOne(w, own, j);
  }

  lemma CommonReturns(w: Vec, lengths: seq<nat>, n: nat, j: nat)
    requires n >= 2 && |w| == |lengths| && j < |w| && AllAtLeast(lengths, n)
    ensures PortfolioReturns(w, Aligned(OneMoves(lengths, j), n), n) == AddScaled(Constant(n, 0.0), w[j], Spike(n))
  {
    var table := Aligned(OneMoves(lengths, j), n);
    assert table[j] == Spike(n);
    CombineOne(w, table, n, j);
  }

  /** `vol` is the volatility of c times a spike over n days. */
  ghost predicate IsSpikeRoot(vol: real, c: real, n: real)
    requires n > 0.0
  {
    vol >= 0.0 && vol * vol == c * c * (0.5 / n) * TRADING_DAYS
  }

  lemma SpikeVolatility(root: real -> real, length: nat)
    requires IsRoot(root) && length >= 2
    ensures IsSpikeRoot(Volatility(root, Spike(length)), 1.0, length as real)
  {
    var spike := Spike(length);
    assert AddScaled(Constant(length, 0.0), 1.0, spike) == spike;
    SpikeVariance(1.0, length);
    hide Spike, Covariance, Volatility, IsRoot;
    RootOfCovariance(root, spike);
  }

  lemma CommonIs(root: real -> real, w: Vec, lengths: seq<nat>, n: nat, j: nat)
    requires IsRoot(root) && n >= 2 && |w| == |lengths| && j < |w| && AllAtLeast(lengths, n)
    ensures IsSpikeRoot(CommonVolatility(root, w, OneMoves(lengths, j), n), w[j], n as real)
  {
    var daily := AddScaled(Constant(n, 0.0), w[j], Spike(n));
    CommonReturns(w, lengths, n, j);
    SpikeVariance(w[j], n);
    hide Spike, Covariance, Volatility, IsRoot;
    RootOfCovariance(root, daily);
  }

  /** If a ticker with some weight has a longer history, the ratio can be below one. */
  lemma LongerWindowFallsShort(root: real -> real, w: Vec, lengths: seq<nat>, n: nat, j: nat)
    requires IsRoot(root) && n >= 2 && |w| == |lengths| && AllAtLeast(lengths, n)
    requires j < |w| && w[j] > 0.0 && lengths[j] > n
    ensures !AtLeastOne(root, w, OneMoves(lengths, j), n)
  {
    hide Volatility, CommonVolatility, OwnVolatilities, Dot, Spike, IsRoot, IsSpikeRoot;
    OwnAverage(root, w, lengths, j);
    CommonIs(root, w, lengths, n, j);
    SpikeVolatility(root, lengths[j]);
    var sigma, vol := Volatility(root, Spike(lengths[j])), CommonVolatility(root, w, OneMoves(lengths, j), n);
    var average := Dot(w, OwnVolatilities(root, OneMoves(lengths, j)));
    ShorterIsLarger(w[j], sigma, average, vol, n as real, lengths[j] as real);
    FallsShort(root, w, OneMoves(lengths, j), n, average, vol);
  }

  lemma FallsShort(root: real -> real, w: Vec, series: seq<Vec>, n: nat, average: real, vol: real)
    requires n > 0 && |w| == |series| && forall i :: 0 <= i < |series| ==> n <= |series[i]|
    requires vol == CommonVolatility(root, w, series, n) && average == Dot(w, OwnVolatilities(root, series))
    requires vol > 0.0 && average / vol < 1.0
    ensures !AtLeastOne(root, w, series, n)
  {
    hide CommonVolatility, OwnVolatilities, Dot;
  }

  lemma ShorterIsLarger(c: real, sigma: real, average: real, vol: real, n: real, length: real)
    requires c > 0.0 && 0.0 < n < length && average == c * sigma
    requires IsSpikeRoot(sigma, 1.0, length) && IsSpikeRoot(vol, c, n)
    ensures vol > 0.0 && average / vol < 1.0
  {
    var long, short := 0.5 / length * TRADING_DAYS, 0.5 / n * TRADING_DAYS;
    FewerDays(n, length);
    LargerSquare(0.0, c);
    assert sigma * sigma == long && vol * vol == c * c * short;
    Product(c * c, short - long);
    Product(c * c, short);
    assert average * average == c * c * (sigma * sigma);
    assert c * c * short - c * c * long == c * c * (short - long);
    assert average >= 0.0;
    SquaresOrder(average, vol);
    Ratio(average, vol);
  }

  lemma SquaresOrder(a: real, b: real)
    requires a >= 0.0 && b >= 0.0 && a * a < b * b
    ensures a < b
  {
    if b <= a {
      SquareGrows(b, a);
    }
  }

  lemma Sign(x: real, y: real)
    requires y > 0.0 && x * y > 0.0
    ensures x > 0.0
  {
    assert x <= 0.0 ==> x * y <= 0.0;
  }

  lemma FewerDays(n: real, length: real)
    requires 0.0 < n < length
    ensures 0.0 < 0.5 / length * TRADING_DAYS < 0.5 / n * TRADING_DAYS
  {
    var a, b := 0.5 / length, 0.5 / n;
    assert a * length == 0.5 && b * n == 0.5;
    Product(b, length - n);
    assert (b - a) * length == b * (length - n);
    Sign(b - a, length);
  }

  /**
   The bound holds for all histories of these lengths exactly when every ticker with some
   weight has just the common window.
   */
  lemma AtLeastOneExactly(root: real -> real, w: Vec, lengths: seq<nat>, n: nat)
    requires IsRoot(root) && n >= 2 && |w| == |lengths| && IsLeast(lengths, n)
    requires forall i :: 0 <= i < |w| ==> w[i] >= 0.0
    ensures AlwaysAtLeastOne(root, w, lengths, n) <==> forall i :: 0 <= i < |w| && w[i] > 0.0 ==> lengths[i] == n
  {
    hide AtLeastOne, IsRoot;
    if forall i :: 0 <= i < |w| && w[i] > 0.0 ==> lengths[i] == n {
      forall series | HasLengths(series, lengths) && AreReturns(series) ensures AtLeastOne(root, w, series, n) {
        EqualWindowsAreEnough(root, w, series, n);
      }
    } else {
      var j :| 0 <= j < |w| && w[j] > 0.0 && lengths[j] != n;
      LongerWindowFallsShort(root, w, lengths, n, j);
    }
  }
}
