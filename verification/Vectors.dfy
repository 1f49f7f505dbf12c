/** Real vectors, for sums of products: dot products, linear combinations, Cauchy-Schwarz. */
module Vectors {

  type Vec = seq<real>

  function Sum(x: Vec): real {
    if x == [] then 0.0 else Sum(x[..|x| - 1]) + x[|x| - 1]
  }

  function Products(x: Vec, y: Vec): Vec
    requires |x| == |y|
  {
    seq(|x|, i requires 0 <= i < |x| => x[i] * y[i])
  }

  function Dot(x: Vec, y: Vec): real
    requires |x| == |y|
  {
    Sum(Products(x, y))
  }

  function Constant(n: nat, c: real): (r: Vec)
    ensures |r| == n
  {
    seq(n, _ => c)
  }

  function AddScaled(x: Vec, c: real, d: Vec): (r: Vec)
    requires |x| == |d|
    ensures |r| == |x|
  {
    seq(|x|, i requires 0 <= i < |x| => x[i] + c * d[i])
  }

  lemma AddScaledSplits(x: Vec, c: real, d: Vec)
    requires |x| == |d| && x != []
    ensures var n, s := |x| - 1, AddScaled(x, c, d);
            s[..n] == AddScaled(x[..n], c, d[..n]) && s[n] == x[n] + c * d[n]
  {
    var n, s := |x| - 1, AddScaled(x, c, d);
    var t := AddScaled(x[..n], c, d[..n]);
    forall i | 0 <= i < n ensures s[..n][i] == t[i] {
      assert x[..n][i] == x[i] && d[..n][i] == d[i];
    }
    assert s[..n] == t;
  }

  lemma SumSplits(x: Vec)
    requires x != []
    ensures Sum(x) == Sum(x[..|x| - 1]) + x[|x| - 1]
  {}

  lemma Distribute(a: real, x: real, c: real, b: real, d: real)
    ensures (a + c * b) + (x + c * d) == (a + x) + c * (b + d)
  {}

  lemma {:induction false} SumIsLinear(x: Vec, c: real, d: Vec)
    requires |x| == |d|
    ensures Sum(AddScaled(x, c, d)) == Sum(x) + c * Sum(d)
  {
    if x == [] {
      assert AddScaled(x, c, d) == [];
    } else {
      var n := |x| - 1;
      SumIsLinear(x[..n], c, d[..n]);
      AddScaledSplits(x, c, d);
      SumSplits(x);
      SumSplits(d);
      SumSplits(AddScaled(x, c, d));
      hide Sum, AddScaled;
      Distribute(Sum(x[..n]), x[n], c, Sum(d[..n]), d[n]);
    }
  }

  lemma Expand(x: real, c: real, d: real, y: real)
    ensures (x + c * d) * y == x * y + c * (d * y)
  {}

  lemma DotIsLinear(x: Vec, c: real, d: Vec, y: Vec)
    requires |x| == |d| == |y|
    ensures Dot(AddScaled(x, c, d), y) == Dot(x, y) + c * Dot(d, y)
  {
    hide Sum;
    var l, r := Products(AddScaled(x, c, d), y), AddScaled(Products(x, y), c, Products(d, y));
    forall i | 0 <= i < |x| ensures l[i] == r[i] {
      Expand(x[i], c, d[i], y[i]);
    }
    assert l == r;
    SumIsLinear(Products(x, y), c, Products(d, y));
  }

  lemma DotIsSymmetric(x: Vec, y: Vec)
    requires |x| == |y|
    ensures Dot(x, y) == Dot(y, x)
  {
    assert Products(x, y) == Products(y, x);
  }

  lemma DotSplits(x: Vec, y: Vec)
    requires |x| == |y| && x != []
    ensures var n := |x| - 1; Dot(x, y) == Dot(x[..n], y[..n]) + x[n] * y[n]
  {
    var n := |x| - 1;
    var l, r := Products(x, y)[..n], Products(x[..n], y[..n]);
    forall i | 0 <= i < n ensures l[i] == r[i] {
      assert x[..n][i] == x[i] && y[..n][i] == y[i];
    }
    assert l == r;
  }

  lemma {:induction false} DotWithConstant(x: Vec, c: real)
    ensures Dot(x, Constant(|x|, c)) == c * Sum(x)
  {
    if x != [] {
      var n := |x| - 1;
      DotWithConstant(x[..n], c);
      DotSplits(x, Constant(|x|, c));
      assert Constant(|x|, c)[..n] == Constant(n, c);
      assert c * (Sum(x[..n]) + x[n]) == c * Sum(x[..n]) + x[n] * c;
    }
  }

  lemma {:induction false} SumOfConstant(n: nat, c: real)
    ensures Sum(Constant(n, c)) == n as real * c
  {
    if n > 0 {
      SumOfConstant(n - 1, c);
      assert Constant(n, c)[..n - 1] == Constant(n - 1, c);
      assert n as real * c == (n - 1) as real * c + c;
    }
  }

  lemma Product(a: real, b: real)
    requires a > 0.0 && b > 0.0
    ensures a * b > 0.0
  {}

  lemma LargerSquare(a: real, b: real)
    requires 0.0 <= a < b
    ensures a * a < b * b
  {
    Product(b - a, b + a);
    assert (b - a) * (b + a) == b * b - a * a;
  }

  lemma SquareIsPositive(a: real)
    ensures a * a >= 0.0
    ensures a * a <= 0.0 ==> a == 0.0
  {
    assert (-a) * (-a) == a * a;
    if a > 0.0 {
      LargerSquare(0.0, a);
    } else if a < 0.0 {
      LargerSquare(0.0, -a);
    }
  }

  lemma {:induction false} LengthIsPositive(x: Vec)
    ensures Dot(x, x) >= 0.0
    ensures Dot(x, x) <= 0.0 ==> x == Constant(|x|, 0.0)
  {
    if x != [] {
      var n := |x| - 1;
      LengthIsPositive(x[..n]);
      DotSplits(x, x);
      SquareIsPositive(x[n]);
      if Dot(x, x) <= 0.0 {
        assert x == x[..n] + [x[n]];
        assert Constant(|x|, 0.0) == Constant(n, 0.0) + [0.0];
      }
    }
  }

  /** |x + c d|^2, multiplied out. */
  lemma LengthOfSum(x: Vec, c: real, d: Vec)
    requires |x| == |d|
    ensures var s := AddScaled(x, c, d);
            Dot(s, s) == (Dot(x, x) + c * Dot(x, d)) + c * (Dot(x, d) + c * Dot(d, d))
  {
    var s := AddScaled(x, c, d);
    DotIsLinear(x, c, d, s);
    WithSum(x, c, d, x);
    WithSum(x, c, d, d);
    DotIsSymmetric(d, x);
  }

  lemma WithSum(x: Vec, c: real, d: Vec, y: Vec)
    requires |x| == |d| == |y|
    ensures Dot(y, AddScaled(x, c, d)) == Dot(y, x) + c * Dot(y, d)
  {
    var s := AddScaled(x, c, d);
    DotIsLinear(x, c, d, y);
    DotIsSymmetric(y, s);
    DotIsSymmetric(y, x);
    DotIsSymmetric(y, d);
  }

  lemma Regroup(n: real, p: real, q: real, r: real)
    requires r * q == p
    ensures r * (n * p * q) == n * p * p
    ensures r * (r * (n * q * q)) == r * (n * p * q)
  {
    assert n * p * (r * q) == r * (n * p * q);
    assert n * (r * q) * q == r * (n * q * q);
  }

  lemma Scale(r: real, a: real, b: real)
    requires r > 0.0
    ensures a <= b <==> r * a <= r * b
  {
    assert r * (b - a) == r * b - r * a;
    if a < b {
      Product(r, b - a);
    } else if b < a {
      Product(r, a - b);
      assert r * (a - b) == r * a - r * b;
    }
  }

  /** From |x - r y|^2 >= 0 with r = p/q: the step of Cauchy-Schwarz that cancels r. */
  lemma Cancel(p: real, q: real, r: real, n: real, xx: real, xy: real, yy: real)
    requires r > 0.0 && r * q == p
    requires xx <= n * p * p && yy <= n * q * q
    requires xx - r * xy - r * (xy - r * yy) >= 0.0
    ensures xy <= n * p * q
  {
    var top, low := n * p * q, n * q * q;
    Regroup(n, p, q, r);
    Scale(r, yy, low);
    Scale(r, r * yy, r * low);
    assert r * (xy - r * yy) == r * xy - r * (r * yy);
    Scale(r, xy, top);
  }

  lemma Divide(p: real, q: real) returns (r: real)
    requires p > 0.0 && q > 0.0
    ensures r > 0.0 && r * q == p
  {
    r := p / q;
  }

  lemma MinusScaled(r: real, a: real, b: real)
    ensures a + -r * b == a - r * b
  {}

  /** |x - r y|^2 is not negative. */
  lemma DifferenceIsPositive(x: Vec, y: Vec, r: real)
    requires |x| == |y|
    ensures Dot(x, x) - r * Dot(x, y) - r * (Dot(x, y) - r * Dot(y, y)) >= 0.0
  {
    LengthOfSum(x, -r, y);
    LengthIsPositive(AddScaled(x, -r, y));
    hide Dot, AddScaled;
    MinusScaled(r, Dot(x, y), Dot(y, y));
    MinusScaled(r, Dot(x, x), Dot(x, y));
    MinusScaled(r, Dot(x, x) - r * Dot(x, y), Dot(x, y) - r * Dot(y, y));
  }

  lemma ZeroFactor(n: real, p: real, q: real)
    requires p == 0.0
    ensures n * p * p == 0.0 && n * p * q == 0.0 && n * q * p == 0.0
  {}

  /** Cauchy-Schwarz, with the lengths bounded through their squares. */
  lemma DotIsBounded(x: Vec, y: Vec, p: real, q: real, n: real)
    requires |x| == |y| && p >= 0.0 && q >= 0.0 && n > 0.0
    requires Dot(x, x) <= n * p * p && Dot(y, y) <= n * q * q
    ensures Dot(x, y) <= n * p * q
  {
    hide Dot, AddScaled;
    if p > 0.0 && q > 0.0 {
      var r := Divide(p, q);
      DifferenceIsPositive(x, y, r);
      Cancel(p, q, r, n, Dot(x, x), Dot(x, y), Dot(y, y));
    } else if p == 0.0 {
      ZeroFactor(n, p, q);
      ZeroLength(x, y);
    } else {
      ZeroFactor(n, q, p);
      ZeroLength(y, x);
      DotIsSymmetric(x, y);
    }
  }

  lemma ZeroLength(x: Vec, y: Vec)
    requires |x| == |y| && Dot(x, x) <= 0.0
    ensures Dot(x, y) == 0.0
  {
    LengthIsPositive(x);
    DotIsSymmetric(x, y);
    DotWithConstant(y, 0.0);
  }

  // -------------------------------------------- combinations of rows

  predicate IsTable(rows: seq<Vec>, n: nat) {
    forall i :: 0 <= i < |rows| ==> |rows[i]| == n
  }

  /** w[0] rows[0] + w[1] rows[1] + ... */
  function Combine(w: Vec, rows: seq<Vec>, n: nat): (r: Vec)
    requires |w| == |rows| && IsTable(rows, n)
    ensures |r| == n
  {
    if w == [] then Constant(n, 0.0)
    else AddScaled(Combine(w[..|w| - 1], rows[..|rows| - 1], n), w[|w| - 1], rows[|rows| - 1])
  }

  lemma CombineSplits(w: Vec, rows: seq<Vec>, n: nat)
    requires |w| == |rows| && IsTable(rows, n) && w != []
    ensures var k := |w| - 1; Combine(w, rows, n) == AddScaled(Combine(w[..k], rows[..k], n), w[k], rows[k])
  {}

  lemma CombineNothing(w: Vec, rows: seq<Vec>, sigma: Vec, n: nat, m: real)
    requires |w| == |rows| == |sigma| && IsTable(rows, n) && w == []
    ensures Dot(w, sigma) == 0.0 && IsWithin(Combine(w, rows, n), m, 0.0)
  {
    DotWithConstant(Constant(n, 0.0), 0.0);
  }

  /** |x|^2 is m sigma^2: for m the number of days, sigma is the root mean square of x. */
  ghost predicate HasDeviation(x: Vec, m: real, sigma: real) {
    Dot(x, x) == m * sigma * sigma
  }

  ghost predicate IsWithin(x: Vec, m: real, sigma: real) {
    Dot(x, x) <= m * sigma * sigma
  }

  /** Bounded parts combine into a bounded whole: the triangle inequality. */
  lemma {:induction false} CombineIsBounded(w: Vec, rows: seq<Vec>, n: nat, m: real, sigma: Vec)
    requires m > 0.0 && |w| == |rows| == |sigma| && IsTable(rows, n)
    requires forall i :: 0 <= i < |w| ==> w[i] >= 0.0 && sigma[i] >= 0.0
    requires forall i :: 0 <= i < |w| && w[i] > 0.0 ==> HasDeviation(rows[i], m, sigma[i])
    ensures Dot(w, sigma) >= 0.0
    ensures IsWithin(Combine(w, rows, n), m, Dot(w, sigma))
  {
    hide Dot, AddScaled, Combine, IsWithin, HasDeviation;
    if w == [] {
      CombineNothing(w, rows, sigma, n, m);
    } else {
      var k := |w| - 1;
      CombineIsBounded(w[..k], rows[..k], n, m, sigma[..k]);
      DotSplits(w, sigma);
      CombineSplits(w, rows, n);
      var s := Dot(w[..k], sigma[..k]);
      CombineStep(Combine(w[..k], rows[..k], n), w[k], rows[k], m, s, sigma[k], Dot(w, sigma));
    }
  }

  lemma CombineStep(x: Vec, c: real, d: Vec, m: real, s: real, q: real, whole: real)
    requires |x| == |d| && m > 0.0 && c >= 0.0 && s >= 0.0 && q >= 0.0 && whole == s + c * q
    requires IsWithin(x, m, s) && (c > 0.0 ==> HasDeviation(d, m, q))
    ensures whole >= 0.0 && IsWithin(AddScaled(x, c, d), m, whole)
  {
    if c > 0.0 {
      LengthOfSum(x, c, d);
      DotIsBounded(x, d, s, q, m);
      Grow(m, s, c, q, Dot(x, x), Dot(x, d));
    } else {
      assert AddScaled(x, c, d) == x;
      assert s + c * q == s;
    }
  }

  lemma Grow(m: real, s: real, c: real, q: real, xx: real, xy: real)
    requires m > 0.0 && s >= 0.0 && c >= 0.0 && q >= 0.0
    requires xx <= m * s * s && xy <= m * s * q
    ensures s + c * q >= 0.0
    ensures (xx + c * xy) + c * (xy + c * (m * q * q)) <= m * (s + c * q) * (s + c * q)
  {
    var cross := c * (m * s * q);
    assert c * q >= 0.0;
    assert c * xy <= cross;
    assert c * (xy + c * (m * q * q)) == c * xy + c * (c * (m * q * q));
    assert m * (s + c * q) * (s + c * q) == m * s * s + cross + cross + c * (c * (m * q * q));
  }
}
