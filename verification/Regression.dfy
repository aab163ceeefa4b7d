/** The least-squares cost fit and the estimator's raw-moment slope, over the reals: rounding is not modelled. */
module Regression {
  import opened Options

  // ---- sums ----

  function Sum(xs: seq<real>): real {
    if xs == [] then 0.0 else xs[0] + Sum(xs[1..])
  }

  function SumProducts(xs: seq<real>, ys: seq<real>): real
    requires |xs| == |ys|
  {
    if xs == [] then 0.0 else xs[0] * ys[0] + SumProducts(xs[1..], ys[1..])
  }

  function Deviation(x: real, y: real, mx: real, my: real): real { (x - mx) * (y - my) }

  /** The products of the deviations from `mx` and `my`. */
  function SumDeviations(xs: seq<real>, ys: seq<real>, mx: real, my: real): real
    requires |xs| == |ys|
  {
    if xs == [] then 0.0 else Deviation(xs[0], ys[0], mx, my) + SumDeviations(xs[1..], ys[1..], mx, my)
  }

  function Square(x: real): real { x * x }

  /** How far the line  y = a + b * x  misses the point. */
  function Residual(x: real, y: real, a: real, b: real): real { y - (a + b * x) }

  /** The sum of squared residuals of the line  y = a + b * x. */
  function SquaredResiduals(xs: seq<real>, ys: seq<real>, a: real, b: real): real
    requires |xs| == |ys|
  {
    if xs == [] then 0.0
    else Square(Residual(xs[0], ys[0], a, b)) + SquaredResiduals(xs[1..], ys[1..], a, b)
  }

  function Weighted(w: real, x: real, y: real, a: real, b: real): real { w * Residual(x, y, a, b) }

  /** The residuals of the line, weighted. */
  function WeightedResiduals(xs: seq<real>, ys: seq<real>, ws: seq<real>, a: real, b: real): real
    requires |xs| == |ys| == |ws|
  {
    if xs == [] then 0.0 else Weighted(ws[0], xs[0], ys[0], a, b) + WeightedResiduals(xs[1..], ys[1..], ws[1..], a, b)
  }

  function Count(xs: seq<real>): real { |xs| as real }

  function Mean(xs: seq<real>): real
    requires xs != []
  {
    Sum(xs) / Count(xs)
  }

  function Variance(xs: seq<real>): real
    requires xs != []
  {
    SumDeviations(xs, xs, Mean(xs), Mean(xs))
  }

  function Covariance(xs: seq<real>, ys: seq<real>): real
    requires xs != [] && |xs| == |ys|
  {
    SumDeviations(xs, ys, Mean(xs), Mean(ys))
  }

  predicate AllEqual(xs: seq<real>) {
    forall i, j :: 0 <= i < |xs| && 0 <= j < |xs| ==> xs[i] == xs[j]
  }

  // ---- raw moments ----

  /** The sums a least-squares fit depends on. */
  datatype Moments = Moments(n: real, sx: real, sy: real, sxx: real, sxy: real, syy: real)

  function MomentsOf(xs: seq<real>, ys: seq<real>): Moments
    requires |xs| == |ys|
  {
    Moments(Count(xs), Sum(xs), Sum(ys), SumProducts(xs, xs), SumProducts(xs, ys), SumProducts(ys, ys))
  }

  function Plus(m: Moments, x: real, y: real): Moments {
    Moments(m.n + 1.0, m.sx + x, m.sy + y, m.sxx + x * x, m.sxy + x * y, m.syy + y * y)
  }

  lemma MomentsStep(xs: seq<real>, ys: seq<real>)
    requires |xs| == |ys| && xs != []
    ensures MomentsOf(xs, ys) == Plus(MomentsOf(xs[1..], ys[1..]), xs[0], ys[0])
  {
  }

  lemma PositiveProduct(x: real)
    requires x > 0.0
    ensures x * x > 0.0
  {
  }

  lemma Positive(x: real)
    requires x > 0.0
    ensures Square(x) > 0.0
  {
    calc { Square(x); == x * x; > { PositiveProduct(x); } 0.0; }
  }

  lemma SquareOfNegation(x: real)
    ensures Square(x) == Square(-x)
  {
  }

  lemma SquareSign(x: real)
    ensures Square(x) >= 0.0 && (Square(x) == 0.0 <==> x == 0.0)
  {
    if x != 0.0 {
      hide Square;
      SquareOfNegation(x);
      Positive(if x < 0.0 then -x else x);
    }
  }

  /** The sum of squared residuals of the line  y = a + b * x, in raw moments. */
  function LineError(m: Moments, a: real, b: real): real {
    m.syy - 2.0 * (a * m.sy) - 2.0 * (b * m.sxy) + a * a * m.n + 2.0 * (a * b * m.sx) + b * b * m.sxx
  }

  lemma SquareOfResidual(x: real, y: real, a: real, b: real)
    ensures Square(Residual(x, y, a, b))
         == y * y - 2.0 * (a * y) - 2.0 * (b * (x * y)) + a * a + 2.0 * (a * b * x) + b * b * (x * x)
  {
    var p := b * x;
    assert Square(y - (a + p)) == y * y - 2.0 * (a * y) - 2.0 * (p * y) + a * a + 2.0 * (a * p) + p * p;
    assert p * y == b * (x * y) && a * p == a * b * x && p * p == b * b * (x * x);
  }

  lemma LineErrorPlus(m: Moments, x: real, y: real, a: real, b: real)
    ensures LineError(Plus(m, x, y), a, b) == Square(Residual(x, y, a, b)) + LineError(m, a, b)
  {
    SquareOfResidual(x, y, a, b);
    hide Square, Residual;
    assert a * (m.sy + y) == a * m.sy + a * y;
    assert b * (m.sxy + x * y) == b * m.sxy + b * (x * y);
    assert a * a * (m.n + 1.0) == a * a * m.n + a * a;
    assert a * b * (m.sx + x) == a * b * m.sx + a * b * x;
    assert b * b * (m.sxx + x * x) == b * b * m.sxx + b * b * (x * x);
  }

  lemma {:induction false} ResidualsExpand(xs: seq<real>, ys: seq<real>, a: real, b: real)
    requires |xs| == |ys|
    ensures SquaredResiduals(xs, ys, a, b) == LineError(MomentsOf(xs, ys), a, b)
  {
    hide Plus, Square, Residual;
    if xs == [] {
      assert MomentsOf(xs, ys) == Moments(0.0, 0.0, 0.0, 0.0, 0.0, 0.0);
    } else {
      hide MomentsOf, LineError;
      ResidualsExpand(xs[1..], ys[1..], a, b);
      MomentsStep(xs, ys);
      LineErrorPlus(MomentsOf(xs[1..], ys[1..]), xs[0], ys[0], a, b);
    }
  }

  function DeviationForm(m: Moments, mx: real, my: real): real { m.sxy - my * m.sx - mx * m.sy + m.n * (mx * my) }

  lemma DeviationPlus(m: Moments, x: real, y: real, mx: real, my: real)
    ensures DeviationForm(Plus(m, x, y), mx, my) == Deviation(x, y, mx, my) + DeviationForm(m, mx, my)
  {
    assert Deviation(x, y, mx, my) == x * y - my * x - mx * y + mx * my;
    assert my * (m.sx + x) == my * m.sx + my * x;
    assert mx * (m.sy + y) == mx * m.sy + mx * y;
    assert (m.n + 1.0) * (mx * my) == m.n * (mx * my) + mx * my;
  }

  lemma {:induction false} DeviationsExpand(xs: seq<real>, ys: seq<real>, mx: real, my: real)
    requires |xs| == |ys|
    ensures SumDeviations(xs, ys, mx, my) == DeviationForm(MomentsOf(xs, ys), mx, my)
  {
    hide Plus, Deviation;
    if xs == [] {
      assert MomentsOf(xs, ys) == Moments(0.0, 0.0, 0.0, 0.0, 0.0, 0.0);
    } else {
      hide MomentsOf, DeviationForm;
      DeviationsExpand(xs[1..], ys[1..], mx, my);
      MomentsStep(xs, ys);
      DeviationPlus(MomentsOf(xs[1..], ys[1..]), xs[0], ys[0], mx, my);
    }
  }

  lemma Distribute(k: real, head: real, tail: real)
    ensures k * (head + tail) == k * head + k * tail
  {
  }

  lemma {:induction false} SquaresNonNegative(xs: seq<real>, ys: seq<real>, a: real, b: real)
    requires |xs| == |ys|
    ensures SquaredResiduals(xs, ys, a, b) >= 0.0
  {
    if xs != [] {
      SquaresNonNegative(xs[1..], ys[1..], a, b);
      SquareSign(Residual(xs[0], ys[0], a, b));
    }
  }

  lemma {:induction false} DeviationSquaresZero(xs: seq<real>, m: real)
    ensures SumDeviations(xs, xs, m, m) >= 0.0
    ensures SumDeviations(xs, xs, m, m) == 0.0 <==> forall i :: 0 <= i < |xs| ==> xs[i] == m
  {
    if xs != [] {
      var tail := xs[1..];
      DeviationSquaresZero(tail, m);
      SquareSign(xs[0] - m);
      assert xs == [xs[0]] + tail;
      assert (forall i :: 0 <= i < |xs| ==> xs[i] == m) ==> forall i :: 0 <= i < |tail| ==> tail[i] == m;
    }
  }

  lemma {:induction false} SumOfConstant(xs: seq<real>, c: real)
    requires forall i :: 0 <= i < |xs| ==> xs[i] == c
    ensures Sum(xs) == c * Count(xs)
  {
    if xs != [] {
      SumOfConstant(xs[1..], c);
      Distribute(c, 1.0, Count(xs[1..]));
    }
  }

  lemma MeanTimesCount(xs: seq<real>)
    requires xs != []
    ensures Count(xs) > 0.0 && Count(xs) * Mean(xs) == Sum(xs)
  {
  }

  /** The variance is never negative and vanishes exactly when all values agree. */
  lemma VarianceZero(xs: seq<real>)
    requires xs != []
    ensures Variance(xs) >= 0.0
    ensures Variance(xs) == 0.0 <==> AllEqual(xs)
  {
    DeviationSquaresZero(xs, Mean(xs));
    if AllEqual(xs) {
      SumOfConstant(xs, xs[0]);
      assert Mean(xs) == xs[0];
    }
  }

  /** Variance and covariance, scaled by the number of points, in raw moments. */
  lemma RawMoments(xs: seq<real>, ys: seq<real>)
    requires xs != [] && |xs| == |ys|
    ensures Count(xs) * Covariance(xs, ys) == Count(xs) * SumProducts(xs, ys) - Sum(xs) * Sum(ys)
  {
    hide Sum, SumProducts, SumDeviations, Count, Mean;
    DeviationsExpand(xs, ys, Mean(xs), Mean(ys));
    MeanTimesCount(xs);
    MeanTimesCount(ys);
    SameCount(xs, ys);
    ScaledCovariance(Count(xs), SumProducts(xs, ys), Sum(xs), Sum(ys), Mean(xs), Mean(ys), Covariance(xs, ys));
  }

  lemma SameCount(xs: seq<real>, ys: seq<real>)
    requires |xs| == |ys|
    ensures Count(xs) == Count(ys)
  {
  }

  lemma ScaledCovariance(n: real, sxy: real, sx: real, sy: real, mx: real, my: real, covariance: real)
    requires n * mx == sx && n * my == sy
    requires covariance == sxy - my * sx - mx * sy + n * (mx * my)
    ensures n * covariance == n * sxy - sx * sy
  {
    assert n * (my * sx) == (n * my) * sx;
    assert n * (mx * sy) == (n * mx) * sy;
    assert n * (n * (mx * my)) == (n * mx) * (n * my);
  }

  // ---- the fit ----

  datatype Source = Empty | FixedOverride | SinglePointPerLine | LinearRegression | LinearRegressionClamped

  datatype Model = Model(source: Source, fixed: real, variable: real, r2: Option<real>)

  function Max0(x: real): real { if x < 0.0 then 0.0 else x }

  /** The slope and intercept before clamping. */
  function Slope(xs: seq<real>, ys: seq<real>): real
    requires xs != [] && |xs| == |ys|
  {
    if Variance(xs) != 0.0 then Covariance(xs, ys) / Variance(xs) else 0.0
  }

  function Intercept(xs: seq<real>, ys: seq<real>): real
    requires xs != [] && |xs| == |ys|
  {
    Mean(ys) - Slope(xs, ys) * Mean(xs)
  }

  /** What the fixed share leaves of the total, spread over the lines. */
  function Leftover(fixed: real, n: real, lines: real, total: real): real
    requires lines != 0.0
  {
    Max0((total - fixed * n) / lines)
  }

  /** `_linear_fixed_variable_model`. */
  function LinearModel(xs: seq<real>, ys: seq<real>, fixedOverride: Option<real>): Model
    requires |xs| == |ys|
  {
    if xs == [] then Model(Empty, 0.0, 0.0, None)
    else if fixedOverride.Some? then
      var fixed, total := Max0(fixedOverride.value), Sum(xs);
      Model(FixedOverride, fixed, if total != 0.0 then Leftover(fixed, Count(ys), total, Sum(ys)) else 0.0, None)
    else if AllEqual(xs) then
      Model(SinglePointPerLine, 0.0, if Sum(xs) != 0.0 then Sum(ys) / Sum(xs) else 0.0, None)
    else
      var variable, fixed := Slope(xs, ys), Intercept(xs, ys);
      var source := if fixed < 0.0 || variable < 0.0 then LinearRegressionClamped else LinearRegression;
      var ssTot := Total(ys);
      Model(source, Max0(fixed), Max0(variable),
            if ssTot != 0.0 then Some(1.0 - SquaredResiduals(xs, ys, Max0(fixed), Max0(variable)) / ssTot) else None)
  }

  /** The two normal equations. */
  ghost predicate Normal(m: Moments, a: real, b: real) {
    && a * m.n + b * m.sx == m.sy
    && a * m.sx + b * m.sxx == m.sxy
  }

  lemma SlopeTimesVariance(xs: seq<real>, ys: seq<real>)
    requires xs != [] && |xs| == |ys| && Variance(xs) != 0.0
    ensures Slope(xs, ys) * Variance(xs) == Covariance(xs, ys)
  {
    hide Variance, Covariance;
  }

  lemma FitIsNormal(xs: seq<real>, ys: seq<real>)
    requires |xs| == |ys| && !AllEqual(xs)
    ensures xs != [] && Normal(MomentsOf(xs, ys), Intercept(xs, ys), Slope(xs, ys))
  {
    hide Sum, SumProducts, Count, Mean, Variance, Covariance, Slope;
    VarianceZero(xs);
    MeanTimesCount(xs);
    MeanTimesCount(ys);
    SameCount(xs, ys);
    SlopeTimesVariance(xs, ys);
    RawMoments(xs, ys);
    RawMoments(xs, xs);
    CovarianceWithItself(xs);
    SolveNormal(MomentsOf(xs, ys), Mean(xs), Mean(ys), Slope(xs, ys), Intercept(xs, ys), Variance(xs),
                Covariance(xs, ys));
  }

  lemma SolveNormal(m: Moments, mx: real, my: real, v: real, f: real, variance: real, covariance: real)
    requires m.n > 0.0 && m.n * mx == m.sx && m.n * my == m.sy && v * variance == covariance && f == my - v * mx
    requires m.n * covariance == m.n * m.sxy - m.sx * m.sy && m.n * variance == m.n * m.sxx - m.sx * m.sx
    ensures Normal(m, f, v)
  {
    FirstNormal(m.n, m.sx, m.sy, mx, my, v);
    SecondNormal(m.n, m.sx, m.sy, m.sxx, m.sxy, f, v, variance, covariance);
  }

  lemma FirstNormal(n: real, sx: real, sy: real, mx: real, my: real, v: real)
    requires n * mx == sx && n * my == sy
    ensures (my - v * mx) * n + v * sx == sy
  {
    assert (my - v * mx) * n == n * my - v * (n * mx);
  }

  lemma SecondNormal(n: real, sx: real, sy: real, sxx: real, sxy: real, f: real, v: real, variance: real,
                     covariance: real)
    requires n > 0.0 && f * n + v * sx == sy && v * variance == covariance
    requires n * covariance == n * sxy - sx * sy && n * variance == n * sxx - sx * sx
    ensures f * sx + v * sxx == sxy
  {
    assert (f * n) * sx + v * (sx * sx) == sy * sx by { assert (f * n + v * sx) * sx == sy * sx; }
    assert v * (n * variance) == n * covariance;
    assert v * (n * sxx - sx * sx) == v * (n * sxx) - v * (sx * sx);
    assert n * (f * sx + v * sxx) == (f * n) * sx + v * (n * sxx);
    Cancel(n, f * sx + v * sxx, sxy);
  }

  lemma Cancel(n: real, a: real, b: real)
    requires n > 0.0 && n * a == n * b
    ensures a == b
  {
    assert a == (n * a) / n && b == (n * b) / n;
  }

  function WeightedError(m: Moments, a: real, b: real): real { m.sxy - a * m.sx - b * m.sxx }

  lemma WeightedErrorPlus(m: Moments, x: real, y: real, a: real, b: real)
    ensures WeightedError(Plus(m, x, y), a, b) == Weighted(x, x, y, a, b) + WeightedError(m, a, b)
  {
    assert Weighted(x, x, y, a, b) == x * y - a * x - b * (x * x);
    assert a * (m.sx + x) == a * m.sx + a * x;
    assert b * (m.sxx + x * x) == b * m.sxx + b * (x * x);
  }

  lemma {:induction false} WeightedResidualsExpand(xs: seq<real>, ys: seq<real>, a: real, b: real)
    requires |xs| == |ys|
    ensures WeightedResiduals(xs, ys, xs, a, b) == WeightedError(MomentsOf(xs, ys), a, b)
  {
    hide Plus, Weighted;
    if xs == [] {
      assert MomentsOf(xs, ys) == Moments(0.0, 0.0, 0.0, 0.0, 0.0, 0.0);
    } else {
      hide MomentsOf, WeightedError;
      WeightedResidualsExpand(xs[1..], ys[1..], a, b);
      MomentsStep(xs, ys);
      WeightedErrorPlus(MomentsOf(xs[1..], ys[1..]), xs[0], ys[0], a, b);
    }
  }

  lemma {:induction false} PlainResidualsExpand(xs: seq<real>, ys: seq<real>, a: real, b: real)
    requires |xs| == |ys|
    ensures WeightedResiduals(xs, ys, Ones(|xs|), a, b) == Sum(ys) - (a * Count(xs) + b * Sum(xs))
  {
    if xs != [] {
      PlainResidualsExpand(xs[1..], ys[1..], a, b);
      assert Ones(|xs|)[1..] == Ones(|xs[1..]|);
      Distribute(a, 1.0, Count(xs[1..]));
      Distribute(b, xs[0], Sum(xs[1..]));
    }
  }

  function Ones(n: nat): (s: seq<real>)
    ensures |s| == n
  {
    seq(n, _ => 1.0)
  }

  /** The unclamped fit's residuals sum to zero and are uncorrelated with x. */
  lemma ResidualsVanish(xs: seq<real>, ys: seq<real>)
    requires |xs| == |ys| && !AllEqual(xs)
    ensures xs != []
    ensures WeightedResiduals(xs, ys, Ones(|xs|), Intercept(xs, ys), Slope(xs, ys)) == 0.0
    ensures WeightedResiduals(xs, ys, xs, Intercept(xs, ys), Slope(xs, ys)) == 0.0
  {
    hide Slope, Intercept, Sum, SumProducts, Count, WeightedResiduals, Ones;
    FitIsNormal(xs, ys);
    WeightedResidualsExpand(xs, ys, Intercept(xs, ys), Slope(xs, ys));
    PlainResidualsExpand(xs, ys, Intercept(xs, ys), Slope(xs, ys));
  }

  function Rise(x: real, p: real, q: real): real { p + q * x }

  /** What moving a least-squares line by (p, q) adds to its squared residuals. */
  function Excess(xs: seq<real>, p: real, q: real): (e: real)
    ensures e >= 0.0
  {
    if xs == [] then 0.0
    else
      SquareSign(Rise(xs[0], p, q));
      Square(Rise(xs[0], p, q)) + Excess(xs[1..], p, q)
  }

  function ExcessForm(m: Moments, p: real, q: real): real {
    p * p * m.n + 2.0 * (p * q * m.sx) + q * q * m.sxx
  }

  lemma ExcessPlus(m: Moments, x: real, y: real, p: real, q: real)
    ensures ExcessForm(Plus(m, x, y), p, q) == Square(Rise(x, p, q)) + ExcessForm(m, p, q)
  {
    assert Square(Rise(x, p, q)) == p * p + 2.0 * (p * q * x) + q * q * (x * x);
    assert p * p * (m.n + 1.0) == p * p * m.n + p * p;
    assert p * q * (m.sx + x) == p * q * m.sx + p * q * x;
    assert q * q * (m.sxx + x * x) == q * q * m.sxx + q * q * (x * x);
  }

  lemma {:induction false} ExcessExpand(xs: seq<real>, ys: seq<real>, p: real, q: real)
    requires |xs| == |ys|
    ensures Excess(xs, p, q) == ExcessForm(MomentsOf(xs, ys), p, q)
  {
    hide Plus, Square, Rise;
    if xs == [] {
      assert MomentsOf(xs, ys) == Moments(0.0, 0.0, 0.0, 0.0, 0.0, 0.0);
    } else {
      hide MomentsOf, ExcessForm;
      ExcessExpand(xs[1..], ys[1..], p, q);
      MomentsStep(xs, ys);
      ExcessPlus(MomentsOf(xs[1..], ys[1..]), xs[0], ys[0], p, q);
    }
  }

  /** The sum of squares of any line is that of a line meeting the normal equations plus the excess. */
  lemma Pythagoras(xs: seq<real>, ys: seq<real>, a0: real, b0: real, a: real, b: real)
    requires |xs| == |ys| && Normal(MomentsOf(xs, ys), a0, b0)
    ensures SquaredResiduals(xs, ys, a, b) == SquaredResiduals(xs, ys, a0, b0) + Excess(xs, a - a0, b - b0)
  {
    hide Normal, LineError, ExcessForm, SquaredResiduals, Excess, Sum, SumProducts, Count;
    ResidualsExpand(xs, ys, a, b);
    ResidualsExpand(xs, ys, a0, b0);
    ExcessExpand(xs, ys, a - a0, b - b0);
    CompleteSquare(MomentsOf(xs, ys), a0, b0, a - a0, b - b0);
    assert a0 + (a - a0) == a && b0 + (b - b0) == b;
  }

  lemma CompleteSquare(m: Moments, a0: real, b0: real, p: real, q: real)
    requires Normal(m, a0, b0)
    ensures LineError(m, a0 + p, b0 + q) == LineError(m, a0, b0) + ExcessForm(m, p, q)
  {
    CrossTerms(m, a0, b0, p, q);
    SquareSums(m, a0, b0, p, q);
  }

  /** The terms linear in (p, q) cancel. */
  lemma CrossTerms(m: Moments, a0: real, b0: real, p: real, q: real)
    requires Normal(m, a0, b0)
    ensures p * m.sy == a0 * p * m.n + b0 * p * m.sx
    ensures q * m.sxy == a0 * q * m.sx + b0 * q * m.sxx
  {
    assert p * (a0 * m.n + b0 * m.sx) == a0 * p * m.n + b0 * p * m.sx;
    assert q * (a0 * m.sx + b0 * m.sxx) == a0 * q * m.sx + b0 * q * m.sxx;
  }

  lemma SquareSums(m: Moments, a0: real, b0: real, p: real, q: real)
    ensures LineError(m, a0 + p, b0 + q)
         == LineError(m, a0, b0) + ExcessForm(m, p, q)
            + 2.0 * (a0 * p * m.n + b0 * p * m.sx - p * m.sy) + 2.0 * (a0 * q * m.sx + b0 * q * m.sxx - q * m.sxy)
  {
    assert (a0 + p) * m.sy == a0 * m.sy + p * m.sy;
    assert (b0 + q) * m.sxy == b0 * m.sxy + q * m.sxy;
    assert (a0 + p) * (a0 + p) * m.n == a0 * a0 * m.n + 2.0 * (a0 * p * m.n) + p * p * m.n;
    assert (a0 + p) * (b0 + q) * m.sx == a0 * b0 * m.sx + b0 * p * m.sx + a0 * q * m.sx + p * q * m.sx;
    assert (b0 + q) * (b0 + q) * m.sxx == b0 * b0 * m.sxx + 2.0 * (b0 * q * m.sxx) + q * q * m.sxx;
  }

  /** The unclamped fit minimises the sum of squared residuals over all lines. */
  lemma FitIsLeastSquares(xs: seq<real>, ys: seq<real>, a: real, b: real)
    requires |xs| == |ys| && !AllEqual(xs)
    ensures xs != [] && SquaredResiduals(xs, ys, Intercept(xs, ys), Slope(xs, ys)) <= SquaredResiduals(xs, ys, a, b)
  {
    hide Slope, Intercept, SquaredResiduals, Normal;
    FitIsNormal(xs, ys);
    Pythagoras(xs, ys, Intercept(xs, ys), Slope(xs, ys), a, b);
  }

  lemma {:induction false} FlatLine(xs: seq<real>, ys: seq<real>, m: real)
    requires |xs| == |ys|
    ensures SquaredResiduals(xs, ys, m, 0.0) == SumDeviations(ys, ys, m, m)
  {
    if xs != [] { FlatLine(xs[1..], ys[1..], m); }
  }

  /** The total sum of squares. */
  function Total(ys: seq<real>): real
    requires ys != []
  {
    SumDeviations(ys, ys, Mean(ys), Mean(ys))
  }

  /** What the unclamped fit explains of the total. */
  function Explained(xs: seq<real>, ys: seq<real>): real
    requires xs != [] && |xs| == |ys|
  {
    Total(ys) - SquaredResiduals(xs, ys, Intercept(xs, ys), Slope(xs, ys))
  }

  /** How far clamping moves the line: what it adds to the squared residuals. */
  function ClampingCost(xs: seq<real>, ys: seq<real>): real
    requires xs != [] && |xs| == |ys|
  {
    Excess(xs, Max0(Intercept(xs, ys)) - Intercept(xs, ys), Max0(Slope(xs, ys)) - Slope(xs, ys))
  }

  /** Raw moments around the mean. */
  lemma CenteredForm(n: real, sx: real, sxx: real, mx: real, variance: real, p: real, q: real)
    requires n > 0.0 && n * mx == sx && n * variance == n * sxx - sx * sx
    ensures p * p * n + 2.0 * (p * q * sx) + q * q * sxx == Moved(n, mx, variance, p, q)
  {
    MeanVariance(n, sx, sxx, mx, variance);
    assert Square(p + q * mx) == p * p + 2.0 * (p * q * mx) + q * q * (mx * mx);
    assert n * Square(p + q * mx) == p * p * n + 2.0 * (p * q * (n * mx)) + q * q * (n * (mx * mx));
    assert Square(q) * variance == q * q * sxx - q * q * (n * (mx * mx));
  }

  lemma MeanVariance(n: real, sx: real, sxx: real, mx: real, variance: real)
    requires n > 0.0 && n * mx == sx && n * variance == n * sxx - sx * sx
    ensures variance == sxx - n * (mx * mx)
  {
    assert sx * sx == n * (n * (mx * mx));
    assert n * (sxx - n * (mx * mx)) == n * sxx - n * (n * (mx * mx));
    Cancel(n, variance, sxx - n * (mx * mx));
  }

  /** A shift of the line at the mean, once per point, and a turn, weighted by the variance. */
  function Moved(n: real, mx: real, variance: real, p: real, q: real): real {
    n * Square(p + q * mx) + Square(q) * variance
  }

  /** Moving a line costs its shift at the mean, once per point, and its turn, weighted by the variance. */
  lemma ExcessCentered(xs: seq<real>, p: real, q: real)
    requires xs != []
    ensures Excess(xs, p, q) == Moved(Count(xs), Mean(xs), Variance(xs), p, q)
  {
    hide Sum, SumProducts, Count, Mean, Variance, Covariance, Moved, Excess;
    ExcessExpand(xs, xs, p, q);
    MeanTimesCount(xs);
    RawMoments(xs, xs);
    CovarianceWithItself(xs);
    CenteredForm(Count(xs), Sum(xs), SumProducts(xs, xs), Mean(xs), Variance(xs), p, q);
  }

  /** The fit explains its squared slope times the variance of x. */
  lemma ExplainedIs(xs: seq<real>, ys: seq<real>)
    requires |xs| == |ys| && !AllEqual(xs)
    ensures xs != [] && Explained(xs, ys) == Square(Slope(xs, ys)) * Variance(xs)
  {
    hide Slope, SquaredResiduals, SumDeviations, Mean, Count, Variance, Square, Excess, Normal, Moved;
    FitIsNormal(xs, ys);
    FlatLine(xs, ys, Mean(ys));
    var b, mx := Slope(xs, ys), Mean(xs);
    Pythagoras(xs, ys, Intercept(xs, ys), b, Mean(ys), 0.0);
    assert Mean(ys) - Intercept(xs, ys) == b * mx && 0.0 - b == -b;
    ExcessCentered(xs, b * mx, -b);
    TurnAtMean(Count(xs), mx, Variance(xs), b);
  }

  /** Turning a line around the mean shifts it nowhere there. */
  lemma TurnAtMean(n: real, mx: real, v: real, b: real)
    ensures Moved(n, mx, v, b * mx, -b) == Square(b) * v
  {
    assert b * mx + (-b) * mx == 0.0;
    assert Square(-b) == Square(b);
  }

  lemma NotMoved(n: real, mx: real, v: real)
    ensures Moved(n, mx, v, 0.0, 0.0) == 0.0
  {
  }

  lemma Raised(n: real, mx: real, v: real, a: real)
    ensures Moved(n, mx, v, 0.0 - a, 0.0) == n * Square(a)
  {
    SquareOfNegation(a);
  }

  lemma Flattened(n: real, mx: real, v: real, b: real)
    ensures Moved(n, mx, v, 0.0, 0.0 - b) == n * Square(b * mx) + Square(b) * v
  {
    SquareOfNegation(b);
    SquareOfNegation(b * mx);
    assert (0.0 - b) * mx == -(b * mx);
  }

  lemma Zeroed(n: real, mx: real, v: real, a: real, b: real)
    ensures Moved(n, mx, v, 0.0 - a, 0.0 - b) == n * Square(a + b * mx) + Square(b) * v
  {
    SquareOfNegation(b);
    SquareOfNegation(a + b * mx);
    assert (0.0 - a) + (0.0 - b) * mx == -(a + b * mx);
  }

  /** When clamping the line  y = a + b * x  leaves it no worse than the flat line: nothing is clamped; or only
      the intercept is, and raising the line to the origin costs no more than its slope explains; or the slope
      is, and the level it is then left at has mean zero: of x, or of y (which is a + b times the mean of x)
      when both are clamped. */
  predicate NoWorseThanFlat(a: real, b: real, n: real, mx: real, v: real) {
    if b < 0.0 then (if a >= 0.0 then mx == 0.0 else a + b * mx == 0.0)
    else a >= 0.0 || n * (a * a) <= (b * b) * v
  }

  lemma ClampingWithin(a: real, b: real, n: real, mx: real, v: real)
    requires n > 0.0 && v >= 0.0
    ensures Moved(n, mx, v, Max0(a) - a, Max0(b) - b) <= Square(b) * v <==> NoWorseThanFlat(a, b, n, mx, v)
  {
    hide Moved, Square;
    SquareSign(b);
    ProductNonNegative(Square(b), v);
    if b >= 0.0 {
      if a >= 0.0 {
        NotMoved(n, mx, v);
      } else {
        Raised(n, mx, v, a);
        RaisedWithin(n, v, a, b);
      }
    } else if a >= 0.0 {
      Flattened(n, mx, v, b);
      ScaledSquareSign(n, b * mx);
      NonZeroFactor(b, mx);
    } else {
      Zeroed(n, mx, v, a, b);
      ScaledSquareSign(n, a + b * mx);
    }
  }

  lemma RaisedWithin(n: real, v: real, a: real, b: real)
    ensures n * Square(a) <= Square(b) * v <==> n * (a * a) <= (b * b) * v
  {
  }

  lemma NonZeroFactor(b: real, x: real)
    requires b < 0.0
    ensures b * x == 0.0 <==> x == 0.0
  {
    assert x > 0.0 ==> b * x < 0.0;
    assert x < 0.0 ==> b * x > 0.0;
  }

  /** The condition for the fit of the given points. */
  predicate FitNoWorseThanFlat(xs: seq<real>, ys: seq<real>)
    requires xs != [] && |xs| == |ys|
  {
    NoWorseThanFlat(Intercept(xs, ys), Slope(xs, ys), Count(xs), Mean(xs), Variance(xs))
  }

  lemma CostWithinExplained(xs: seq<real>, ys: seq<real>)
    requires |xs| == |ys| && !AllEqual(xs)
    ensures xs != [] && (ClampingCost(xs, ys) <= Explained(xs, ys) <==> FitNoWorseThanFlat(xs, ys))
  {
    hide Intercept, Slope, Mean, Count, Variance, Explained, Square, AllEqual, Moved, Excess, NoWorseThanFlat;
    NotEmpty(xs);
    var a, b := Intercept(xs, ys), Slope(xs, ys);
    MeanTimesCount(xs);
    VarianceZero(xs);
    ExplainedIs(xs, ys);
    ExcessCentered(xs, Max0(a) - a, Max0(b) - b);
    ClampingWithin(a, b, Count(xs), Mean(xs), Variance(xs));
  }

  lemma ProductNonNegative(x: real, y: real)
    requires x >= 0.0 && y >= 0.0
    ensures x * y >= 0.0
  {
  }

  lemma ScaledSquareSign(n: real, x: real)
    requires n > 0.0
    ensures n * Square(x) >= 0.0 && (n * Square(x) == 0.0 <==> x == 0.0)
  {
    SquareSign(x);
    hide Square;
    ProductSign(n, Square(x));
  }

  /** R squared is missing exactly when all y agree. Otherwise it is at most 1, and its sign is told by slope,
      intercept, means and variance. */
  lemma RSquaredRange(xs: seq<real>, ys: seq<real>)
    requires |xs| == |ys| && !AllEqual(xs)
    ensures xs != []
    ensures LinearModel(xs, ys, None).r2 == None <==> AllEqual(ys)
    ensures !AllEqual(ys) ==> LinearModel(xs, ys, None).r2.value <= 1.0
    ensures !AllEqual(ys) ==> (LinearModel(xs, ys, None).r2.value >= 0.0 <==> FitNoWorseThanFlat(xs, ys))
  {
    hide Slope, Intercept, SquaredResiduals, SumDeviations, Mean, Max0, Normal, AllEqual, Excess, FitNoWorseThanFlat;
    NotEmpty(xs);
    var a, b := Max0(Intercept(xs, ys)), Max0(Slope(xs, ys));
    VarianceZero(ys);
    SquaresNonNegative(xs, ys, a, b);
    FitIsNormal(xs, ys);
    Pythagoras(xs, ys, Intercept(xs, ys), Slope(xs, ys), a, b);
    CostWithinExplained(xs, ys);
    if !AllEqual(ys) { RatioAtMostOne(SquaredResiduals(xs, ys, a, b), Total(ys)); }
  }

  /** The model of a spread of line counts is the line that misses the costs least, with a negative intercept or
      slope raised to zero and marked as such; R squared is the share of the squares around the mean that this
      line explains. */
  lemma ModelIsBestLine(xs: seq<real>, ys: seq<real>, a: real, b: real)
    requires |xs| == |ys| && !AllEqual(xs)
    requires forall a', b' :: SquaredResiduals(xs, ys, a, b) <= SquaredResiduals(xs, ys, a', b')
    ensures var m := LinearModel(xs, ys, None);
      && m.fixed == (if a < 0.0 then 0.0 else a) && m.variable == (if b < 0.0 then 0.0 else b)
      && m.source == (if a < 0.0 || b < 0.0 then LinearRegressionClamped else LinearRegression)
      && xs != [] && (m.r2.Some? ==>
           var around := SquaredResiduals(xs, ys, Mean(ys), 0.0);
           m.r2.value * around == around - SquaredResiduals(xs, ys, m.fixed, m.variable))
  {
    hide Slope, Intercept, SquaredResiduals, SumDeviations, Mean, Normal, AllEqual, Excess;
    NotEmpty(xs);
    var a0, b0 := Intercept(xs, ys), Slope(xs, ys);
    FitIsNormal(xs, ys);
    Pythagoras(xs, ys, a0, b0, a, b);
    assert SquaredResiduals(xs, ys, a, b) <= SquaredResiduals(xs, ys, a0, b0);
    NoExcessNoMove(xs, a - a0, b - b0);
    assert a == a0 && b == b0;
    FlatLine(xs, ys, Mean(ys));
    if Total(ys) != 0.0 {
      RatioTimes(SquaredResiduals(xs, ys, Max0(a), Max0(b)), Total(ys));
    }
  }

  lemma NoExcessNoMove(xs: seq<real>, p: real, q: real)
    requires !AllEqual(xs) && Excess(xs, p, q) <= 0.0
    ensures p == 0.0 && q == 0.0
  {
    hide Excess, AllEqual, Mean, Variance, Count, Square;
    NotEmpty(xs);
    MeanTimesCount(xs);
    VarianceZero(xs);
    ExcessCentered(xs, p, q);
    ScaledSquareSign(Count(xs), p + q * Mean(xs));
    ScaledSquareSign(Variance(xs), q);
  }

  lemma RatioTimes(part: real, whole: real)
    requires whole != 0.0
    ensures (1.0 - part / whole) * whole == whole - part
  {
  }

  /** With an override the fixed share is the override, at least zero; what it leaves is spread over the lines,
      and when it leaves nothing, or there are no lines, the lines cost nothing. One line count for all gives no
      fixed share at all. */
  lemma OtherModels(xs: seq<real>, ys: seq<real>, fixed: real)
    requires |xs| == |ys| && xs != []
    ensures var m := LinearModel(xs, ys, Some(fixed));
      && m.source == FixedOverride && m.r2 == None && m.fixed == (if fixed < 0.0 then 0.0 else fixed)
      && m.variable >= 0.0
      && (Sum(xs) == 0.0 || (Sum(xs) > 0.0 && m.fixed * Count(ys) >= Sum(ys)) ==> m.variable == 0.0)
    ensures AllEqual(xs) ==> var m := LinearModel(xs, ys, None);
      m.source == SinglePointPerLine && m.r2 == None && m.fixed == 0.0 && (Sum(xs) == 0.0 ==> m.variable == 0.0)
    ensures LinearModel([], [], None) == LinearModel([], [], Some(fixed)) == Model(Empty, 0.0, 0.0, None)
  {
    hide Sum, Count, AllEqual;
    if Sum(xs) > 0.0 { QuotientSign(Sum(ys) - Max0(fixed) * Count(ys), Sum(xs)); }
  }

  lemma QuotientSign(a: real, b: real)
    requires b > 0.0
    ensures a <= 0.0 ==> a / b <= 0.0
  {
  }

  /** On calibration data a falling cost always reports a negative R squared. */
  lemma FallingCostIsNegative(xs: seq<real>, ys: seq<real>)
    requires |xs| == |ys| && !AllEqual(xs) && !AllEqual(ys) && xs != [] && Covariance(xs, ys) < 0.0
    requires (forall i :: 0 <= i < |xs| ==> xs[i] >= 0.0) && (forall i :: 0 <= i < |ys| ==> ys[i] >= 0.0)
    ensures LinearModel(xs, ys, None).r2.Some? && LinearModel(xs, ys, None).r2.value < 0.0
  {
    hide LinearModel, Covariance, Variance, Mean, Count;
    RSquaredRange(xs, ys);
    VarianceZero(xs);
    SlopeTimesVariance(xs, ys);
    NegativeFactor(Slope(xs, ys), Variance(xs));
    PositiveMean(xs);
    PositiveMean(ys);
    NegativeTimesPositive(Slope(xs, ys), Mean(xs));
  }

  lemma NegativeFactor(b: real, v: real)
    requires v > 0.0 && b * v < 0.0
    ensures b < 0.0
  {
    assert b >= 0.0 ==> b * v >= 0.0;
  }

  lemma NegativeTimesPositive(b: real, m: real)
    requires b < 0.0 && m > 0.0
    ensures b * m < 0.0
  {
  }

  lemma {:induction false} SumNonNegative(xs: seq<real>)
    requires forall i :: 0 <= i < |xs| ==> xs[i] >= 0.0
    ensures Sum(xs) >= 0.0 && (Sum(xs) == 0.0 ==> forall i :: 0 <= i < |xs| ==> xs[i] == 0.0)
  {
    if xs != [] {
      SumNonNegative(xs[1..]);
      assert xs == [xs[0]] + xs[1..];
    }
  }

  lemma PositiveMean(xs: seq<real>)
    requires !AllEqual(xs) && forall i :: 0 <= i < |xs| ==> xs[i] >= 0.0
    ensures xs != [] && Mean(xs) > 0.0
  {
    SumNonNegative(xs);
  }

  lemma NotEmpty(xs: seq<real>)
    requires !AllEqual(xs)
    ensures xs != []
  {
  }

  lemma RatioAtMostOne(part: real, whole: real)
    requires part >= 0.0 && whole > 0.0
    ensures part / whole >= 0.0 && (part / whole <= 1.0 <==> part <= whole)
  {
    var q := part / whole;
    assert q * whole == part;
    assert q < 0.0 ==> q * whole < 0.0;
    assert q <= 1.0 ==> q * whole <= whole;
    assert q > 1.0 ==> q * whole > whole;
  }

  /** Without clamping R squared lies between 0 and 1. */
  lemma UnclampedRSquared(xs: seq<real>, ys: seq<real>)
    requires |xs| == |ys| && LinearModel(xs, ys, None).source == LinearRegression && !AllEqual(ys)
    ensures LinearModel(xs, ys, None).r2.Some?
    ensures 0.0 <= LinearModel(xs, ys, None).r2.value <= 1.0
  {
    hide Slope, Intercept, Total, Mean, AllEqual, SquaredResiduals;
    RSquaredRange(xs, ys);
  }

  lemma TwoSums(x0: real, x1: real)
    ensures Mean([x0, x1]) == (x0 + x1) / 2.0
  {
    assert [x0, x1][1..] == [x1] && [x1][1..] == [];
    assert Sum([x1]) == x1;
  }

  lemma TwoDeviations(x0: real, x1: real, y0: real, y1: real, mx: real, my: real)
    ensures SumDeviations([x0, x1], [y0, y1], mx, my) == Deviation(x0, y0, mx, my) + Deviation(x1, y1, mx, my)
  {
    hide Deviation;
    assert [x0, x1][1..] == [x1] && [y0, y1][1..] == [y1] && [x1][1..] == [] && [y1][1..] == [];
    assert SumDeviations([x1], [y1], mx, my) == Deviation(x1, y1, mx, my);
  }

  lemma TwoResiduals(x0: real, x1: real, y0: real, y1: real, a: real, b: real)
    ensures SquaredResiduals([x0, x1], [y0, y1], a, b)
         == Square(Residual(x0, y0, a, b)) + Square(Residual(x1, y1, a, b))
  {
    hide Square, Residual;
    assert [x0, x1][1..] == [x1] && [y0, y1][1..] == [y1] && [x1][1..] == [] && [y1][1..] == [];
    assert SquaredResiduals([x1], [y1], a, b) == Square(Residual(x1, y1, a, b));
  }

  /** With clamping it need not: a falling cost reports a negative R squared. */
  lemma ClampedRSquaredCanBeNegative()
    ensures LinearModel([0.0, 1.0], [1.0, 0.0], None) == Model(LinearRegressionClamped, 1.0, 0.0, Some(-1.0))
  {
    hide Sum, Count, Mean, SumDeviations, SquaredResiduals;
    var xs, ys := [0.0, 1.0], [1.0, 0.0];
    TwoSums(0.0, 1.0);
    TwoSums(1.0, 0.0);
    TwoDeviations(0.0, 1.0, 0.0, 1.0, 0.5, 0.5);
    TwoDeviations(0.0, 1.0, 1.0, 0.0, 0.5, 0.5);
    TwoDeviations(1.0, 0.0, 1.0, 0.0, 0.5, 0.5);
    TwoResiduals(0.0, 1.0, 1.0, 0.0, 1.0, 0.0);
    assert xs[0] != xs[1];
  }

  /** `_estimate_from_two_part_model`. */
  function Forecast(classes: real, lines: real, m: Model): real { classes * m.fixed + lines * m.variable }

  /** Clamping the line moves it nowhere at the mean of x. */
  predicate KeepsMean(a: real, b: real, mx: real) {
    if b < 0.0 then (if a >= 0.0 then mx == 0.0 else a + b * mx == 0.0) else a >= 0.0
  }

  /** The lines can carry what the fixed share leaves of the total. */
  predicate RestCarried(fixed: real, n: real, sx: real, sy: real) {
    if sx > 0.0 then fixed * n <= sy else if sx < 0.0 then fixed * n >= sy else fixed * n == sy
  }

  /** When the model's forecast for its own calibration set is what that set cost: an override when the lines can carry
      the rest, a cost per line when there are lines to carry it, a fit when clamping keeps it at the mean. */
  predicate Reproduces(xs: seq<real>, ys: seq<real>, fixedOverride: Option<real>)
    requires |xs| == |ys|
  {
    if xs == [] then true
    else if fixedOverride.Some? then RestCarried(Max0(fixedOverride.value), Count(ys), Sum(xs), Sum(ys))
    else if AllEqual(xs) then Sum(xs) != 0.0 || Sum(ys) == 0.0
    else KeepsMean(Intercept(xs, ys), Slope(xs, ys), Mean(xs))
  }

  /** The forecast for the calibration set itself is what the set cost, exactly under that condition. */
  lemma TotalReproduced(xs: seq<real>, ys: seq<real>, fixedOverride: Option<real>)
    requires |xs| == |ys|
    ensures Forecast(Count(xs), Sum(xs), LinearModel(xs, ys, fixedOverride)) == Sum(ys)
         <==> Reproduces(xs, ys, fixedOverride)
  {
    hide Slope, Intercept, SquaredResiduals, Total, AllEqual, Count, Forecast, Leftover, Mean, RestCarried, KeepsMean;
    SameCount(xs, ys);
    if xs == [] {
      NoForecast(Count(xs));
    } else {
      hide Sum;
      if fixedOverride.Some? {
        Spread(Max0(fixedOverride.value), Count(xs), Sum(xs), Sum(ys));
      } else if AllEqual(xs) {
        PerLine(Count(xs), Sum(xs), Sum(ys));
      } else {
        FittedTotal(xs, ys, LinearModel(xs, ys, None).source, LinearModel(xs, ys, None).r2);
      }
    }
  }

  lemma NoForecast(n: real)
    ensures Forecast(n, 0.0, Model(Empty, 0.0, 0.0, None)) == 0.0
  {
  }

  lemma FittedTotal(xs: seq<real>, ys: seq<real>, source: Source, r2: Option<real>)
    requires |xs| == |ys| && !AllEqual(xs)
    ensures xs != []
    ensures Forecast(Count(xs), Sum(xs), Model(source, Max0(Intercept(xs, ys)), Max0(Slope(xs, ys)), r2)) == Sum(ys)
       <==> KeepsMean(Intercept(xs, ys), Slope(xs, ys), Mean(xs))
  {
    hide Slope, Intercept, Sum, SumProducts, Count, Mean, Max0, KeepsMean, Forecast;
    FitIsNormal(xs, ys);
    MeanTimesCount(xs);
    ClampedTotal(Count(xs), Sum(xs), Sum(ys), Mean(xs), Intercept(xs, ys), Slope(xs, ys), source, r2);
  }

  lemma ClampedTotal(n: real, sx: real, sy: real, mx: real, a: real, b: real, source: Source, r2: Option<real>)
    requires n > 0.0 && n * mx == sx && a * n + b * sx == sy
    ensures Forecast(n, sx, Model(source, Max0(a), Max0(b), r2)) == sy <==> KeepsMean(a, b, mx)
  {
    var p, q := Max0(a) - a, Max0(b) - b;
    assert n * Max0(a) == n * a + n * p && sx * Max0(b) == sx * b + sx * q;
    assert sx * q == n * (q * mx);
    ProductZero(n, p + q * mx);
    assert n * (p + q * mx) == n * p + n * (q * mx);
    if b < 0.0 {
      NonZeroFactor(b, mx);
      assert q * mx == -(b * mx);
    } else {
      assert q * mx == 0.0;
    }
  }

  lemma ProductZero(n: real, x: real)
    requires n > 0.0
    ensures n * x == 0.0 <==> x == 0.0
  {
    assert x > 0.0 ==> n * x > 0.0;
    assert x < 0.0 ==> n * x < 0.0;
  }

  lemma PerLine(n: real, sx: real, sy: real)
    ensures Forecast(n, sx, Model(SinglePointPerLine, 0.0, if sx != 0.0 then sy / sx else 0.0, None)) == sy
       <==> (sx != 0.0 || sy == 0.0)
  {
    if sx != 0.0 { assert sx * (sy / sx) == sy; }
  }

  lemma Spread(fixed: real, n: real, sx: real, sy: real)
    ensures Forecast(n, sx, Model(FixedOverride, fixed, if sx != 0.0 then Leftover(fixed, n, sx, sy) else 0.0, None))
         == sy
       <==> RestCarried(fixed, n, sx, sy)
  {
    if sx != 0.0 {
      var q := (sy - fixed * n) / sx;
      assert q * sx == sy - fixed * n;
      assert sx > 0.0 ==> (q < 0.0 ==> q * sx < 0.0) && (q >= 0.0 ==> q * sx >= 0.0);
      assert sx < 0.0 ==> (q < 0.0 ==> q * sx > 0.0) && (q >= 0.0 ==> q * sx <= 0.0);
    }
  }

  // ---- the estimator ----

  const MINIMUM_ROWS: nat := 5
  const FLOOR: real := 0.10

  function RawDenominator(xs: seq<real>): real {
    Count(xs) * SumProducts(xs, xs) - Sum(xs) * Sum(xs)
  }

  /** `_regression_estimate` on the rows it read. */
  function RegressionEstimate(xs: seq<real>, ys: seq<real>): Option<real>
    requires |xs| == |ys|
  {
    if |xs| < MINIMUM_ROWS then None
    else if RawDenominator(xs) == 0.0 then None
    else
      var slope := RawNumerator(xs, ys) / RawDenominator(xs);
      Some(if slope < FLOOR then FLOOR else slope)
  }

  function RawNumerator(xs: seq<real>, ys: seq<real>): real
    requires |xs| == |ys|
  {
    Count(xs) * SumProducts(xs, ys) - Sum(xs) * Sum(ys)
  }

  /** The raw-moment denominator is never negative and vanishes exactly when all x agree; otherwise the raw-moment
      slope, before its floor, is the least-squares slope. */
  lemma EstimatorAgrees(xs: seq<real>, ys: seq<real>)
    requires |xs| == |ys| && xs != []
    ensures RawDenominator(xs) >= 0.0
    ensures RawDenominator(xs) == 0.0 <==> AllEqual(xs)
    ensures !AllEqual(xs) ==> RawNumerator(xs, ys) / RawDenominator(xs) == Slope(xs, ys)
    ensures RegressionEstimate(xs, ys) ==
      if |xs| < 5 || AllEqual(xs) then None else Some(if Slope(xs, ys) < 0.10 then 0.10 else Slope(xs, ys))
  {
    hide Sum, SumProducts, Variance, Covariance, AllEqual;
    VarianceZero(xs);
    RawMoments(xs, xs);
    RawMoments(xs, ys);
    CovarianceWithItself(xs);
    ProductSign(Count(xs), Variance(xs));
    if Variance(xs) != 0.0 { ScaleRatio(Count(xs), Covariance(xs, ys), Variance(xs)); }
  }

  lemma CovarianceWithItself(xs: seq<real>)
    requires xs != []
    ensures Covariance(xs, xs) == Variance(xs)
  {
  }

  lemma ProductSign(n: real, v: real)
    requires n > 0.0 && v >= 0.0
    ensures n * v >= 0.0 && (n * v == 0.0 <==> v == 0.0)
  {
  }

  lemma ScaleRatio(n: real, a: real, b: real)
    requires n > 0.0 && b != 0.0
    ensures n * b != 0.0 && (n * a) / (n * b) == a / b
  {
    var q := a / b;
    assert q * b == a;
    assert n * b != 0.0;
    assert q * (n * b) == n * a;
  }
}
