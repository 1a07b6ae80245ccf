/**
 * The regression solver: slope and intercept from the four sigmas, in the
 * two conventions of getBestFit (y = m·x + b) and getLeastSquares
 * (y = a + b·x). Exact real arithmetic replaces the source's doubles, so a
 * zero denominator or an empty point set, which the source lets through to
 * produce NaN or infinity, is excluded by a precondition.
 */
module Solver {
  import opened Points
  import opened Sums

  /** N·Σx² − (Σx)², the denominator shared by both solvers. */
  function Denominator(sm: Summary, n: nat): real
  {
    Times(n as real, sm.sumXX) - Times(sm.sumX, sm.sumX)
  }

  /**
   * The normal equations of ordinary least squares for the line
   * y = intercept + slope·x:
   *   N·intercept + slope·Σx = Σy   and   intercept·Σx + slope·Σx² = Σxy.
   * Their solution is the line that minimises the sum of squared residuals.
   */
  predicate NormalEquations(sm: Summary, n: nat, intercept: real, slope: real)
  {
    && Times(n as real, intercept) + Times(slope, sm.sumX) == sm.sumY
    && Times(intercept, sm.sumX) + Times(slope, sm.sumXX) == sm.sumXY
  }

  /** getBestFit's outputs: baseline b and slope m of y = m·x + b. */
  datatype SlopeIntercept = SlopeIntercept(b: real, m: real)

  /** getLeastSquares's outputs: a and b of y = a + b·x. */
  datatype Coefficients = Coefficients(a: real, b: real)

  /**
   * getBestFit: m = (N·Σxy − Σx·Σy) / (N·Σx² − (Σx)²), then
   * b = (Σy − m·Σx) / N. The line it returns solves the normal equations.
   */
  function BestFit(data: seq<DataPoint>): (r: SlopeIntercept)
    requires |data| > 0
    requires Denominator(SummaryOf(data), |data|) != 0.0
    ensures NormalEquations(SummaryOf(data), |data|, r.b, r.m)
  {
    var sm := SummaryOf(data);
    var n := |data| as real;
    var m := (Times(n, sm.sumXY) - Times(sm.sumX, sm.sumY)) / Denominator(sm, |data|);
    var b := (sm.sumY - Times(m, sm.sumX)) / n;
    SlopeFirstSolves(n, sm.sumX, sm.sumY, sm.sumXX, sm.sumXY, m, b);
    SlopeIntercept(b, m)
  }

  /**
   * getLeastSquares: a = (Σy·Σx² − Σx·Σxy) / D and b = (N·Σxy − Σx·Σy) / D
   * with D = N·Σx² − (Σx)². The line it returns solves the normal equations.
   */
  function LeastSquares(data: seq<DataPoint>): (r: Coefficients)
    requires Denominator(SummaryOf(data), |data|) != 0.0
    ensures NormalEquations(SummaryOf(data), |data|, r.a, r.b)
  {
    var sm := SummaryOf(data);
    var n := |data| as real;
    var a := (Times(sm.sumY, sm.sumXX) - Times(sm.sumX, sm.sumXY)) / Denominator(sm, |data|);
    var b := (Times(n, sm.sumXY) - Times(sm.sumX, sm.sumY)) / Denominator(sm, |data|);
    CramerSolves(n, sm.sumX, sm.sumY, sm.sumXX, sm.sumXY, a, b);
    Coefficients(a, b)
  }

  /** The slope-first computation of getBestFit solves the normal equations. */
  lemma SlopeFirstSolves(n: real, sx: real, sy: real, sxx: real, sxy: real, m: real, b: real)
    requires n != 0.0
    requires Times(n, sxx) - Times(sx, sx) != 0.0
    requires m == (Times(n, sxy) - Times(sx, sy)) / (Times(n, sxx) - Times(sx, sx))
    requires b == (sy - Times(m, sx)) / n
    ensures Times(n, b) + Times(m, sx) == sy
    ensures Times(b, sx) + Times(m, sxx) == sxy
  {
    var d := n * sxx - sx * sx;
    assert m * d == n * sxy - sx * sy;
    assert n * b == sy - m * sx;
    assert n * (b * sx + m * sxx) == (sy - m * sx) * sx + m * (n * sxx);
    assert n * (b * sx + m * sxx) == sx * sy + m * d;
    assert n * (b * sx + m * sxx) == n * sxy;
  }

  /** Cramer's rule, as getLeastSquares applies it, solves the normal equations. */
  lemma CramerSolves(n: real, sx: real, sy: real, sxx: real, sxy: real, a: real, b: real)
    requires Times(n, sxx) - Times(sx, sx) != 0.0
    requires a == (Times(sy, sxx) - Times(sx, sxy)) / (Times(n, sxx) - Times(sx, sx))
    requires b == (Times(n, sxy) - Times(sx, sy)) / (Times(n, sxx) - Times(sx, sx))
    ensures Times(n, a) + Times(b, sx) == sy
    ensures Times(a, sx) + Times(b, sxx) == sxy
  {
    var d := Times(n, sxx) - Times(sx, sx);
    assert Times(a, d) == Times(sy, sxx) - Times(sx, sxy);
    assert Times(b, d) == Times(n, sxy) - Times(sx, sy);
    CramerRows(n, sx, sy, sxx, sxy, a, b, d);
    TimesCancel(Times(n, a) + Times(b, sx), sy, d);
    TimesCancel(Times(a, sx) + Times(b, sxx), sxy, d);
  }

  /** The algebra of CramerSolves, before cancelling the denominator d. */
  lemma CramerRows(n: real, sx: real, sy: real, sxx: real, sxy: real, a: real, b: real, d: real)
    requires d == Times(n, sxx) - Times(sx, sx)
    requires Times(a, d) == Times(sy, sxx) - Times(sx, sxy)
    requires Times(b, d) == Times(n, sxy) - Times(sx, sy)
    ensures Times(Times(n, a) + Times(b, sx), d) == Times(sy, d)
    ensures Times(Times(a, sx) + Times(b, sxx), d) == Times(sxy, d)
  {
    assert (n * a + b * sx) * d == n * (a * d) + sx * (b * d);
    assert (a * sx + b * sxx) * d == sx * (a * d) + sxx * (b * d);
  }

  /**
   * Any solution of the normal equations satisfies Cramer's rule:
   * intercept·D = Σy·Σx² − Σx·Σxy and slope·D = N·Σxy − Σx·Σy.
   */
  lemma SolutionIsCramer(n: real, sx: real, sy: real, sxx: real, sxy: real, a: real, b: real)
    requires Times(n, a) + Times(b, sx) == sy
    requires Times(a, sx) + Times(b, sxx) == sxy
    ensures Times(a, Times(n, sxx) - Times(sx, sx)) == Times(sy, sxx) - Times(sx, sxy)
    ensures Times(b, Times(n, sxx) - Times(sx, sx)) == Times(n, sxy) - Times(sx, sy)
  {
    assert sxx * (n * a + b * sx) == sxx * sy;
    assert sx * (a * sx + b * sxx) == sx * sxy;
    assert n * (a * sx + b * sxx) == n * sxy;
    assert sx * (n * a + b * sx) == sx * sy;
  }

  /** A non-zero factor cancels: u·d = v·d and d ≠ 0 give u = v. */
  lemma TimesCancel(u: real, v: real, d: real)
    requires d != 0.0
    requires Times(u, d) == Times(v, d)
    ensures u == v
  {
    assert (u - v) * d == 0.0;
  }

  /** With a non-zero denominator the normal equations have exactly one solution. */
  lemma NormalEquationsUnique(sm: Summary, n: nat, a1: real, b1: real, a2: real, b2: real)
    requires Denominator(sm, n) != 0.0
    requires NormalEquations(sm, n, a1, b1)
    requires NormalEquations(sm, n, a2, b2)
    ensures a1 == a2 && b1 == b2
  {
    SolutionIsCramer(n as real, sm.sumX, sm.sumY, sm.sumXX, sm.sumXY, a1, b1);
    SolutionIsCramer(n as real, sm.sumX, sm.sumY, sm.sumXX, sm.sumXY, a2, b2);
    TimesCancel(a1, a2, Denominator(sm, n));
    TimesCancel(b1, b2, Denominator(sm, n));
  }

  /**
   * The two conventions agree: getBestFit's slope m is getLeastSquares's b
   * and getBestFit's baseline b is getLeastSquares's a.
   */
  lemma BestFitAgreesWithLeastSquares(data: seq<DataPoint>)
    requires |data| > 0
    requires Denominator(SummaryOf(data), |data|) != 0.0
    ensures BestFit(data).m == LeastSquares(data).b
    ensures BestFit(data).b == LeastSquares(data).a
  {
    var f, g := BestFit(data), LeastSquares(data);
    NormalEquationsUnique(SummaryOf(data), |data|, f.b, f.m, g.a, g.b);
  }

  /** All x values are equal (vacuously so for no points). */
  predicate AllXEqual(s: seq<DataPoint>)
  {
    forall i, j :: 0 <= i < |s| && 0 <= j < |s| ==> s[i].x == s[j].x
  }

  /** Adding the point p to s grows the denominator by Σ(x − p.x)² over s. */
  lemma DenominatorGrows(s: seq<DataPoint>, p: DataPoint)
    ensures Denominator(SummaryOf(s + [p]), |s| + 1)
         == Denominator(SummaryOf(s), |s|) + SqDev(s, p.x)
  {
    var s' := s + [p];
    assert s'[..|s'| - 1] == s && s'[|s'| - 1] == p;
    SqDevExpanded(s, p.x);
    DenominatorStep(|s| as real, SumX(s), SumXX(s), p.x, (|s| + 1) as real, SumX(s'), SumXX(s'));
  }

  /**
   * The algebra of DenominatorGrows: with n' = n + 1, X' = X + a and
   * Q' = Q + a², n'·Q' − X'² = (n·Q − X²) + (Q − 2a·X + n·a²).
   */
  lemma DenominatorStep(n: real, sx: real, sxx: real, a: real, n': real, sx': real, sxx': real)
    requires n' == n + 1.0 && sx' == sx + a && sxx' == sxx + Times(a, a)
    ensures Times(n', sxx') - Times(sx', sx')
         == (Times(n, sxx) - Times(sx, sx)) + (sxx - 2.0 * Times(a, sx) + Times(n, Times(a, a)))
  {
    assert (n + 1.0) * (sxx + a * a) == n * sxx + sxx + n * (a * a) + a * a;
    assert (sx + a) * (sx + a) == sx * sx + 2.0 * (a * sx) + a * a;
  }

  /**
   * N·Σx² − (Σx)² is never negative, and it is zero exactly when all x
   * values are equal: the degenerate case where both solvers divide by zero.
   */
  lemma {:induction false} DenominatorZeroIff(s: seq<DataPoint>)
    ensures Denominator(SummaryOf(s), |s|) >= 0.0
    ensures Denominator(SummaryOf(s), |s|) == 0.0 <==> AllXEqual(s)
  {
    if s != [] {
      var init, p := s[..|s| - 1], s[|s| - 1];
      assert s == init + [p];
      DenominatorZeroIff(init);
      DenominatorGrows(init, p);
      SqDevZeroIff(init, p.x);
      if AllXEqual(s) {
        assert AllXEqual(init) by {
          forall i, j | 0 <= i < |init| && 0 <= j < |init| ensures init[i].x == init[j].x {
            assert init[i] == s[i] && init[j] == s[j];
          }
        }
        forall i | 0 <= i < |init| ensures init[i].x == p.x {
          assert init[i] == s[i];
        }
      }
      if Denominator(SummaryOf(s), |s|) == 0.0 {
        forall i, j | 0 <= i < |s| && 0 <= j < |s| ensures s[i].x == s[j].x {
          if i < |init| { assert s[i] == init[i]; }
          if j < |init| { assert s[j] == init[j]; }
        }
      }
    }
  }

  /**
   * A noise-free input is fitted exactly: when every point lies on
   * y = m·x + c and not all x are equal, both solvers return slope m and
   * intercept c.
   */
  lemma RecoversExactLine(data: seq<DataPoint>, m: real, c: real)
    requires forall i :: 0 <= i < |data| ==> data[i].y == m * data[i].x + c
    requires !AllXEqual(data)
    ensures |data| > 0 && Denominator(SummaryOf(data), |data|) != 0.0
    ensures BestFit(data) == SlopeIntercept(c, m)
    ensures LeastSquares(data) == Coefficients(c, m)
  {
    DenominatorZeroIff(data);
    SumsOnLine(data, m, c);
    var sm := SummaryOf(data);
    assert NormalEquations(sm, |data|, c, m);
    var f, g := BestFit(data), LeastSquares(data);
    NormalEquationsUnique(sm, |data|, c, m, f.b, f.m);
    NormalEquationsUnique(sm, |data|, c, m, g.a, g.b);
  }

  /**
   * The fitted line passes through the centroid: evaluated at x̄ = Σx / N it
   * gives ȳ = Σy / N (the value the program reports at x = x̄).
   */
  lemma BestFitThroughMeans(data: seq<DataPoint>)
    requires |data| > 0
    requires Denominator(SummaryOf(data), |data|) != 0.0
    ensures var f := BestFit(data);
      f.m * (SumX(data) / |data| as real) + f.b == SumY(data) / |data| as real
  {
    var f := BestFit(data);
    var n := |data| as real;
    MeanStep(n, SumX(data), SumY(data), f.b, f.m);
  }

  /** The algebra of BestFitThroughMeans: from N·b + m·Σx = Σy, m·(Σx/N) + b = Σy/N. */
  lemma MeanStep(n: real, sx: real, sy: real, b: real, m: real)
    requires n > 0.0
    requires Times(n, b) + Times(m, sx) == sy
    ensures m * (sx / n) + b == sy / n
  {
    assert n * (m * (sx / n) + b) == m * sx + n * b;
  }
}
