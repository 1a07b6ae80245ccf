/**
 * The summary accumulator: the four sums (sigmas) that the best-fit
 * formulas need, and the mean of x.
 */
module Sums {
  import opened Points

  // Each sum is defined over a sequence by peeling off its LAST point, so
  // that the sum over data[..i+1] unfolds to the sum over data[..i] plus
  // the i-th term, exactly as the accumulation loops add them.

  /**
   * The product p·q. A square is written Times(u, u): the solver reasons
   * about the product of two named factors more reliably than about u·u.
   */
  function Times(p: real, q: real): real { p * q }

  /** Σx */
  function SumX(s: seq<DataPoint>): real
  {
    if s == [] then 0.0 else SumX(s[..|s| - 1]) + s[|s| - 1].x
  }

  /** Σy */
  function SumY(s: seq<DataPoint>): real
  {
    if s == [] then 0.0 else SumY(s[..|s| - 1]) + s[|s| - 1].y
  }

  /** Σx² */
  function SumXX(s: seq<DataPoint>): real
  {
    if s == [] then 0.0 else SumXX(s[..|s| - 1]) + Times(s[|s| - 1].x, s[|s| - 1].x)
  }

  /** Σxy */
  function SumXY(s: seq<DataPoint>): real
  {
    if s == [] then 0.0 else SumXY(s[..|s| - 1]) + Times(s[|s| - 1].x, s[|s| - 1].y)
  }

  /** The four sigmas of a point sequence. */
  datatype Summary = Summary(sumX: real, sumY: real, sumXX: real, sumXY: real)

  function SummaryOf(s: seq<DataPoint>): Summary
  {
    Summary(SumX(s), SumY(s), SumXX(s), SumXY(s))
  }

  /**
   * getSums: zero the four accumulators, then add each of the first `size`
   * points to them. The results are the exact sums over data[..size]; for
   * size 0 all four are 0.
   */
  method GetSums(data: array<DataPoint>, size: nat)
    returns (x: real, y: real, xSquared: real, xy: real)
    requires size <= data.Length
    ensures Summary(x, y, xSquared, xy) == SummaryOf(data[..size])
    ensures size == 0 ==> x == 0.0 && y == 0.0 && xSquared == 0.0 && xy == 0.0
  {
    x, y, xSquared, xy := 0.0, 0.0, 0.0, 0.0;
    for i := 0 to size
      invariant x == SumX(data[..i]) && y == SumY(data[..i])
      invariant xSquared == SumXX(data[..i]) && xy == SumXY(data[..i])
    {
      assert data[..i + 1][..i] == data[..i];
      x := x + data[i].x;
      y := y + data[i].y;
      xSquared := xSquared + data[i].x * data[i].x;
      xy := xy + data[i].x * data[i].y;
    }
  }

  /**
   * getMean: x̄, the sum of the x values of the first `size` points divided
   * by `size`. The sum is the same Σx that GetSums produces.
   */
  method GetMean(data: array<DataPoint>, size: nat) returns (mean: real)
    requires 0 < size <= data.Length
    ensures mean * size as real == SummaryOf(data[..size]).sumX
  {
    var sum := 0.0;
    for i := 0 to size
      invariant sum == SumX(data[..i])
    {
      assert data[..i + 1][..i] == data[..i];
      sum := sum + data[i].x;
    }
    sum := sum / size as real;
    return sum;
  }

  /** Bounds on x carry over to Σx: n·lo ≤ Σx ≤ n·hi. */
  lemma {:induction false} SumXBetween(s: seq<DataPoint>, lo: real, hi: real)
    requires forall i :: 0 <= i < |s| ==> lo <= s[i].x <= hi
    ensures |s| as real * lo <= SumX(s) <= |s| as real * hi
  {
    if s != [] {
      var init := s[..|s| - 1];
      assert forall i :: 0 <= i < |init| ==> init[i] == s[i];
      SumXBetween(init, lo, hi);
      assert (|s| as real) * lo == (|init| as real) * lo + lo;
      assert (|s| as real) * hi == (|init| as real) * hi + hi;
    }
  }

  /** The mean x̄ lies between the smallest and the largest x. */
  lemma MeanBetween(s: seq<DataPoint>, lo: real, hi: real)
    requires |s| > 0
    requires forall i :: 0 <= i < |s| ==> lo <= s[i].x <= hi
    ensures lo <= SumX(s) / |s| as real <= hi
  {
    SumXBetween(s, lo, hi);
    DivideBetween(|s| as real, lo, hi, SumX(s));
  }

  /** From n·lo ≤ t ≤ n·hi with n > 0: lo ≤ t / n ≤ hi. */
  lemma DivideBetween(n: real, lo: real, hi: real, t: real)
    requires n > 0.0 && n * lo <= t <= n * hi
    ensures lo <= t / n <= hi
  {
    var q := t / n;
    assert Times(n, q) == t;
    assert Times(n, lo - q) == n * lo - t;
    assert Times(n, q - hi) == t - n * hi;
    PositiveFactor(n, lo - q);
    PositiveFactor(n, q - hi);
  }

  /** A non-positive product with a positive factor has a non-positive other factor. */
  lemma PositiveFactor(p: real, x: real)
    requires p > 0.0 && Times(p, x) <= 0.0
    ensures x <= 0.0
  {
    if x > 0.0 {
      TimesPositive(p, x);
    }
  }

  /**
   * When every point lies on the line y = m·x + c, the sums are tied by
   * Σy = m·Σx + c·n and Σxy = m·Σx² + c·Σx.
   */
  lemma {:induction false} SumsOnLine(s: seq<DataPoint>, m: real, c: real)
    requires forall i :: 0 <= i < |s| ==> s[i].y == m * s[i].x + c
    ensures SumY(s) == Times(m, SumX(s)) + Times(c, |s| as real)
    ensures SumXY(s) == Times(m, SumXX(s)) + Times(c, SumX(s))
  {
    if s != [] {
      var init := s[..|s| - 1];
      var p := s[|s| - 1];
      assert forall i :: 0 <= i < |init| ==> init[i] == s[i];
      SumsOnLine(init, m, c);
      OnLineStep(m, c, SumX(init), SumY(init), SumXX(init), SumXY(init), |init| as real,
                 p.x, p.y, SumX(s), SumY(s), SumXX(s), SumXY(s), |s| as real);
    }
  }

  /** The inductive step of SumsOnLine: adding one more point on the line keeps both identities. */
  lemma OnLineStep(m: real, c: real, sx: real, sy: real, sxx: real, sxy: real, n: real,
                   x: real, y: real, sx': real, sy': real, sxx': real, sxy': real, n': real)
    requires sy == Times(m, sx) + Times(c, n) && sxy == Times(m, sxx) + Times(c, sx)
    requires y == Times(m, x) + c
    requires sx' == sx + x && sy' == sy + y && n' == n + 1.0
    requires sxx' == sxx + Times(x, x) && sxy' == sxy + Times(x, y)
    ensures sy' == Times(m, sx') + Times(c, n')
    ensures sxy' == Times(m, sxx') + Times(c, sx')
  {
    TimesAdd(m, sx, x, sx');
    TimesAdd(c, n, 1.0, n');
    TimesAdd(m, sxx, Times(x, x), sxx');
    TimesAdd(c, sx, x, sx');
    TimesOnLine(x, y, m, c);
  }

  /** m·(a + b) = m·a + m·b */
  lemma TimesAdd(m: real, a: real, b: real, ab: real)
    requires ab == a + b
    ensures Times(m, ab) == Times(m, a) + Times(m, b)
  {
  }

  /** x·y = m·x² + c·x when y = m·x + c. */
  lemma TimesOnLine(x: real, y: real, m: real, c: real)
    requires y == Times(m, x) + c
    ensures Times(x, y) == Times(m, Times(x, x)) + Times(c, x)
  {
  }

  /** A product of two factors of the same strict sign is positive. */
  lemma TimesPositive(p: real, q: real)
    requires (p > 0.0 && q > 0.0) || (p < 0.0 && q < 0.0)
    ensures Times(p, q) > 0.0
  {
  }

  /** Σ(x − a)² over the points, the squared deviation of x from a. */
  function SqDev(s: seq<DataPoint>, a: real): real
  {
    if s == [] then 0.0 else SqDev(s[..|s| - 1], a) + Times(s[|s| - 1].x - a, s[|s| - 1].x - a)
  }

  /** Σ(x − a)² = Σx² − 2a·Σx + n·a². */
  lemma {:induction false} SqDevExpanded(s: seq<DataPoint>, a: real)
    ensures SqDev(s, a) == SumXX(s) - 2.0 * Times(a, SumX(s)) + Times(|s| as real, Times(a, a))
  {
    if s != [] {
      var init := s[..|s| - 1];
      SqDevExpanded(init, a);
      ExpandStep(SumXX(init), SumX(init), |init| as real, SumXX(s), SumX(s), |s| as real, s[|s| - 1].x, a);
    }
  }

  /** One step of SqDevExpanded, as an identity over reals. */
  lemma ExpandStep(q: real, sx: real, n: real, q': real, sx': real, n': real, x: real, a: real)
    requires q' == q + Times(x, x) && sx' == sx + x && n' == n + 1.0
    ensures (q - 2.0 * Times(a, sx) + Times(n, Times(a, a))) + Times(x - a, x - a)
         == q' - 2.0 * Times(a, sx') + Times(n', Times(a, a))
  {
    assert Times(x - a, x - a) == Times(x, x) - 2.0 * a * x + a * a;
    assert 2.0 * a * sx' == 2.0 * a * sx + 2.0 * a * x;
    assert n' * (a * a) == n * (a * a) + a * a;
  }

  /** Σ(x − a)² is never negative, and is zero exactly when every x is a. */
  lemma {:induction false} SqDevZeroIff(s: seq<DataPoint>, a: real)
    ensures SqDev(s, a) >= 0.0
    ensures SqDev(s, a) == 0.0 <==> forall i :: 0 <= i < |s| ==> s[i].x == a
  {
    if s != [] {
      var init := s[..|s| - 1];
      var x := s[|s| - 1].x;
      assert forall i :: 0 <= i < |init| ==> init[i] == s[i];
      SqDevZeroIff(init, a);
      if x != a {
        TimesPositive(x - a, x - a);
        assert s[|s| - 1].x != a;
      } else {
        assert (forall i :: 0 <= i < |s| ==> s[i].x == a) <==> (forall i :: 0 <= i < |init| ==> init[i].x == a);
      }
    }
  }
}
