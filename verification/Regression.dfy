/** Least-squares fit of a line through points, with x in seconds from a given time. */
module Regression {
  import opened Base
  import opened Vectors

  datatype Sums = Sums(n: real, x: real, y: real, xy: real, x2: real)

  const ZERO_SUMS := Sums(0.0, 0.0, 0.0, 0.0, 0.0)

  datatype Fit = NoPoints | Line(slope: real, intercept: real)

  /** Seconds from the intercept time; the millisecond difference wraps like int64. */
  function Abscissa(t: Int64, origin: Int64): real {
    (Wrap64(t - origin) as real) / 1000.0
  }

  function Added(s: Sums, x: real, v: real): Sums {
    Sums(s.n + 1.0, s.x + x, s.y + v, s.xy + x * v, s.x2 + x * x)
  }

  function SumsOf(pts: seq<Point>, origin: Int64): Sums {
    if pts == [] then ZERO_SUMS
    else
      var p := pts[|pts| - 1];
      Added(SumsOf(pts[..|pts| - 1], origin), Abscissa(p.t, origin), p.v)
  }

  function Cov(s: Sums): real
    requires s.n != 0.0
  {
    s.xy - s.x * s.y / s.n
  }

  function VarX(s: Sums): real
    requires s.n != 0.0
  {
    s.x2 - s.x * s.x / s.n
  }

  function FitOf(s: Sums): Fit {
    if s.n == 0.0 then NoPoints
    else if VarX(s) == 0.0 then Line(0.0, s.y / s.n)
    else Line(Cov(s) / VarX(s), InterceptFor(s, Cov(s) / VarX(s)))
  }

  /** The intercept that makes a line of the given slope pass through the mean point. */
  function InterceptFor(s: Sums, slope: real): real
    requires s.n != 0.0
  {
    s.y / s.n - slope * s.x / s.n
  }

  method LinearRegression(pts: seq<Point>, origin: Int64) returns (f: Fit)
    ensures f == FitOf(SumsOf(pts, origin))
  {
    hide Abscissa;
    hide Cov;
    hide VarX;
    var n, sumX, sumY, sumXY, sumX2 := 0.0, 0.0, 0.0, 0.0, 0.0;
    for i := 0 to |pts|
      invariant Sums(n, sumX, sumY, sumXY, sumX2) == SumsOf(pts[..i], origin)
    {
      assert pts[..i + 1][..i] == pts[..i];
      var x := Abscissa(pts[i].t, origin);
      n := n + 1.0;
      sumX := sumX + x;
      sumY := sumY + pts[i].v;
      sumXY := sumXY + x * pts[i].v;
      sumX2 := sumX2 + x * x;
    }
    assert pts[..|pts|] == pts;
    if n == 0.0 {
      return NoPoints;
    }
    f := Solve(Sums(n, sumX, sumY, sumXY, sumX2));
  }

  method Solve(s: Sums) returns (f: Fit)
    requires s.n != 0.0
    ensures f == FitOf(s)
  {
    var cov := s.xy - s.x * s.y / s.n;
    assert cov == Cov(s);
    var varX := s.x2 - s.x * s.x / s.n;
    assert varX == VarX(s);
    hide Cov;
    hide VarX;
    if varX == 0.0 {
      return Line(0.0, s.y / s.n);
    }
    var slope := cov / varX;
    var intercept := s.y / s.n - slope * s.x / s.n;
    assert intercept == InterceptFor(s, slope);
    hide InterceptFor;
    return Line(slope, intercept);
  }

  // ---- Residuals ----

  /** How far a point lies above the line m x + c. */
  function Residual(x: real, v: real, m: real, c: real): real {
    v - (m * x + c)
  }

  function Weighted(x: real, v: real, m: real, c: real): real {
    x * Residual(x, v, m, c)
  }

  function Squared(x: real, v: real, m: real, c: real): real {
    Residual(x, v, m, c) * Residual(x, v, m, c)
  }

  /** The sum over all points of a term in x, v and the line. */
  function Total(pts: seq<Point>, origin: Int64, term: (real, real, real, real) -> real, m: real, c: real): real {
    if pts == [] then 0.0
    else
      var p := pts[|pts| - 1];
      Total(pts[..|pts| - 1], origin, term, m, c) + term(Abscissa(p.t, origin), p.v, m, c)
  }

  function SquaredError(pts: seq<Point>, origin: Int64, m: real, c: real): real {
    Total(pts, origin, Squared, m, c)
  }

  /** The two sums in terms of the accumulated ones. */
  function PlainDefect(s: Sums, m: real, c: real): real { s.y - (m * s.x + c * s.n) }

  function WeightedDefect(s: Sums, m: real, c: real): real { s.xy - (m * s.x2 + c * s.x) }

  lemma PlainStep(s: Sums, x: real, v: real, m: real, c: real)
    ensures PlainDefect(Added(s, x, v), m, c) == PlainDefect(s, m, c) + Residual(x, v, m, c)
  {
    assert m * (s.x + x) == m * s.x + m * x;
    assert c * (s.n + 1.0) == c * s.n + c;
  }

  lemma WeightedStep(s: Sums, x: real, v: real, m: real, c: real)
    ensures WeightedDefect(Added(s, x, v), m, c) == WeightedDefect(s, m, c) + Weighted(x, v, m, c)
  {
    var x2 := x * x;
    assert m * (s.x2 + x2) == m * s.x2 + m * x2;
    assert c * (s.x + x) == c * s.x + c * x;
    WeightedExpanded(x, v, m, c);
  }

  lemma WeightedExpanded(x: real, v: real, m: real, c: real)
    ensures Weighted(x, v, m, c) == x * v - (m * (x * x) + c * x)
  {
    assert x * (v - (m * x + c)) == x * v - x * (m * x) - x * c;
    assert x * (m * x) == m * (x * x);
  }

  lemma {:induction false} PlainIsDefect(pts: seq<Point>, origin: Int64, m: real, c: real)
    ensures Total(pts, origin, Residual, m, c) == PlainDefect(SumsOf(pts, origin), m, c)
  {
    if pts == [] {
    } else {
      hide Residual;
      hide PlainDefect;
      hide Added;
      hide Abscissa;
      var front, p := pts[..|pts| - 1], pts[|pts| - 1];
      PlainIsDefect(front, origin, m, c);
      PlainStep(SumsOf(front, origin), Abscissa(p.t, origin), p.v, m, c);
    }
  }

  lemma {:induction false} WeightedIsDefect(pts: seq<Point>, origin: Int64, m: real, c: real)
    ensures Total(pts, origin, Weighted, m, c) == WeightedDefect(SumsOf(pts, origin), m, c)
  {
    if pts == [] {
    } else {
      hide Weighted;
      hide WeightedDefect;
      hide Added;
      hide Abscissa;
      var front, p := pts[..|pts| - 1], pts[|pts| - 1];
      WeightedIsDefect(front, origin, m, c);
      WeightedStep(SumsOf(front, origin), Abscissa(p.t, origin), p.v, m, c);
    }
  }

  lemma {:induction false} CountOfSums(pts: seq<Point>, origin: Int64)
    ensures SumsOf(pts, origin).n == |pts| as real
  {
    hide Abscissa;
    if pts != [] {
      CountOfSums(pts[..|pts| - 1], origin);
    }
  }

  // ---- The normal equations ----

  lemma Cancels(a: real, n: real)
    requires n != 0.0
    ensures a / n * n == a
  {
  }

  lemma PlainSolved(s: Sums, m: real)
    requires s.n != 0.0
    ensures PlainDefect(s, m, InterceptFor(s, m)) == 0.0
  {
    var a, b := s.y / s.n, m * s.x / s.n;
    Cancels(s.y, s.n);
    Cancels(m * s.x, s.n);
    assert (a - b) * s.n == a * s.n - b * s.n;
  }

  /** xy - (m x2 + c x) with c = y/n - m x/n is cov - m var. */
  lemma WeightedSolved(s: Sums, m: real)
    requires s.n != 0.0
    ensures WeightedDefect(s, m, InterceptFor(s, m)) == Cov(s) - m * VarX(s)
  {
    var a, q := s.y / s.n, s.x / s.n;
    CovVia(s, a);
    VarVia(s, q);
    InterceptVia(s, m, a, q);
    Distributes(a, m, q, s.x, s.x2);
    hide Cov;
    hide VarX;
    hide InterceptFor;
    assert WeightedDefect(s, m, a - m * q) == s.xy - (m * s.x2 + (a - m * q) * s.x);
  }

  lemma CovVia(s: Sums, a: real)
    requires s.n != 0.0 && a == s.y / s.n
    ensures Cov(s) == s.xy - s.x * a
  {
    Swap(s.x, s.y, s.n);
  }

  lemma VarVia(s: Sums, q: real)
    requires s.n != 0.0 && q == s.x / s.n
    ensures VarX(s) == s.x2 - s.x * q
  {
    Swap(s.x, s.x, s.n);
  }

  lemma InterceptVia(s: Sums, m: real, a: real, q: real)
    requires s.n != 0.0 && a == s.y / s.n && q == s.x / s.n
    ensures InterceptFor(s, m) == a - m * q
  {
    Swap(m, s.x, s.n);
  }

  lemma Swap(a: real, b: real, n: real)
    requires n != 0.0
    ensures a * b / n == a * (b / n)
  {
    Cancels(a * b, n);
    Cancels(b, n);
    assert (a * (b / n)) * n == a * b;
  }

  lemma Distributes(a: real, m: real, q: real, x: real, x2: real)
    ensures m * x2 + (a - m * q) * x == x * a + m * (x2 - x * q)
  {
    assert (a - m * q) * x == a * x - (m * q) * x;
    assert (m * q) * x == m * (x * q);
    assert m * (x2 - x * q) == m * x2 - m * (x * q);
  }

  // ---- When all points share one time ----

  function Deviation(x: real, v: real, mean: real, unused: real): real {
    Times(x - mean, x - mean)
  }

  function Times(a: real, b: real): real { a * b }

  function Expanded(s: Sums, mean: real): real { s.x2 - 2.0 * (mean * s.x) + s.n * (mean * mean) }

  lemma {:induction false} DeviationsExpanded(pts: seq<Point>, origin: Int64, mean: real)
    ensures Total(pts, origin, Deviation, mean, 0.0) == Expanded(SumsOf(pts, origin), mean)
  {
    if pts == [] {
    } else {
      hide Expanded;
      hide Added;
      hide Deviation;
      hide Abscissa;
      var front, p := pts[..|pts| - 1], pts[|pts| - 1];
      DeviationsExpanded(front, origin, mean);
      DeviationStep(SumsOf(front, origin), Abscissa(p.t, origin), p.v, mean);
    }
  }

  lemma DeviationStep(s: Sums, x: real, v: real, mean: real)
    ensures Expanded(Added(s, x, v), mean) == Expanded(s, mean) + Deviation(x, v, mean, 0.0)
  {
    var m2 := mean * mean;
    assert mean * (s.x + x) == mean * s.x + mean * x;
    assert (s.n + 1.0) * m2 == s.n * m2 + m2;
    assert (x - mean) * (x - mean) == x * x - 2.0 * (mean * x) + m2;
  }

  lemma {:induction false} DeviationsSign(pts: seq<Point>, origin: Int64, mean: real)
    ensures Total(pts, origin, Deviation, mean, 0.0) >= 0.0
    ensures Total(pts, origin, Deviation, mean, 0.0) == 0.0 <==>
            forall i :: 0 <= i < |pts| ==> Abscissa(pts[i].t, origin) == mean
  {
    hide Abscissa;
    if pts != [] {
      var front, p := pts[..|pts| - 1], pts[|pts| - 1];
      DeviationsSign(front, origin, mean);
      SquareSign(Abscissa(p.t, origin), mean);
      assert pts == front + [p];
    }
  }

  lemma SquareSign(x: real, mean: real)
    ensures Deviation(x, 0.0, mean, 0.0) >= 0.0
    ensures Deviation(x, 0.0, mean, 0.0) == 0.0 <==> x == mean
    ensures forall v :: Deviation(x, v, mean, 0.0) == Deviation(x, 0.0, mean, 0.0)
  {
    hide Times;
    SquareSignOf(x - mean);
  }

  lemma SquareSignOf(d: real)
    ensures Times(d, d) >= 0.0 && (Times(d, d) == 0.0 <==> d == 0.0)
  {
    hide Times;
    if d > 0.0 {
      ProductOfPositives(d, d);
    } else if d < 0.0 {
      ProductOfNegatives(d, d);
    } else {
      ProductWithZero(d, d);
    }
  }

  lemma ProductOfPositives(a: real, b: real)
    requires a > 0.0 && b > 0.0
    ensures Times(a, b) > 0.0
  {
  }

  lemma ProductOfNegatives(a: real, b: real)
    requires a < 0.0 && b < 0.0
    ensures Times(a, b) > 0.0
  {
    var x, y := -a, -b;
    assert x * y > 0.0;
    assert a * b == x * y;
  }

  lemma ProductWithZero(a: real, b: real)
    requires a == 0.0
    ensures Times(a, b) == 0.0
  {
  }

  lemma VarIsDeviations(pts: seq<Point>, origin: Int64)
    requires pts != []
    ensures var s := SumsOf(pts, origin);
            s.n != 0.0 && VarX(s) == Total(pts, origin, Deviation, s.x / s.n, 0.0)
  {
    hide SumsOf;
    hide Total;
    hide Deviation;
    CountOfSums(pts, origin);
    var s := SumsOf(pts, origin);
    var q := s.x / s.n;
    VarVia(s, q);
    DeviationsExpanded(pts, origin, q);
    hide VarX;
    Cancels(s.x, s.n);
    assert s.n * (q * q) == (q * s.n) * q;
  }

  /** Even where the difference wraps, equal x means equal times. */
  lemma AbscissaInjective(t: Int64, u: Int64, origin: Int64)
    ensures Abscissa(t, origin) == Abscissa(u, origin) <==> t == u
  {
    var a, b := t - origin, u - origin;
    if Abscissa(t, origin) == Abscissa(u, origin) {
      assert Wrap64(a) == Wrap64(b);
      assert (a + TWO_63) % TWO_64 == (b + TWO_63) % TWO_64;
    }
  }

  /** The variance of x vanishes exactly when all timestamps are equal. */
  lemma VarZeroIff(pts: seq<Point>, origin: Int64)
    requires pts != []
    ensures SumsOf(pts, origin).n != 0.0
    ensures VarX(SumsOf(pts, origin)) == 0.0 <==> forall i :: 0 <= i < |pts| ==> pts[i].t == pts[0].t
  {
    hide SumsOf;
    hide VarX;
    hide Abscissa;
    VarZeroIffSameX(pts, origin);
    forall i | 0 <= i < |pts|
      ensures Abscissa(pts[i].t, origin) == Abscissa(pts[0].t, origin) <==> pts[i].t == pts[0].t
    {
      AbscissaInjective(pts[i].t, pts[0].t, origin);
    }
  }

  lemma VarZeroIffSameX(pts: seq<Point>, origin: Int64)
    requires pts != []
    ensures SumsOf(pts, origin).n != 0.0
    ensures VarX(SumsOf(pts, origin)) == 0.0 <==>
            forall i :: 0 <= i < |pts| ==> Abscissa(pts[i].t, origin) == Abscissa(pts[0].t, origin)
  {
    hide SumsOf;
    hide Total;
    hide Abscissa;
    hide VarX;
    VarIsDeviations(pts, origin);
    var s := SumsOf(pts, origin);
    DeviationsSign(pts, origin, s.x / s.n);
    if forall i :: 0 <= i < |pts| ==> Abscissa(pts[i].t, origin) == Abscissa(pts[0].t, origin) {
      SameX(pts, origin, Abscissa(pts[0].t, origin));
    }
  }

  lemma {:induction false} SumOfSameX(pts: seq<Point>, origin: Int64, x: real)
    requires forall i :: 0 <= i < |pts| ==> Abscissa(pts[i].t, origin) == x
    ensures SumsOf(pts, origin).x == SumsOf(pts, origin).n * x
  {
    hide Abscissa;
    if pts != [] {
      SumOfSameX(pts[..|pts| - 1], origin, x);
      var n := SumsOf(pts[..|pts| - 1], origin).n;
      assert (n + 1.0) * x == n * x + x;
    }
  }

  lemma SameX(pts: seq<Point>, origin: Int64, x: real)
    requires pts != [] && forall i :: 0 <= i < |pts| ==> Abscissa(pts[i].t, origin) == x
    ensures SumsOf(pts, origin).n != 0.0 && SumsOf(pts, origin).x / SumsOf(pts, origin).n == x
  {
    hide Abscissa;
    hide SumsOf;
    CountOfSums(pts, origin);
    SumOfSameX(pts, origin, x);
    Undo(SumsOf(pts, origin).n, x);
  }

  lemma Undo(n: real, x: real)
    requires n != 0.0
    ensures n * x / n == x
  {
  }

  /** When all x are equal the weighted sum is that x times the plain one. */
  lemma {:induction false} WeightedOfSameX(pts: seq<Point>, origin: Int64, x: real, m: real, c: real)
    requires forall i :: 0 <= i < |pts| ==> Abscissa(pts[i].t, origin) == x
    ensures Total(pts, origin, Weighted, m, c) == x * Total(pts, origin, Residual, m, c)
  {
    hide Abscissa;
    hide Residual;
    if pts != [] {
      var front, p := pts[..|pts| - 1], pts[|pts| - 1];
      WeightedOfSameX(front, origin, x, m, c);
      var t, r := Total(front, origin, Residual, m, c), Residual(x, p.v, m, c);
      assert x * (t + r) == x * t + x * r;
    }
  }

  /** Slope and intercept solve both normal equations: residuals sum to zero, plain and weighted by x. */
  lemma NormalEquations(pts: seq<Point>, origin: Int64)
    requires pts != []
    ensures var f := FitOf(SumsOf(pts, origin));
            && f.Line?
            && Total(pts, origin, Residual, f.slope, f.intercept) == 0.0
            && Total(pts, origin, Weighted, f.slope, f.intercept) == 0.0
  {
    hide SumsOf;
    hide Total;
    hide PlainDefect;
    hide WeightedDefect;
    hide Cov;
    hide VarX;
    hide InterceptFor;
    hide Abscissa;
    CountOfSums(pts, origin);
    var s := SumsOf(pts, origin);
    FlatIntercept(s);
    var f := FitOf(s);
    assert f == Line(f.slope, InterceptFor(s, f.slope));
    PlainIsDefect(pts, origin, f.slope, f.intercept);
    PlainSolved(s, f.slope);
    if VarX(s) == 0.0 {
      VarZeroIffSameX(pts, origin);
      WeightedOfSameX(pts, origin, Abscissa(pts[0].t, origin), f.slope, f.intercept);
    } else {
      WeightedIsDefect(pts, origin, f.slope, f.intercept);
      WeightedSolved(s, f.slope);
      Cancels(Cov(s), VarX(s));
    }
  }

  lemma FlatIntercept(s: Sums)
    requires s.n != 0.0
    ensures s.y / s.n == InterceptFor(s, 0.0)
  {
  }

  // ---- Minimality ----

  function Cross(dm: real, dc: real, w: real, r: real): real { dm * w + dc * r }

  /** The error of any line is the error of the fitted one plus a sum of squares. */
  lemma {:induction false} ErrorSplits(pts: seq<Point>, origin: Int64, m: real, c: real, dm: real, dc: real) returns (extra: real)
    ensures extra >= 0.0
    ensures SquaredError(pts, origin, m + dm, c + dc) ==
            SquaredError(pts, origin, m, c)
            - 2.0 * Cross(dm, dc, Total(pts, origin, Weighted, m, c), Total(pts, origin, Residual, m, c)) + extra
  {
    if pts == [] {
      extra := 0.0;
    } else {
      hide Residual;
      hide Weighted;
      hide Squared;
      hide Abscissa;
      hide Cross;
      var front, p := pts[..|pts| - 1], pts[|pts| - 1];
      var before := ErrorSplits(front, origin, m, c, dm, dc);
      var x := Abscissa(p.t, origin);
      var d := SquareSplits(x, p.v, m, c, dm, dc);
      extra := before + d;
      CrossAdds(dm, dc, Total(front, origin, Weighted, m, c), Weighted(x, p.v, m, c),
                Total(front, origin, Residual, m, c), Residual(x, p.v, m, c));
    }
  }

  lemma CrossAdds(dm: real, dc: real, w: real, w1: real, r: real, r1: real)
    ensures Cross(dm, dc, w + w1, r + r1) == Cross(dm, dc, w, r) + Cross(dm, dc, w1, r1)
  {
    assert dm * (w + w1) == dm * w + dm * w1;
    assert dc * (r + r1) == dc * r + dc * r1;
  }

  lemma SquareSplits(x: real, v: real, m: real, c: real, dm: real, dc: real) returns (d: real)
    ensures d >= 0.0
    ensures Squared(x, v, m + dm, c + dc) ==
            Squared(x, v, m, c) - 2.0 * Cross(dm, dc, Weighted(x, v, m, c), Residual(x, v, m, c)) + d
  {
    var r, e := Residual(x, v, m, c), dm * x + dc;
    assert (m + dm) * x == m * x + dm * x;
    assert Residual(x, v, m + dm, c + dc) == r - e;
    d := e * e;
    assert (r - e) * (r - e) == r * r - 2.0 * (r * e) + e * e;
    assert r * e == dm * (x * r) + dc * r by {
      assert r * (dm * x + dc) == r * (dm * x) + r * dc;
      assert r * (dm * x) == dm * (x * r);
    }
  }

  /** No line has a smaller squared error than the fitted one. */
  lemma LeastSquares(pts: seq<Point>, origin: Int64, m: real, c: real)
    requires pts != []
    ensures var f := FitOf(SumsOf(pts, origin));
            f.Line? && SquaredError(pts, origin, f.slope, f.intercept) <= SquaredError(pts, origin, m, c)
  {
    hide SumsOf;
    hide Total;
    hide SquaredError;
    hide FitOf;
    NormalEquations(pts, origin);
    var f := FitOf(SumsOf(pts, origin));
    var extra := ErrorSplits(pts, origin, f.slope, f.intercept, m - f.slope, c - f.intercept);
  }

  /** Points on a line, not all at one time, give back that line. */
  lemma CollinearRecovered(pts: seq<Point>, origin: Int64, m: real, c: real)
    requires forall i :: 0 <= i < |pts| ==> pts[i].v == m * Abscissa(pts[i].t, origin) + c
    requires exists i :: 0 <= i < |pts| && pts[i].t != pts[0].t
    ensures FitOf(SumsOf(pts, origin)) == Line(m, c)
  {
    hide SumsOf;
    hide Total;
    hide VarX;
    hide Cov;
    hide PlainDefect;
    hide WeightedDefect;
    hide InterceptFor;
    CountOfSums(pts, origin);
    VarZeroIff(pts, origin);
    var s := SumsOf(pts, origin);
    NoResidual(pts, origin, m, c);
    PlainIsDefect(pts, origin, m, c);
    WeightedIsDefect(pts, origin, m, c);
    InterceptUnique(s, m, c);
    WeightedSolved(s, m);
    Undo(VarX(s), m);
  }

  lemma {:induction false} NoResidual(pts: seq<Point>, origin: Int64, m: real, c: real)
    requires forall i :: 0 <= i < |pts| ==> pts[i].v == m * Abscissa(pts[i].t, origin) + c
    ensures Total(pts, origin, Residual, m, c) == 0.0 && Total(pts, origin, Weighted, m, c) == 0.0
  {
    hide Abscissa;
    if pts != [] {
      NoResidual(pts[..|pts| - 1], origin, m, c);
    }
  }

  lemma InterceptUnique(s: Sums, m: real, c: real)
    requires s.n != 0.0 && PlainDefect(s, m, c) == 0.0
    ensures c == InterceptFor(s, m)
  {
    PlainSolved(s, m);
    var d := InterceptFor(s, m);
    assert c * s.n == d * s.n;
    Undo(s.n, c);
    Undo(s.n, d);
  }

  /** Values that grow by m per second from c at the intercept time, not all at one time, give slope m and intercept c. */
  lemma SlopeIsPerSecond(pts: seq<Point>, origin: Int64, m: real, c: real)
    requires forall i :: 0 <= i < |pts| ==> -TWO_63 <= pts[i].t - origin < TWO_63
    requires forall i :: 0 <= i < |pts| ==> pts[i].v == m * (((pts[i].t - origin) as real) / 1000.0) + c
    requires exists i :: 0 <= i < |pts| && pts[i].t != pts[0].t
    ensures FitOf(SumsOf(pts, origin)) == Line(m, c)
  {
    forall i | 0 <= i < |pts| ensures pts[i].v == m * Abscissa(pts[i].t, origin) + c {
      assert Abscissa(pts[i].t, origin) == ((pts[i].t - origin) as real) / 1000.0;
    }
    CollinearRecovered(pts, origin, m, c);
    hide *;
  }
}
