/** increase and rate: the growth of a counter across resets. */
module Counters {
  import opened Base
  import opened Vectors

  /** What one step adds: the difference, or after a drop the whole new value. */
  function StepGrowth(prev: real, cur: real): real {
    if cur >= prev then cur - prev else cur
  }

  function Growth(pts: seq<Point>): real {
    if |pts| < 2 then 0.0
    else Growth(pts[..|pts| - 1]) + StepGrowth(pts[|pts| - 2].v, pts[|pts| - 1].v)
  }

  /** The values lost to drops. */
  function Lost(pts: seq<Point>): real {
    if |pts| < 2 then 0.0
    else Lost(pts[..|pts| - 1]) + if pts[|pts| - 1].v < pts[|pts| - 2].v then pts[|pts| - 2].v else 0.0
  }

  function Drops(pts: seq<Point>): nat {
    if |pts| < 2 then 0
    else Drops(pts[..|pts| - 1]) + if pts[|pts| - 1].v < pts[|pts| - 2].v then 1 else 0
  }

  method CounterDelta(pts: seq<Point>) returns (r: Option<real>)
    ensures r == if |pts| < 2 then None else Some(Growth(pts))
  {
    if |pts| < 2 {
      return None;
    }
    var delta := 0.0;
    assert |pts[..1]| == 1;
    for i := 1 to |pts|
      invariant delta == Growth(pts[..i])
    {
      assert pts[..i + 1][..i] == pts[..i];
      var cur, prev := pts[i].v, pts[i - 1].v;
      if cur >= prev {
        delta := delta + (cur - prev);
      } else {
        delta := delta + cur;
      }
    }
    assert pts[..|pts|] == pts;
    return Some(delta);
  }

  method Resets(pts: seq<Point>) returns (r: Option<nat>)
    ensures r == if pts == [] then None else Some(Drops(pts))
  {
    if |pts| == 0 {
      return None;
    }
    var n := 0;
    for i := 1 to |pts|
      invariant n == Drops(pts[..i])
    {
      assert pts[..i + 1][..i] == pts[..i];
      if pts[i].v < pts[i - 1].v {
        n := n + 1;
      }
    }
    assert pts[..|pts|] == pts;
    return Some(n);
  }

  /** The growth is the last value less the first, with every value lost to a drop added back. */
  lemma {:induction false} GrowthExact(pts: seq<Point>)
    requires pts != []
    ensures Growth(pts) == pts[|pts| - 1].v - pts[0].v + Lost(pts)
  {
    if |pts| >= 2 {
      GrowthExact(pts[..|pts| - 1]);
    }
  }

  /** There is no drop exactly when the values do not decrease, and then increase equals delta. */
  lemma {:induction false} NoDropsIff(pts: seq<Point>)
    ensures Drops(pts) == 0 <==> forall i :: 0 < i < |pts| ==> pts[i - 1].v <= pts[i].v
    ensures Drops(pts) == 0 ==> Lost(pts) == 0.0
  {
    if |pts| >= 2 {
      var front := pts[..|pts| - 1];
      NoDropsIff(front);
      assert forall i :: 0 <= i < |front| ==> front[i] == pts[i];
    }
  }

  /** Adjoining ranges that share their boundary point add up. */
  lemma {:induction false} GrowthSplits(a: seq<Point>, p: Point, b: seq<Point>)
    ensures Growth(a + [p] + b) == Growth(a + [p]) + Growth([p] + b)
  {
    var left, right, all := a + [p], [p] + b, a + [p] + b;
    if b == [] {
      assert all == left && right == [p];
    } else {
      var front := b[..|b| - 1];
      GrowthSplits(a, p, front);
      assert all[..|all| - 1] == left + front;
      assert right[..|right| - 1] == [p] + front;
      assert all[|all| - 2] == right[|right| - 2];
    }
  }

  /** A counter that is never negative never grows by a negative amount. */
  lemma {:induction false} GrowthNonNegative(pts: seq<Point>)
    requires forall i :: 0 <= i < |pts| ==> pts[i].v >= 0.0
    ensures Growth(pts) >= 0.0
  {
    if |pts| >= 2 {
      GrowthNonNegative(pts[..|pts| - 1]);
    }
  }

  /** Between two points a counter grows by the difference, or after a drop by the new value; and the drop is counted. */
  lemma TwoPoints(p: Point, q: Point)
    ensures Growth([p, q]) == if q.v >= p.v then q.v - p.v else q.v
    ensures Drops([p, q]) == if q.v < p.v then 1 else 0
    ensures Growth([p]) == 0.0 && Drops([p]) == 0
  {
    assert [p, q][..1] == [p];
  }

  /** Drops of adjoining ranges add up too. */
  lemma {:induction false} DropsSplit(a: seq<Point>, p: Point, b: seq<Point>)
    ensures Drops(a + [p] + b) == Drops(a + [p]) + Drops([p] + b)
  {
    var left, right, all := a + [p], [p] + b, a + [p] + b;
    if b == [] {
      assert all == left && right == [p];
    } else {
      var front := b[..|b| - 1];
      DropsSplit(a, p, front);
      assert all[..|all| - 1] == left + front;
      assert right[..|right| - 1] == [p] + front;
      assert all[|all| - 2] == right[|right| - 2];
    }
  }
}
