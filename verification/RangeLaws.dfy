/** What a range query reports, point by point, told from its instant queries. */
module RangeLaws {
  import opened Base
  import opened Labels
  import opened Vectors
  import opened Syntax
  import opened Evaluation
  import opened Engine

  /** An instant query returns a vector at the instant: labels and values as evaluated, every time the instant. */
  lemma InstantTells(env: Env, e: Expr, ts: Int64)
    requires Eval(env, Bounds(ts, ts), e, ts).Ok? && Eval(env, Bounds(ts, ts), e, ts).value.VectorValue?
    ensures var v, r := Eval(env, Bounds(ts, ts), e, ts).value.v, InstantResult(env, e, ts);
            && r.Ok? && r.value.VectorValue? && |r.value.v| == |v|
            && forall i :: 0 <= i < |v| ==>
                 r.value.v[i].t == ts && r.value.v[i].metric == v[i].metric && r.value.v[i].v == v[i].v
  {
    hide Eval;
  }

  /** The instant query reports the value for the label text: a scalar for the empty label set. */
  ghost predicate Reports(r: Result<Value, Failure>, text: Bytes, value: real) {
    match r
    case Ok(ScalarValue(s)) => text == Text([]) && value == s
    case Ok(VectorValue(v)) => exists s :: s in v && Text(s.metric) == text && s.v == value
    case _ => false
  }

  lemma {:induction false} PointsInMember(v: Vector, t: Int64, text: Bytes, p: Point)
    ensures p in PointsIn(v, t, text) <==> p.t == t && exists s :: s in v && Text(s.metric) == text && s.v == p.v
  {
    hide Text;
    if v != [] {
      var front, s := v[..|v| - 1], v[|v| - 1];
      PointsInMember(front, t, text, p);
      assert v == front + [s];
      if p.t == t && Text(s.metric) == text && s.v == p.v {
        assert p == Point(t, s.v);
      }
    }
  }

  lemma InstantMember(r: Result<Value, Failure>, t: Int64, text: Bytes, p: Point)
    ensures p in InstantPoints(r, t, text) <==> p.t == t && Reports(r, text, p.v)
  {
    hide Text;
    hide PointsIn;
    match r
    case Ok(ScalarValue(s)) =>
      PointsInMember([VectorSample([], t, s)], t, text, p);
      assert VectorSample([], t, s) in [VectorSample([], t, s)];
    case Ok(VectorValue(v)) =>
      PointsInMember(v, t, text, p);
    case _ =>
  }

  ghost predicate ReportedAt(env: Env, e: Expr, start: int, step: int, text: Bytes, p: Point, i: nat)
    requires -TWO_63 <= start + i * step < TWO_63
  {
    p.t == start + i * step && Reports(InstantResult(env, e, start + i * step), text, p.v)
  }

  lemma {:induction false} PointwiseMember(env: Env, e: Expr, start: int, step: int, k: nat, text: Bytes, p: Point)
    requires forall i :: 0 <= i < k ==> -TWO_63 <= start + i * step < TWO_63
    ensures p in Pointwise(env, e, start, step, k, text) <==>
            exists i: nat :: i < k && ReportedAt(env, e, start, step, text, p, i)
  {
    hide InstantResult;
    hide InstantPoints;
    hide Reports;
    if k > 0 {
      var t := start + (k - 1) * step;
      PointwiseMember(env, e, start, step, k - 1, text, p);
      InstantMember(InstantResult(env, e, t), t, text, p);
      assert p in InstantPoints(InstantResult(env, e, t), t, text) <==> ReportedAt(env, e, start, step, text, p, k - 1);
    }
  }

  lemma OfRangeResult(m: Matrix, points: Bytes -> seq<Point>, text: Bytes)
    requires IsRangeResult(m, points)
    ensures forall s :: s in m && Text(s.metric) == text ==> s.points == points(text)
    ensures points(text) != [] ==> exists s :: s in m && Text(s.metric) == text
  {
    hide Text;
    hide LexLess;
    if points(text) != [] {
      var j :| 0 <= j < |m| && Text(m[j].metric) == text;
      assert m[j] in m;
    }
  }

  /** The times a range query asks for. */
  lemma RangeTimes(start: Int64, end: Int64, step: Int64)
    requires start <= end && step > 0 && RangeGuard(start, end, step).None?
    ensures PointCount(start, end, step) == (end - start) / step + 1
    ensures forall i :: 0 <= i < PointCount(start, end, step) ==> start <= start + i * step <= end
  {
    forall i: nat | i < PointCount(start, end, step) ensures start <= start + i * step <= end {
      VisitedTimes(start, end, step, i);
    }
    hide RangeGuard;
  }

  /**
   * A range query without @ start() and @ end() that succeeds: the series of a label text has a point exactly where an
   * instant query at start, start + step, ... up to the end reports that value for it, and a text so reported has a series.
   */
  lemma RangeTells(env: Env, e: Expr, start: Int64, end: Int64, step: Int64, m: Matrix, text: Bytes, p: Point)
    requires BoundsFree(e)
    requires start <= end && step > 0 && RangeGuard(start, end, step).None?
    requires RangeOutcome(env, e, start, end, step, Ok(m))
    ensures var n := (end - start) / step + 1;
            && (forall i :: 0 <= i < n ==> start <= start + i * step <= end)
            && var reported := exists i: nat :: i < n && ReportedAt(env, e, start, step, text, p, i);
               && (forall s :: s in m && Text(s.metric) == text ==> (p in s.points <==> reported))
               && (reported ==> exists s :: s in m && Text(s.metric) == text)
  {
    RangeIsPointwiseInstant(env, e, start, end, step, Ok(m));
    RangeTimes(start, end, step);
    var n := PointCount(start, end, step);
    hide *;
    PointwiseMember(env, e, start, step, n, text, p);
    OfRangeResult(m, x => Pointwise(env, e, start, step, n, x), text);
  }
}
