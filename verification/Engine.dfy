/** Instant and range queries over the evaluator. */
module Engine {
  import opened Base
  import opened Labels
  import opened Vectors
  import opened Buckets
  import opened Syntax
  import opened Evaluation
  import opened ByteSort
  import Sorting
  import Aggregation
  import Topk
  import Operators

  datatype QueryError =
    | StepNotPositive
    | EndBeforeStart
    | RangeTooLarge
    | TooManyPoints
    | ParseFailed
    | EvalFailed(f: Failure)

  // ---- The evaluator's loops ----

  /** Evaluates an expression at an instant. */
  method EvalExpr(env: Env, b: Bounds, e: Expr, ts: Int64) returns (r: Result<Value, Failure>)
    ensures r == Eval(env, b, e, ts)
    decreases e, 0, 0
  {
    hide Operators.Applied;
    hide AggregateNamed;
    hide SelectionTime;
    hide Newest;
    hide DurationMs;
    match e {
      case NumberLiteral(text) =>
        return Ok(ScalarValue(env.number(text)));
      case StringLiteral(val) =>
        return Ok(StringValue(val));
      case ParenExpr(x) =>
        r := EvalExpr(env, b, x, ts);
      case UnaryExpr(x) =>
        r := EvalExpr(env, b, x, ts);
        r := Negate(r);
      case VectorSelector(name, matchers, mods) =>
        var at := SelectionTime(env, b, mods, ts);
        var v := SelectInstant(env.select(Wrap64(at - env.lookback), at, name, matchers));
        return Ok(VectorValue(v));
      case MatrixSelector(name, matchers, range, mods) =>
        var at := SelectionTime(env, b, mods, ts);
        return Ok(MatrixValue(env.select(Wrap64(at - DurationOf(range)), at, name, matchers)));
      case SubqueryExpr(x, range, step, mods) =>
        var q := SubqueryResolution(env, b, range, step, mods, ts);
        if Wrap64(q.count) > MAX_RESOLUTION {
          return Err(SubqueryTooFine);
        }
        r := EvalSubquery(env, b, x, q);
      case Call(func, args) =>
        var results := EvalArguments(env, b, args, ts);
        return env.call(func, args, results, ts);
      case AggregateExpr(aggr, grouping, param, x) =>
        r := EvalExpr(env, b, x, ts);
        if r.Err? {
          return;
        }
        if !r.value.VectorValue? {
          return Err(AggregationNeedsVector);
        }
        if param.None? {
          r := RunAggregate(env, aggr, r.value.v, grouping, ts, 0.0, "");
        } else {
          var p := EvalExpr(env, b, param.value, ts);
          if p.Err? {
            return p;
          }
          match p.value {
            case ScalarValue(s) => r := RunAggregate(env, aggr, r.value.v, grouping, ts, s, "");
            case StringValue(text) => r := RunAggregate(env, aggr, r.value.v, grouping, ts, 0.0, text);
            case _ => return Err(BadParameter);
          }
        }
      case BinaryExpr(op, lhs, rhs, returnBool, matching) =>
        r := EvalExpr(env, b, lhs, ts);
        if r.Err? {
          return;
        }
        var right := EvalExpr(env, b, rhs, ts);
        if right.Err? {
          return right;
        }
        r := Operators.ApplyBinary(op, (x, y) => env.other(op, x, y), returnBool, SpecOf(env, matching), r.value, right.value);
    }
  }

  method EvalArguments(env: Env, b: Bounds, args: Args, ts: Int64) returns (rs: seq<Result<Value, Failure>>)
    ensures rs == EvalArgs(env, b, args, ts)
    decreases args, 0, 0
  {
    match args {
      case NoArgs => rs := [];
      case Arg(first, more) =>
        var r := EvalExpr(env, b, first, ts);
        var others := EvalArguments(env, b, more, ts);
        rs := [r] + others;
    }
  }

  /** Negates in place and drops the metric names. */
  method Negate(r: Result<Value, Failure>) returns (n: Result<Value, Failure>)
    ensures n == Negation(r)
  {
    if r.Err? {
      return r;
    }
    match r.value {
      case ScalarValue(s) => return Ok(ScalarValue(-s));
      case VectorValue(v) =>
        var vector := v;
        for i := 0 to |v|
          invariant |vector| == |v|
          invariant vector[..i] == Negated(v)[..i]
          invariant vector[i..] == v[i..]
        {
          assert vector[i] == vector[i..][0] == v[i];
          vector := vector[i := VectorSample(DropMetricName(vector[i].metric), vector[i].t, -vector[i].v)];
        }
        assert vector == Negated(v);
        return Ok(VectorValue(vector));
      case _ => return Err(UnaryNeedsNumbers);
    }
  }

  method SelectInstant(m: Matrix) returns (out: Vector)
    ensures out == Newest(m)
  {
    out := [];
    for i := 0 to |m|
      invariant out == Newest(m[..i])
    {
      assert m[..i + 1][..i] == m[..i];
      var samples := m[i].points;
      if |samples| == 0 {
        continue;
      }
      var last := samples[|samples| - 1];
      out := out + [VectorSample(m[i].metric, last.t, last.v)];
    }
    assert m[..|m|] == m;
  }

  method RunAggregate(env: Env, name: string, v: Vector, g: Option<Grouping>, ts: Int64, param: real, text: string)
    returns (r: Result<Value, Failure>)
    ensures r == AggregateNamed(env, name, v, g, ts, param, text)
  {
    hide Aggregation.Aggregated;
    hide Topk.TopkOf;
    var names, without := GroupingNames(env, g), g.Some? && g.value.without;
    if name == "count_values" {
      return Ok(VectorValue(env.countValues(v, names, without, ts, text)));
    }
    if name == "topk" || name == "bottomk" {
      var out := Topk.AggregateTopk(name == "topk", v, names, without, ts, LimitOf(env, param));
      return Ok(VectorValue(out));
    }
    var a := AggregatorOf(env, name, param);
    if a.None? {
      return Err(UnknownAggregation);
    }
    var out := Aggregation.Aggregate(a.value, v, names, without, ts);
    return Ok(VectorValue(out));
  }

  /** Keys in order of first appearance and the series under each key. */
  datatype Gathered = Gathered(order: seq<Bytes>, byKey: map<Bytes, Bucket<Point>>)

  method AddSamples(g: Gathered, t: Int64, v: Vector, ghost series: seq<Bucket<Point>>) returns (r: Gathered)
    requires Represents(g.order, g.byKey, series)
    ensures Represents(r.order, r.byKey, AddVector(series, t, v))
  {
    hide Text;
    hide Collect;
    r := g;
    for i := 0 to |v|
      invariant Represents(r.order, r.byKey, AddVector(series, t, v[..i]))
    {
      assert v[..i + 1][..i] == v[..i];
      var key, p := Text(v[i].metric), Point(t, v[i].v);
      RepresentsStep(r.order, r.byKey, AddVector(series, t, v[..i]), v[i].metric, p);
      hide Represents;
      if key in r.byKey {
        r := r.(byKey := r.byKey[key := r.byKey[key].(values := r.byKey[key].values + [p])]);
      } else {
        r := Gathered(r.order + [key], r.byKey[key := Bucket(v[i].metric, [p])]);
      }
    }
    assert v[..|v|] == v;
  }

  lemma {:induction false} StepsFail(env: Env, b: Bounds, e: Expr, first: Int64, step: Int64, k: nat, n: nat)
    requires k <= n && StepsOf(env, b, e, first, step, k).Err?
    ensures StepsOf(env, b, e, first, step, n) == StepsOf(env, b, e, first, step, k)
    decreases n
  {
    hide Eval;
    if k < n {
      StepsFail(env, b, e, first, step, k, n - 1);
    }
  }

  /** The stepping loop of range queries and subqueries. */
  method RunSteps(env: Env, b: Bounds, e: Expr, first: Int64, step: Int64, count: nat) returns (r: Result<Gathered, Failure>)
    ensures var steps := StepsOf(env, b, e, first, step, count);
            && (steps.Err? ==> r == Err(steps.error))
            && (steps.Ok? ==> r.Ok? && Represents(r.value.order, r.value.byKey, Assembled(steps.value)))
    decreases e, 1, count
  {
    hide Eval;
    hide Represents;
    hide AddVector;
    hide StepTime;
    hide StepVector;
    hide StepsOf;
    hide Assembled;
    NoSteps(env, b, e, first, step);
    ghost var steps: seq<Step> := [];
    var g := Gathered([], map[]);
    assert Represents(g.order, g.byKey, Assembled(steps)) by { NothingGathered(); }
    for i := 0 to count
      invariant StepsOf(env, b, e, first, step, i) == Ok(steps)
      invariant Represents(g.order, g.byKey, Assembled(steps))
    {
      var t := StepTime(first, step, i);
      var v := EvalExpr(env, b, e, t);
      NextStep(env, b, e, first, step, i);
      if v.Err? || StepVector(v.value, t).None? {
        StepsFail(env, b, e, first, step, i + 1, count);
        return Err(if v.Err? then v.error else NeitherScalarNorVector);
      }
      var vector := StepVector(v.value, t).value;
      g := AddSamples(g, t, vector, Assembled(steps));
      AssembledSnoc(steps, Step(t, vector));
      steps := steps + [Step(t, vector)];
    }
    return Ok(g);
  }

  lemma NoSteps(env: Env, b: Bounds, e: Expr, first: Int64, step: Int64)
    ensures StepsOf(env, b, e, first, step, 0) == Ok([])
  {
  }

  lemma NextStep(env: Env, b: Bounds, e: Expr, first: Int64, step: Int64, k: nat)
    ensures var before, next := StepsOf(env, b, e, first, step, k), StepsOf(env, b, e, first, step, k + 1);
            var t := StepTime(first, step, k);
            var v := Eval(env, b, e, t);
            before.Ok? ==>
              next == if v.Err? then Err(v.error)
                      else if StepVector(v.value, t).None? then Err(NeitherScalarNorVector)
                      else Ok(before.value + [Step(t, StepVector(v.value, t).value)])
  {
    hide Eval;
    hide StepTime;
    hide StepVector;
  }

  lemma AssembledSnoc(steps: seq<Step>, s: Step)
    ensures Assembled(steps + [s]) == AddVector(Assembled(steps), s.t, s.vector)
  {
    assert (steps + [s])[..|steps|] == steps;
  }

  lemma NothingGathered()
    ensures Represents<Point>([], map[], Assembled([]))
  {
  }

  /** Series in order of first appearance. */
  method EvalSubquery(env: Env, b: Bounds, e: Expr, q: Resolution) returns (r: Result<Value, Failure>)
    ensures r == AssembledValue(StepsOf(env, b, e, q.first, q.step, q.count))
    decreases e, 2, 0
  {
    hide StepsOf;
    hide Assembled;
    hide Text;
    var g := RunSteps(env, b, e, q.first, q.step, q.count);
    if g.Err? {
      return Err(g.error);
    }
    ghost var series := Assembled(StepsOf(env, b, e, q.first, q.step, q.count).value);
    var m: Matrix := [];
    for i := 0 to |g.value.order|
      invariant m == MatrixOf(series)[..i]
    {
      var s := g.value.byKey[g.value.order[i]];
      m := m + [SeriesData(s.labels, s.values)];
    }
    assert m == MatrixOf(series);
    return Ok(MatrixValue(m));
  }

  // ---- Instant queries ----

  function Retimed(v: Vector, ts: Int64): (r: Vector)
    ensures |r| == |v| && forall i :: 0 <= i < |v| ==> r[i] == v[i].(t := ts)
  {
    seq(|v|, i requires 0 <= i < |v| => v[i].(t := ts))
  }

  /** The value at an instant; samples are reported at that instant. */
  function InstantResult(env: Env, e: Expr, ts: Int64): Result<Value, Failure> {
    match Eval(env, Bounds(ts, ts), e, ts)
    case Ok(VectorValue(v)) => Ok(VectorValue(Retimed(v, ts)))
    case other => other
  }

  method InstantQuery(env: Env, parsed: Option<Expr>, ts: Int64) returns (r: Result<Value, QueryError>)
    ensures parsed.None? ==> r == Err(ParseFailed)
    ensures parsed.Some? ==>
              var v := InstantResult(env, parsed.value, ts);
              r == if v.Ok? then Ok(v.value) else Err(EvalFailed(v.error))
  {
    hide Eval;
    if parsed.None? {
      return Err(ParseFailed);
    }
    var v := EvalExpr(env, Bounds(ts, ts), parsed.value, ts);
    if v.Err? {
      return Err(EvalFailed(v.error));
    }
    if v.value.VectorValue? {
      var vector := v.value.v;
      for i := 0 to |vector|
        invariant |vector| == |v.value.v|
        invariant vector[..i] == Retimed(v.value.v, ts)[..i]
        invariant vector[i..] == v.value.v[i..]
      {
        assert vector[i] == vector[i..][0] == v.value.v[i];
        vector := vector[i := vector[i].(t := ts)];
      }
      assert vector == Retimed(v.value.v, ts);
      return Ok(VectorValue(vector));
    }
    return Ok(v.value);
  }

  // ---- Range queries ----

  /** The checks a range query makes before evaluating, in int64 arithmetic. */
  function RangeGuard(start: Int64, end: Int64, step: Int64): Option<QueryError> {
    if step <= 0 then Some(StepNotPositive)
    else if end < start then Some(EndBeforeStart)
    else if Wrap64(end - start) < 0 then Some(RangeTooLarge)
    else if Wrap64(Wrap64(end - start) / step + 1) > MAX_RESOLUTION then Some(TooManyPoints)
    else None
  }

  /** The one pair of span and step whose point count wraps to a negative number; the loop then never ends. */
  predicate Endless(start: Int64, end: Int64, step: Int64) {
    end - start == TWO_63 - 1 && step == 1
  }

  /** The number of points from start to end. */
  function PointCount(start: Int64, end: Int64, step: Int64): nat
    requires start <= end && step > 0
  {
    (end - start) / step + 1
  }

  /** The guard lets a range through exactly when its span fits and it has at most 11000 points, or it is the endless one. */
  lemma GuardExact(start: Int64, end: Int64, step: Int64)
    requires start <= end && step > 0
    ensures RangeGuard(start, end, step).None? <==>
            end - start < TWO_63 && (PointCount(start, end, step) <= MAX_RESOLUTION || Endless(start, end, step))
  {
    var span := end - start;
    if span < TWO_63 {
      assert Wrap64(span) == span;
      QuotientBounds(span, step);
      if span / step + 1 < TWO_63 {
        assert Wrap64(span / step + 1) == span / step + 1;
      } else {
        assert span / step == TWO_63 - 1;
        assert Endless(start, end, step);
      }
    }
  }

  /** The count of the widest range at step 1 wraps past the guard. */
  lemma GuardWraps()
    ensures RangeGuard(0, TWO_63 - 1, 1).None? && PointCount(0, TWO_63 - 1, 1) == TWO_63
  {
    GuardExact(0, TWO_63 - 1, 1);
  }

  lemma AtLeast(q: int, step: int, k: int)
    requires q >= 0 && step >= k
    ensures k * q <= q * step
  {
    assert q * (step - k) >= 0;
  }

  lemma QuotientBounds(span: int, step: int)
    requires span >= 0 && step > 0
    ensures 0 <= span / step <= span
    ensures step >= 2 && span > 0 ==> span / step < span
  {
    var q := span / step;
    assert q >= 0;
    AtLeast(q, step, 1);
    if step >= 2 {
      AtLeast(q, step, 2);
    }
    assert span == q * step + span % step;
  }

  lemma QuotientTimes(span: int, step: int)
    requires span >= 0 && step > 0
    ensures span / step * step <= span < span / step * step + step
  {
  }

  lemma TimesMonotone(i: int, q: int, step: int)
    requires 0 <= i <= q && step > 0
    ensures 0 <= i * step <= q * step
  {
    assert (q - i) * step >= 0;
  }

  /** Every visited time is start + i * step, without wrap-around, and lies between start and end. */
  lemma VisitedTimes(start: Int64, end: Int64, step: Int64, i: nat)
    requires start <= end && step > 0 && RangeGuard(start, end, step).None? && i < PointCount(start, end, step)
    ensures start <= start + i * step <= end
    ensures StepTime(start, step, i) == start + i * step
    ensures i == PointCount(start, end, step) - 1 ==> start + i * step + step > end
  {
    GuardExact(start, end, step);
    var span := end - start;
    QuotientTimes(span, step);
    TimesMonotone(i, span / step, step);
  }

  /** Series in ascending order of text, each holding the points of its text; no text with points is missing. */
  ghost predicate IsRangeResult(m: Matrix, points: Bytes -> seq<Point>) {
    && (forall i, j :: 0 <= i < j < |m| ==> LexLess(Text(m[i].metric), Text(m[j].metric)))
    && (forall i :: 0 <= i < |m| ==> m[i].points != [] && m[i].points == points(Text(m[i].metric)))
    && (forall text :: points(text) != [] ==> exists i :: 0 <= i < |m| && Text(m[i].metric) == text)
  }

  lemma OrderDistinct(order: seq<Bytes>, byKey: map<Bytes, Bucket<Point>>, series: seq<Bucket<Point>>)
    requires Represents(order, byKey, series)
    ensures forall i, j :: 0 <= i < j < |order| ==> order[i] != order[j]
  {
    hide Text;
    forall i, j | 0 <= i < j < |order| ensures order[i] != order[j] {
      assert Text(series[i].labels) != Text(series[j].labels);
    }
  }

  /** The series of the sorted keys are the range result. */
  lemma SortedIsRangeResult(order: seq<Bytes>, byKey: map<Bytes, Bucket<Point>>, series: seq<Bucket<Point>>,
                            points: Bytes -> seq<Point>, sorted: seq<Bytes>, m: Matrix)
    requires Represents(order, byKey, series) && HoldsPoints(series, points)
    requires multiset(sorted) == multiset(order) && Sorting.SortedBy(BytesLess, sorted)
    requires |m| == |sorted| && forall i :: 0 <= i < |m| ==> sorted[i] in byKey
                                                             && m[i] == SeriesData(byKey[sorted[i]].labels, byKey[sorted[i]].values)
    ensures IsRangeResult(m, points)
  {
    hide Text;
    hide LexLess;
    OrderDistinct(order, byKey, series);
    StrictlySorted(order, sorted);
    Sorting.SameMembers(order, sorted);
    forall i | 0 <= i < |m|
      ensures Text(m[i].metric) == sorted[i] && m[i].points != [] && m[i].points == points(sorted[i])
    {
      var k :| 0 <= k < |order| && order[k] == sorted[i];
      assert byKey[order[k]] == series[k];
    }
    forall text | points(text) != [] ensures exists i :: 0 <= i < |m| && Text(m[i].metric) == text {
      assert HasText(series, text);
      var k :| 0 <= k < |series| && Text(series[k].labels) == text;
      assert order[k] in sorted;
      var i :| 0 <= i < |sorted| && sorted[i] == order[k];
      assert Text(m[i].metric) == text;
    }
  }

  /** The outcome of a range query once its range is admitted. */
  ghost predicate RangeOutcome(env: Env, e: Expr, start: Int64, end: Int64, step: Int64, r: Result<Matrix, QueryError>)
    requires start <= end && step > 0
  {
    var steps := StepsOf(env, Bounds(start, end), e, start, step, PointCount(start, end, step));
    if steps.Err? then r == Err(EvalFailed(steps.error))
    else r.Ok? && IsRangeResult(r.value, text => PointsFor(steps.value, text))
  }

  /** A range query; None stands for a call that never returns. */
  method RangeQuery(env: Env, parsed: Option<Expr>, start: Int64, end: Int64, step: Int64)
    returns (r: Option<Result<Matrix, QueryError>>)
    ensures var refused := RangeGuard(start, end, step);
            if refused.Some? then r == Some(Err(refused.value))
            else if parsed.None? then r == Some(Err(ParseFailed))
            else if Endless(start, end, step) then r == EndlessOutcome(env, parsed.value, start, end)
            else r.Some? && RangeOutcome(env, parsed.value, start, end, step, r.value)
  {
    hide StepsOf;
    hide RangeOutcome;
    if step <= 0 {
      return Some(Err(StepNotPositive));
    }
    if end < start {
      return Some(Err(EndBeforeStart));
    }
    var span := Wrap64(end - start);
    if span < 0 {
      return Some(Err(RangeTooLarge));
    }
    var steps := span / step;
    if Wrap64(steps + 1) > MAX_RESOLUTION {
      return Some(Err(TooManyPoints));
    }
    if parsed.None? {
      return Some(Err(ParseFailed));
    }
    assert span == end - start && steps + 1 == PointCount(start, end, step) by {
      GuardExact(start, end, step);
    }
    if steps == TWO_63 - 1 {
      EndlessIff(start, end, step);
      var g := RunSteps(env, Bounds(start, end), parsed.value, start, step, TWO_64);
      return if g.Err? then Some(Err(EvalFailed(g.error))) else None;
    }
    var m := EvalRange(env, parsed.value, start, end, step, steps + 1);
    return Some(m);
  }

  lemma EndlessIff(start: Int64, end: Int64, step: Int64)
    requires 0 <= end - start < TWO_63 && step > 0
    ensures (end - start) / step == TWO_63 - 1 <==> Endless(start, end, step)
  {
    QuotientBounds(end - start, step);
  }

  /** When the last count is the largest int64, the counter never passes it: it wraps, and after 2^64 steps every time
      has been visited and the loop starts over. It ends only at a step that fails. */
  ghost function EndlessOutcome(env: Env, e: Expr, start: Int64, end: Int64): Option<Result<Matrix, QueryError>> {
    match StepsOf(env, Bounds(start, end), e, start, 1, TWO_64)
    case Err(f) => Some(Err(EvalFailed(f)))
    case Ok(_) => None
  }

  /** If none of the first 2^64 steps fails, none ever does. */
  lemma {:induction false} EndlessGoesOn(env: Env, b: Bounds, e: Expr, start: Int64, n: nat)
    requires StepsOf(env, b, e, start, 1, TWO_64).Ok?
    ensures StepsOf(env, b, e, start, 1, n).Ok?
    decreases n
  {
    hide Eval;
    hide StepTime;
    if n <= TWO_64 {
      if StepsOf(env, b, e, start, 1, n).Err? {
        StepsFail(env, b, e, start, 1, n, TWO_64);
      }
    } else {
      EndlessGoesOn(env, b, e, start, n - 1);
      var k := (n - 1) % TWO_64;
      SameTime(start, n - 1);
      if StepsOf(env, b, e, start, 1, k + 1).Err? {
        StepsFail(env, b, e, start, 1, k + 1, TWO_64);
      }
    }
  }

  lemma SameTime(start: Int64, i: nat)
    ensures StepTime(start, 1, i) == StepTime(start, 1, i % TWO_64)
  {
    var q, r := i / TWO_64, i % TWO_64;
    assert i == r + q * TWO_64;
    WrapAround(r, q);
  }

  lemma WrapAround(r: int, q: int)
    ensures Wrap64(r + q * TWO_64) == Wrap64(r)
  {
    assert (r + TWO_63 + q * TWO_64) % TWO_64 == (r + TWO_63) % TWO_64;
  }

  method EvalRange(env: Env, e: Expr, start: Int64, end: Int64, step: Int64, count: nat) returns (r: Result<Matrix, QueryError>)
    requires start <= end && step > 0 && count == PointCount(start, end, step)
    ensures RangeOutcome(env, e, start, end, step, r)
  {
    hide StepsOf;
    hide Assembled;
    hide PointsFor;
    hide Text;
    hide LexLess;
    hide IsRangeResult;
    hide Sorting.StableSort;
    var g := RunSteps(env, Bounds(start, end), e, start, step, count);
    if g.Err? {
      return Err(EvalFailed(g.error));
    }
    ghost var steps := StepsOf(env, Bounds(start, end), e, start, step, count).value;
    AssembledExact(steps);
    var order, byKey := g.value.order, g.value.byKey;
    var sorted := Sorting.StableSort(BytesLess, order);
    BytesLessIsOrder();
    Sorting.StableSortSorts(BytesLess, order);
    Sorting.SameMembers(order, sorted);
    var m: Matrix := [];
    for i := 0 to |sorted|
      invariant |m| == i
      invariant forall k :: 0 <= k < i ==> sorted[k] in byKey
                                           && m[k] == SeriesData(byKey[sorted[k]].labels, byKey[sorted[k]].values)
    {
      assert sorted[i] in order;
      var s := byKey[sorted[i]];
      m := m + [SeriesData(s.labels, s.values)];
    }
    SortedIsRangeResult(order, byKey, Assembled(steps), text => PointsFor(steps, text), sorted, m);
    return Ok(m);
  }

  // ---- A range query is the pointwise instant query ----

  /** What one instant result contributes to the series of a label text. */
  function InstantPoints(r: Result<Value, Failure>, t: Int64, text: Bytes): seq<Point> {
    match r
    case Ok(ScalarValue(s)) => PointsIn([VectorSample([], t, s)], t, text)
    case Ok(VectorValue(v)) => PointsIn(v, t, text)
    case _ => []
  }

  /** The points of the first k instant queries at start + i * step, in time order. */
  ghost function Pointwise(env: Env, e: Expr, start: int, step: int, k: nat, text: Bytes): seq<Point>
    requires forall i :: 0 <= i < k ==> -TWO_63 <= start + i * step < TWO_63
  {
    if k == 0 then []
    else
      var t := start + (k - 1) * step;
      Pointwise(env, e, start, step, k - 1, text) + InstantPoints(InstantResult(env, e, t), t, text)
  }

  predicate Plottable(r: Result<Value, Failure>) {
    r.Ok? && (r.value.ScalarValue? || r.value.VectorValue?)
  }

  lemma {:induction false} RetimedPoints(v: Vector, t: Int64, text: Bytes)
    ensures PointsIn(Retimed(v, t), t, text) == PointsIn(v, t, text)
  {
    hide Text;
    if v != [] {
      RetimedPoints(v[..|v| - 1], t, text);
      assert Retimed(v, t)[..|v| - 1] == Retimed(v[..|v| - 1], t);
    }
  }

  /** One step of a range query sees what the instant query at its time returns. */
  lemma StepIsInstant(env: Env, b: Bounds, e: Expr, t: Int64, text: Bytes)
    requires BoundsFree(e)
    ensures var v, r := Eval(env, b, e, t), InstantResult(env, e, t);
            && (v.Ok? && StepVector(v.value, t).Some? <==> Plottable(r))
            && (Plottable(r) ==> PointsIn(StepVector(v.value, t).value, t, text) == InstantPoints(r, t, text))
  {
    hide Eval;
    hide PointsIn;
    BoundsIrrelevant(env, b, Bounds(t, t), e, t);
    var v := Eval(env, b, e, t);
    if v.Ok? && v.value.VectorValue? {
      RetimedPoints(v.value.v, t, text);
    }
  }

  lemma {:induction false} StepsArePointwise(env: Env, b: Bounds, e: Expr, start: Int64, step: Int64, k: nat, text: Bytes)
    requires BoundsFree(e)
    requires forall i: nat :: 0 <= i < k ==> -TWO_63 <= start + i * step < TWO_63 && StepTime(start, step, i) == start + i * step
    ensures var steps := StepsOf(env, b, e, start, step, k);
            && (steps.Ok? <==> forall i :: 0 <= i < k ==> Plottable(InstantResult(env, e, start + i * step)))
            && (steps.Ok? ==> PointsFor(steps.value, text) == Pointwise(env, e, start, step, k, text))
    decreases k
  {
    hide Eval;
    hide InstantResult;
    hide PointsIn;
    hide InstantPoints;
    hide Plottable;
    hide StepTime;
    hide StepVector;
    if k > 0 {
      var t: Int64 := start + (k - 1) * step;
      StepsArePointwise(env, b, e, start, step, k - 1, text);
      assert StepTime(start, step, k - 1) == t;
      StepIsInstant(env, b, e, t, text);
      var steps := StepsOf(env, b, e, start, step, k - 1);
      if steps.Ok? && Plottable(InstantResult(env, e, t)) {
        var s := steps.value;
        var all := s + [Step(t, StepVector(Eval(env, b, e, t).value, t).value)];
        assert all[..|s|] == s;
      }
    }
  }

  /** Without @ start() and @ end(), a range query succeeds exactly when every instant query it stands for gives numbers,
      and then each series holds, in time order, what those instant queries give for its labels. */
  lemma RangeIsPointwiseInstant(env: Env, e: Expr, start: Int64, end: Int64, step: Int64, r: Result<Matrix, QueryError>)
    requires BoundsFree(e)
    requires start <= end && step > 0 && RangeGuard(start, end, step).None?
    requires RangeOutcome(env, e, start, end, step, r)
    ensures var n := PointCount(start, end, step);
            && (forall i :: 0 <= i < n ==> start <= start + i * step <= end)
            && (r.Ok? <==> forall i :: 0 <= i < n ==> Plottable(InstantResult(env, e, start + i * step)))
            && (r.Ok? ==> IsRangeResult(r.value, text => Pointwise(env, e, start, step, n, text)))
  {
    hide StepsOf;
    hide Eval;
    hide InstantResult;
    hide Pointwise;
    hide PointsFor;
    hide Plottable;
    hide StepTime;
    hide LexLess;
    hide Text;
    var n, b := PointCount(start, end, step), Bounds(start, end);
    forall i: nat | 0 <= i < n ensures start <= start + i * step <= end && StepTime(start, step, i) == start + i * step {
      VisitedTimes(start, end, step, i);
    }
    hide RangeGuard;
    hide PointCount;
    forall text: Bytes
      ensures var steps := StepsOf(env, b, e, start, step, n);
              && (steps.Ok? <==> forall i :: 0 <= i < n ==> Plottable(InstantResult(env, e, start + i * step)))
              && (steps.Ok? ==> PointsFor(steps.value, text) == Pointwise(env, e, start, step, n, text))
    {
      StepsArePointwise(env, b, e, start, step, n, text);
    }
    StepsArePointwise(env, b, e, start, step, n, []);
    if r.Ok? {
      var steps := StepsOf(env, b, e, start, step, n).value;
      SamePoints(r.value, text => PointsFor(steps, text), text => Pointwise(env, e, start, step, n, text));
    }
  }

  lemma SamePoints(m: Matrix, p: Bytes -> seq<Point>, q: Bytes -> seq<Point>)
    requires IsRangeResult(m, p) && forall text :: p(text) == q(text)
    ensures IsRangeResult(m, q)
  {
    hide Text;
    hide LexLess;
  }
}
