/** Evaluating an expression at one instant. */
module Evaluation {
  import opened Base
  import opened Labels
  import opened Vectors
  import opened Buckets
  import opened Syntax
  import opened Aggregation
  import Arithmetic
  import Topk
  import Matching
  import Operators
  import Samples

  /** What the evaluator takes from elsewhere: storage, number parsing, and the function library. */
  datatype Env = Env(
    select: (Int64, Int64, string, seq<Matcher>) -> Matrix,
    lookback: Int64,
    number: string -> real,
    millis: string -> Int64,
    bytes: string -> Bytes,
    other: (Op, real, real) -> real,
    deviation: seq<real> -> real,
    quantile: (real, seq<real>) -> real,
    wide: real -> Int64,
    countValues: (Vector, set<Bytes>, bool, Int64, string) -> Vector,
    call: (string, Args, seq<Result<Value, Failure>>, Int64) -> Result<Value, Failure>)

  /** The bounds of the query, for @ start() and @ end(). */
  datatype Bounds = Bounds(start: Int64, end: Int64)

  const DEFAULT_SUBQUERY_STEP: Int64 := 60000
  const MAX_RESOLUTION: int := 11000

  // ---- Times ----

  function DurationOf(text: string): Int64 {
    match DurationMs(text)
    case Some(d) => d
    case None => 0
  }

  function ResolveTime(env: Env, b: Bounds, at: Option<AtMod>, ts: Int64): Int64 {
    match at
    case None => ts
    case Some(AtTime(neg, number)) => if neg then Wrap64(0 - env.millis(number)) else env.millis(number)
    case Some(AtStart) => b.start
    case Some(AtEnd) => b.end
  }

  function OffsetOf(offset: Option<OffsetMod>): Int64 {
    match offset
    case None => 0
    case Some(OffsetMod(neg, d)) => if neg then Wrap64(0 - DurationOf(d)) else DurationOf(d)
  }

  function SelectionTime(env: Env, b: Bounds, mods: Modifiers, ts: Int64): Int64 {
    Wrap64(ResolveTime(env, b, mods.at, ts) - OffsetOf(mods.offset))
  }

  /** Go's integer division: towards zero. */
  function TruncDiv(a: int, b: int): int
    requires b > 0
  {
    if a >= 0 then a / b else -((-a) / b)
  }

  /** The i-th time of a stepped evaluation, in int64 arithmetic. */
  function StepTime(first: Int64, step: Int64, i: nat): Int64 {
    Wrap64(first + Wrap64(i * step))
  }

  // ---- Pieces ----

  /** The newest sample of each series that has one. */
  function Newest(m: Matrix): Vector {
    if m == [] then []
    else
      var front, s := Newest(m[..|m| - 1]), m[|m| - 1];
      if s.points == [] then front
      else
        var p := s.points[|s.points| - 1];
        front + [VectorSample(s.metric, p.t, p.v)]
  }

  function Negated(v: Vector): (r: Vector)
    ensures |r| == |v| && forall i :: 0 <= i < |v| ==> r[i] == VectorSample(DropMetricName(v[i].metric), v[i].t, -v[i].v)
  {
    seq(|v|, i requires 0 <= i < |v| => VectorSample(DropMetricName(v[i].metric), v[i].t, -v[i].v))
  }

  function NamesOf(env: Env, names: seq<string>): set<Bytes> {
    set n | n in names :: env.bytes(n)
  }

  function GroupingNames(env: Env, g: Option<Grouping>): set<Bytes> {
    if g.None? then {} else NamesOf(env, g.value.labels)
  }

  function Mapped(env: Env, names: seq<string>): (r: seq<Bytes>)
    ensures |r| == |names|
  {
    seq(|names|, i requires 0 <= i < |names| => env.bytes(names[i]))
  }

  function SpecOf(env: Env, m: Option<Syntax.Matching>): Option<Matching.MatchSpec> {
    match m
    case None => None
    case Some(x) =>
      var card := match x.card
        case OneToOne => Matching.OneToOne
        case ManyToOne => Matching.ManyToOne
        case OneToMany => Matching.OneToMany;
      Some(Matching.MatchSpec(card, x.clause.Some? && x.clause.value.on,
                              if x.clause.Some? then NamesOf(env, x.clause.value.labels) else {}, Mapped(env, x.included)))
  }

  /** int(f): what an int64 cannot hold is converted as the platform does. */
  function LimitOf(env: Env, param: real): Int64 {
    var k := Arithmetic.Truncated(param);
    if -TWO_63 <= k < TWO_63 then k else env.wide(param)
  }

  /** The grouping reductions by name. */
  function AggregatorOf(env: Env, name: string, param: real): Option<Aggregator> {
    if name == "sum" then Some(Sum)
    else if name == "avg" then Some(Avg)
    else if name == "min" then Some(Min)
    else if name == "max" then Some(Max)
    else if name == "count" then Some(Count)
    else if name == "group" then Some(Group)
    else if name == "stdvar" then Some(Stdvar)
    else if name == "stddev" then Some(Other(env.deviation))
    else if name == "quantile" then Some(Other(xs => env.quantile(param, xs)))
    else None
  }

  function AggregateNamed(env: Env, name: string, v: Vector, g: Option<Grouping>, ts: Int64, param: real, text: string): Result<Value, Failure> {
    var names, without := GroupingNames(env, g), g.Some? && g.value.without;
    if name == "count_values" then Ok(VectorValue(env.countValues(v, names, without, ts, text)))
    else if name == "topk" || name == "bottomk" then
      Ok(VectorValue(Topk.TopkOf(name == "topk", v, names, without, ts, LimitOf(env, param))))
    else
      match AggregatorOf(env, name, param)
      case None => Err(UnknownAggregation)
      case Some(a) => Ok(VectorValue(Aggregated(a, v, names, without, ts)))
  }

  /** What a stepped evaluation adds at one step: a scalar is a sample without labels. */
  function StepVector(v: Value, t: Int64): Option<Vector> {
    match v
    case ScalarValue(s) => Some([VectorSample([], t, s)])
    case VectorValue(x) => Some(x)
    case _ => None
  }

  /** One step of a stepped evaluation. */
  datatype Step = Step(t: Int64, vector: Vector)

  /** Adds each sample of a step to the series of its labels, at the time of the step. */
  function AddVector(series: seq<Bucket<Point>>, t: Int64, v: Vector): seq<Bucket<Point>> {
    if v == [] then series
    else
      var s := v[|v| - 1];
      Collect(AddVector(series, t, v[..|v| - 1]), s.metric, Point(t, s.v))
  }

  function Assembled(steps: seq<Step>): seq<Bucket<Point>> {
    if steps == [] then []
    else
      var s := steps[|steps| - 1];
      AddVector(Assembled(steps[..|steps| - 1]), s.t, s.vector)
  }

  function MatrixOf(series: seq<Bucket<Point>>): (m: Matrix)
    ensures |m| == |series| && forall i :: 0 <= i < |m| ==> m[i] == SeriesData(series[i].labels, series[i].values)
  {
    seq(|series|, i requires 0 <= i < |series| => SeriesData(series[i].labels, series[i].values))
  }

  // ---- Evaluation ----

  datatype Resolution = Resolution(first: Int64, step: Int64, count: nat)

  /** The first time, step and number of steps of a subquery; a count of zero when its range is negative. */
  function SubqueryResolution(env: Env, b: Bounds, range: string, step: Option<string>, mods: Modifiers, ts: Int64): Resolution {
    var given := if step.Some? then DurationOf(step.value) else 0;
    var s := if given <= 0 then DEFAULT_SUBQUERY_STEP else given;
    var r := DurationOf(range);
    var n := TruncDiv(r, s);
    Resolution(Wrap64(SelectionTime(env, b, mods, ts) - r), s, if n < 0 then 0 else n + 1)
  }

  /** A subquery has at most 2^60 steps, so neither counting them nor stepping through them wraps. */
  lemma SubqueryCountFits(env: Env, b: Bounds, range: string, step: Option<string>, mods: Modifiers, ts: Int64)
    ensures var r := SubqueryResolution(env, b, range, step, mods, ts);
            && r.step >= 8 && r.count <= TWO_63 / 8
            && Wrap64(r.count) == r.count
            && forall i {:trigger i * r.step} :: 0 <= i < r.count ==>
                 Wrap64(i * r.step) == i * r.step && (i == 0 || i * r.step <= DurationOf(range))
  {
    hide DurationMs;
    hide SelectionTime;
    hide DurationOf;
    var q := SubqueryResolution(env, b, range, step, mods, ts);
    var r: int := DurationOf(range);
    if step.Some? {
      DurationOfByEights(step.value);
    }
    if r >= 0 {
      StepCount(r, q.step);
      forall i | 0 <= i < q.count ensures Wrap64(i * q.step) == i * q.step && (i == 0 || i * q.step <= r) {
        StepWithin(r, q.step, i);
      }
    } else {
      StepCount(-r, q.step);
    }
  }

  lemma StepCount(r: int, step: int)
    requires 0 <= r <= TWO_63 && step >= 8
    ensures 0 <= r / step <= r / 8
  {
    var q := r / step;
    assert r == q * step + r % step;
    assert q * (step - 8) >= 0;
  }

  lemma StepWithin(r: int, step: int, i: nat)
    requires 0 <= r < TWO_63 && step >= 8 && i <= r / step
    ensures 0 <= i * step <= r
  {
    var q := r / step;
    assert r == q * step + r % step;
    assert (q - i) * step >= 0;
  }

  lemma DurationOfByEights(text: string)
    ensures DurationOf(text) % 8 == 0
  {
    if text != "" {
      DurationByEights(text, 0);
    }
  }

  function Eval(env: Env, b: Bounds, e: Expr, ts: Int64): Result<Value, Failure>
    decreases e, 0, 0
  {
    match e
    case NumberLiteral(text) => Ok(ScalarValue(env.number(text)))
    case StringLiteral(val) => Ok(StringValue(val))
    case ParenExpr(x) => Eval(env, b, x, ts)
    case UnaryExpr(x) => Negation(Eval(env, b, x, ts))
    case VectorSelector(name, matchers, mods) =>
      var at := SelectionTime(env, b, mods, ts);
      Ok(VectorValue(Newest(env.select(Wrap64(at - env.lookback), at, name, matchers))))
    case MatrixSelector(name, matchers, range, mods) =>
      var at := SelectionTime(env, b, mods, ts);
      Ok(MatrixValue(env.select(Wrap64(at - DurationOf(range)), at, name, matchers)))
    case SubqueryExpr(x, range, step, mods) =>
      var r := SubqueryResolution(env, b, range, step, mods, ts);
      if Wrap64(r.count) > MAX_RESOLUTION then Err(SubqueryTooFine)
      else
        AssembledValue(StepsOf(env, b, x, r.first, r.step, r.count))
    case Call(func, args) => env.call(func, args, EvalArgs(env, b, args, ts), ts)
    case AggregateExpr(aggr, grouping, param, x) =>
      var v := Eval(env, b, x, ts);
      if v.Err? then v
      else if !v.value.VectorValue? then Err(AggregationNeedsVector)
      else if param.None? then AggregateNamed(env, aggr, v.value.v, grouping, ts, 0.0, "")
      else AggregateWith(env, aggr, v.value.v, grouping, ts, Eval(env, b, param.value, ts))
    case BinaryExpr(op, lhs, rhs, returnBool, matching) =>
      var l := Eval(env, b, lhs, ts);
      if l.Err? then l
      else
        var r := Eval(env, b, rhs, ts);
        if r.Err? then r
        else Operators.Applied(op, (x, y) => env.other(op, x, y), returnBool, SpecOf(env, matching), l.value, r.value)
  }

  function AssembledValue(steps: Result<seq<Step>, Failure>): Result<Value, Failure> {
    match steps
    case Err(f) => Err(f)
    case Ok(s) => Ok(MatrixValue(MatrixOf(Assembled(s))))
  }

  /** An aggregation with an evaluated parameter. */
  function AggregateWith(env: Env, aggr: string, v: Vector, g: Option<Grouping>, ts: Int64, param: Result<Value, Failure>): Result<Value, Failure> {
    match param
    case Err(f) => Err(f)
    case Ok(ScalarValue(s)) => AggregateNamed(env, aggr, v, g, ts, s, "")
    case Ok(StringValue(text)) => AggregateNamed(env, aggr, v, g, ts, 0.0, text)
    case Ok(_) => Err(BadParameter)
  }

  function Negation(r: Result<Value, Failure>): Result<Value, Failure> {
    match r
    case Err(f) => Err(f)
    case Ok(ScalarValue(s)) => Ok(ScalarValue(-s))
    case Ok(VectorValue(v)) => Ok(VectorValue(Negated(v)))
    case Ok(_) => Err(UnaryNeedsNumbers)
  }

  function EvalArgs(env: Env, b: Bounds, args: Args, ts: Int64): seq<Result<Value, Failure>>
    decreases args, 0, 0
  {
    match args
    case NoArgs => []
    case Arg(first, more) => [Eval(env, b, first, ts)] + EvalArgs(env, b, more, ts)
  }

  /** The vectors of the first k steps, or the first failure. */
  function StepsOf(env: Env, b: Bounds, e: Expr, first: Int64, step: Int64, k: nat): (r: Result<seq<Step>, Failure>)
    ensures r.Ok? ==> |r.value| == k
    decreases e, 1, k
  {
    if k == 0 then Ok([])
    else
      match StepsOf(env, b, e, first, step, k - 1)
      case Err(f) => Err(f)
      case Ok(steps) =>
        var t := StepTime(first, step, k - 1);
        match Eval(env, b, e, t)
        case Err(f) => Err(f)
        case Ok(v) =>
          if StepVector(v, t).None? then Err(NeitherScalarNorVector)
          else Ok(steps + [Step(t, StepVector(v, t).value)])
  }

  // ---- A range can be asked for the wrong way round ----

  lemma DecimalPush(s: string, c: char, t: string)
    requires (forall i :: 0 <= i < |s| ==> IsDigit(s[i])) && IsDigit(c) && t == s + [c]
    ensures forall i :: 0 <= i < |t| ==> IsDigit(t[i])
    ensures DecimalValue(t) == 10 * DecimalValue(s) + (c as int - '0' as int)
  {
    assert t[..|s|] == s;
  }

  lemma {:induction false} DigitRunOf(s: string, rest: string)
    requires forall i :: 0 <= i < |s| ==> IsDigit(s[i])
    requires rest != "" && !IsDigit(rest[0])
    ensures DigitRun(s + rest) == |s|
  {
    if s == "" {
      assert s + rest == rest;
    } else {
      assert (s + rest)[1..] == s[1..] + rest;
      DigitRunOf(s[1..], rest);
    }
  }

  lemma NineDigits()
    ensures (forall i :: 0 <= i < 9 ==> IsDigit("584942417"[i])) && DecimalValue("584942417") == 584942417
  {
    assert DecimalValue("") == 0;
    hide DecimalValue;
    DecimalPush("", '5', "5");
    DecimalPush("5", '8', "58");
    DecimalPush("58", '4', "584");
    DecimalPush("584", '9', "5849");
    DecimalPush("5849", '4', "58494");
    DecimalPush("58494", '2', "584942");
    DecimalPush("584942", '4', "5849424");
    DecimalPush("5849424", '1', "58494241");
    DecimalPush("58494241", '7', "584942417");
  }

  /** So many years wrap to a negative number of milliseconds. */
  lemma YearsWrap()
    ensures DurationMs("584942417y") == Some(-11197551616)
  {
    hide DecimalValue;
    hide DigitRun;
    NineDigits();
    var d := "584942417";
    DigitRunOf(d, "y");
    var s := "584942417y";
    assert s == d + "y" && s[..9] == d && s[10..] == "";
    assert Wrap64(584942417 * 31536000000) == -11197551616;
  }

  /** A range selector whose duration wraps to less than zero asks storage for a range that ends before it starts,
      and storage then cannot slice a series with a sample in between. */
  lemma ReversedSelection(env: Env, b: Bounds, name: string, matchers: seq<Matcher>, ts: Int64)
    requires ts + 11197551616 < TWO_63
    ensures var e := MatrixSelector(name, matchers, "584942417y", Modifiers(None, None));
            Eval(env, b, e, ts) == Ok(MatrixValue(env.select(ts + 11197551616, ts, name, matchers)))
    ensures !Samples.Sliceable([Samples.Sample(ts + 1, 0)], ts + 11197551616, ts)
  {
    hide DurationMs;
    YearsWrap();
    var one := [Samples.Sample(ts + 1, 0)];
    assert ts < one[0].t < ts + 11197551616;
  }

  // ---- The bounds of the query matter only through @ start() and @ end() ----

  predicate PlainTime(mods: Modifiers) {
    mods.at.None? || mods.at.value.AtTime?
  }

  predicate BoundsFree(e: Expr) {
    match e
    case NumberLiteral(_) => true
    case StringLiteral(_) => true
    case ParenExpr(x) => BoundsFree(x)
    case UnaryExpr(x) => BoundsFree(x)
    case VectorSelector(_, _, mods) => PlainTime(mods)
    case MatrixSelector(_, _, _, mods) => PlainTime(mods)
    case SubqueryExpr(x, _, _, mods) => PlainTime(mods) && BoundsFree(x)
    case Call(_, args) => ArgsBoundsFree(args)
    case AggregateExpr(_, _, param, x) => BoundsFree(x) && (param.Some? ==> BoundsFree(param.value))
    case BinaryExpr(_, lhs, rhs, _, _) => BoundsFree(lhs) && BoundsFree(rhs)
  }

  predicate ArgsBoundsFree(args: Args) {
    match args
    case NoArgs => true
    case Arg(first, more) => BoundsFree(first) && ArgsBoundsFree(more)
  }

  lemma SelectionIgnoresBounds(env: Env, b: Bounds, c: Bounds, mods: Modifiers, ts: Int64)
    requires PlainTime(mods)
    ensures SelectionTime(env, b, mods, ts) == SelectionTime(env, c, mods, ts)
  {
    hide DurationMs;
  }

  /** Without @ start() and @ end() the bounds of the query make no difference. */
  lemma {:induction false} BoundsIrrelevant(env: Env, b: Bounds, c: Bounds, e: Expr, ts: Int64)
    requires BoundsFree(e)
    ensures Eval(env, b, e, ts) == Eval(env, c, e, ts)
    decreases e, 0, 0
  {
    hide Operators.Applied;
    hide AggregateNamed;
    hide AggregateWith;
    hide AssembledValue;
    hide Negation;
    hide Newest;
    hide SpecOf;
    hide SelectionTime;
    hide DurationOf;
    match e
    case NumberLiteral(_) =>
    case StringLiteral(_) =>
    case ParenExpr(x) => BoundsIrrelevant(env, b, c, x, ts);
    case UnaryExpr(x) => BoundsIrrelevant(env, b, c, x, ts);
    case VectorSelector(_, _, mods) => SelectionIgnoresBounds(env, b, c, mods, ts);
    case MatrixSelector(_, _, _, mods) => SelectionIgnoresBounds(env, b, c, mods, ts);
    case SubqueryExpr(x, range, step, mods) =>
      SelectionIgnoresBounds(env, b, c, mods, ts);
      var r := SubqueryResolution(env, b, range, step, mods, ts);
      StepsBoundsIrrelevant(env, b, c, x, r.first, r.step, r.count);
    case Call(_, args) => ArgsBoundsIrrelevant(env, b, c, args, ts);
    case AggregateExpr(_, _, param, x) =>
      BoundsIrrelevant(env, b, c, x, ts);
      if param.Some? {
        BoundsIrrelevant(env, b, c, param.value, ts);
      }
    case BinaryExpr(_, lhs, rhs, _, _) =>
      BoundsIrrelevant(env, b, c, lhs, ts);
      BoundsIrrelevant(env, b, c, rhs, ts);
  }

  lemma {:induction false} ArgsBoundsIrrelevant(env: Env, b: Bounds, c: Bounds, args: Args, ts: Int64)
    requires ArgsBoundsFree(args)
    ensures EvalArgs(env, b, args, ts) == EvalArgs(env, c, args, ts)
    decreases args, 0, 0
  {
    match args
    case NoArgs =>
    case Arg(first, more) =>
      BoundsIrrelevant(env, b, c, first, ts);
      ArgsBoundsIrrelevant(env, b, c, more, ts);
  }

  lemma {:induction false} StepsBoundsIrrelevant(env: Env, b: Bounds, c: Bounds, e: Expr, first: Int64, step: Int64, k: nat)
    requires BoundsFree(e)
    ensures StepsOf(env, b, e, first, step, k) == StepsOf(env, c, e, first, step, k)
    decreases e, 1, k
  {
    hide Eval;
    if k > 0 {
      StepsBoundsIrrelevant(env, b, c, e, first, step, k - 1);
      BoundsIrrelevant(env, b, c, e, StepTime(first, step, k - 1));
    }
  }

  /** With @ start() they do: the same selector at the same instant reads different samples. */
  lemma StartMatters(name: string, matchers: seq<Matcher>, b: Bounds, c: Bounds, ts: Int64) returns (env: Env)
    requires b.start != c.start
    ensures var e := VectorSelector(name, matchers, Modifiers(None, Some(AtStart)));
            Eval(env, b, e, ts) != Eval(env, c, e, ts)
  {
    var select := (lo: Int64, hi: Int64, n: string, ms: seq<Matcher>) => [SeriesData([], [Point(hi, 0.0)])];
    env := Env(select, 300000, s => 0.0, s => 0, s => [], (op, x, y) => 0.0, xs => 0.0, (q, xs) => 0.0, x => 0,
               (v, names, w, t, l) => v, (f, args, vals, t) => Err(CallFailed(f)));
    var e := VectorSelector(name, matchers, Modifiers(None, Some(AtStart)));
    var x, y := select(Wrap64(b.start - 300000), b.start, name, matchers), select(Wrap64(c.start - 300000), c.start, name, matchers);
    assert x[..0] == [] && y[..0] == [];
    assert Newest(x) == [VectorSample([], b.start, 0.0)];
    assert Newest(y) == [VectorSample([], c.start, 0.0)];
    assert Newest(x)[0] != Newest(y)[0];
  }

  // ---- What the stepped evaluation assembles ----

  /** The points one vector adds to the series of the given label text. */
  function PointsIn(v: Vector, t: Int64, text: Bytes): seq<Point> {
    if v == [] then []
    else
      var front, s := PointsIn(v[..|v| - 1], t, text), v[|v| - 1];
      if Text(s.metric) == text then front + [Point(t, s.v)] else front
  }

  /** The points of all steps for one label text, in time order. */
  function PointsFor(steps: seq<Step>, text: Bytes): seq<Point> {
    if steps == [] then []
    else PointsFor(steps[..|steps| - 1], text) + PointsIn(steps[|steps| - 1].vector, steps[|steps| - 1].t, text)
  }

  /** Each series holds exactly the points of its text, and every text with a point has a series. */
  ghost predicate HoldsPoints(series: seq<Bucket<Point>>, points: Bytes -> seq<Point>) {
    && DistinctTexts(series)
    && (forall i :: 0 <= i < |series| ==> series[i].values != [] && series[i].values == points(Text(series[i].labels)))
    && (forall text :: !HasText(series, text) ==> points(text) == [])
  }

  lemma CollectHolds(series: seq<Bucket<Point>>, points: Bytes -> seq<Point>, labels: LabelList, p: Point, more: Bytes -> seq<Point>)
    requires HoldsPoints(series, points)
    requires forall text :: more(text) == if text == Text(labels) then points(text) + [p] else points(text)
    ensures HoldsPoints(Collect(series, labels, p), more)
  {
    hide Text;
    hide Collect;
    hide HasText;
    CollectDistinct(series, labels, p);
    CollectValues(series, labels, p);
    hide DistinctTexts;
    var r := Collect(series, labels, p);
    forall i | 0 <= i < |r| ensures r[i].values != [] && r[i].values == more(Text(r[i].labels)) {
      if i < |series| {
      } else {
        assert r[i] == Bucket(labels, [p]);
        assert points(Text(labels)) == [];
      }
    }
  }

  lemma {:induction false} AddVectorHolds(series: seq<Bucket<Point>>, points: Bytes -> seq<Point>, t: Int64, v: Vector,
                                          more: Bytes -> seq<Point>)
    requires HoldsPoints(series, points)
    requires forall text :: more(text) == points(text) + PointsIn(v, t, text)
    ensures HoldsPoints(AddVector(series, t, v), more)
  {
    hide Text;
    hide Collect;
    if v == [] {
      hide HasText;
      hide DistinctTexts;
      assert forall text :: more(text) == points(text);
    } else {
      hide HoldsPoints;
      var front, s := v[..|v| - 1], v[|v| - 1];
      var before := text => points(text) + PointsIn(front, t, text);
      AddVectorHolds(series, points, t, front, before);
      CollectHolds(AddVector(series, t, front), before, s.metric, Point(t, s.v), more);
    }
  }

  /** The matrix of a stepped evaluation, series by series. */
  lemma {:induction false} AssembledExact(steps: seq<Step>)
    ensures HoldsPoints(Assembled(steps), text => PointsFor(steps, text))
  {
    hide Text;
    hide AddVector;
    if steps != [] {
      hide HoldsPoints;
      var front, s := steps[..|steps| - 1], steps[|steps| - 1];
      AssembledExact(front);
      AddVectorHolds(Assembled(front), text => PointsFor(front, text), s.t, s.vector, text => PointsFor(steps, text));
    }
  }
}
