/** What selectors read: the newest sample of each series in the window, and where the window lies. */
module Selection {
  import opened Base
  import opened Labels
  import opened Vectors
  import opened Syntax
  import opened Grammar
  import opened Evaluation

  // ---- The newest sample ----

  ghost predicate TimesAscend(points: seq<Point>) {
    forall i, j :: 0 <= i < j < |points| ==> points[i].t < points[j].t
  }

  /** The series that have a sample, in order. */
  function Live(m: Matrix): Matrix {
    if m == [] then []
    else if m[0].points == [] then Live(m[1..])
    else [m[0]] + Live(m[1..])
  }

  /** A sample of the series, and no later one. */
  ghost predicate IsNewestOf(r: VectorSample, s: SeriesData) {
    && r.metric == s.metric
    && Point(r.t, r.v) in s.points
    && forall p :: p in s.points ==> p.t <= r.t
  }

  lemma {:induction false} LiveSnoc(m: Matrix, s: SeriesData)
    ensures Live(m + [s]) == if s.points == [] then Live(m) else Live(m) + [s]
  {
    if m == [] {
      assert (m + [s])[1..] == [];
    } else {
      assert (m + [s])[1..] == m[1..] + [s];
      LiveSnoc(m[1..], s);
    }
  }

  /** One sample for each series that has one, in order: the newest. */
  lemma {:induction false} NewestExact(m: Matrix)
    requires forall i :: 0 <= i < |m| ==> TimesAscend(m[i].points)
    ensures |Newest(m)| == |Live(m)|
    ensures forall i :: 0 <= i < |Live(m)| ==> IsNewestOf(Newest(m)[i], Live(m)[i])
  {
    if m != [] {
      var front, s := m[..|m| - 1], m[|m| - 1];
      NewestExact(front);
      LiveSnoc(front, s);
      assert m == front + [s];
      if s.points != [] {
        var p := s.points[|s.points| - 1];
        assert p in s.points && Point(p.t, p.v) == p;
        assert IsNewestOf(VectorSample(s.metric, p.t, p.v), s);
      }
    }
  }

  /** A selector without offset and @ gives the newest sample of each series in the lookback window that ends now. */
  lemma InstantReadsNewest(env: Env, b: Bounds, name: string, matchers: seq<Matcher>, ts: Int64)
    requires -TWO_63 <= ts - env.lookback < TWO_63
    requires forall s :: s in env.select(ts - env.lookback, ts, name, matchers) ==> TimesAscend(s.points)
    ensures var live := Live(env.select(ts - env.lookback, ts, name, matchers));
            var r := Eval(env, b, VectorSelector(name, matchers, NO_MODIFIERS), ts);
            && r.Ok? && r.value.VectorValue? && |r.value.v| == |live|
            && forall i :: 0 <= i < |live| ==> IsNewestOf(r.value.v[i], live[i])
  {
    NewestExact(env.select(ts - env.lookback, ts, name, matchers));
  }

  /** A range selector gives all samples of the range that ends now. */
  lemma RangeReadsWindow(env: Env, b: Bounds, name: string, matchers: seq<Matcher>, range: string, ts: Int64)
    requires DurationMs(range).Some? && -TWO_63 <= ts - DurationMs(range).value < TWO_63
    ensures Eval(env, b, MatrixSelector(name, matchers, range, NO_MODIFIERS), ts) ==
            Ok(MatrixValue(env.select(ts - DurationMs(range).value, ts, name, matchers)))
  {
    hide DurationMs;
  }

  // ---- offset and @ ----

  ghost predicate SameAt(env: Env, b: Bounds, e: Expr, mods: Modifiers, ts: Int64, plain: Int64)
    requires TakesModifiers(e)
  {
    Eval(env, b, WithModifiers(e, mods), ts) == Eval(env, b, WithModifiers(e, NO_MODIFIERS), plain)
  }

  lemma OnlyTimeMatters(env: Env, b: Bounds, e: Expr, mods: Modifiers, ts: Int64, plain: Int64)
    requires TakesModifiers(e) && SelectionTime(env, b, mods, ts) == plain
    ensures SameAt(env, b, e, mods, ts, plain)
  {
    hide DurationMs;
    hide Newest;
    assert SelectionTime(env, b, NO_MODIFIERS, plain) == plain;
    hide SelectionTime;
    hide AssembledValue;
  }

  /** offset d evaluates like the plain selector d earlier, offset -d like it d later. */
  lemma OffsetMoves(env: Env, b: Bounds, e: Expr, ts: Int64, d: string)
    requires TakesModifiers(e) && DurationMs(d).Some?
    ensures SameAt(env, b, e, Modifiers(Some(OffsetMod(false, d)), None), ts, Wrap64(ts - DurationMs(d).value))
    ensures SameAt(env, b, e, Modifiers(Some(OffsetMod(true, d)), None), ts, Wrap64(ts + DurationMs(d).value))
  {
    hide SameAt;
    hide DurationMs;
    var off := DurationMs(d).value;
    NegationWraps(ts, off);
    hide Wrap64;
    OnlyTimeMatters(env, b, e, Modifiers(Some(OffsetMod(false, d)), None), ts, Wrap64(ts - off));
    OnlyTimeMatters(env, b, e, Modifiers(Some(OffsetMod(true, d)), None), ts, Wrap64(ts + off));
  }

  /** @ t, @ -t, @ start() and @ end() evaluate like the plain selector at that time, whenever the query is. */
  lemma AtMoves(env: Env, b: Bounds, e: Expr, ts: Int64, t: string)
    requires TakesModifiers(e)
    ensures SameAt(env, b, e, Modifiers(None, Some(AtTime(false, t))), ts, env.millis(t))
    ensures SameAt(env, b, e, Modifiers(None, Some(AtTime(true, t))), ts, Wrap64(0 - env.millis(t)))
    ensures SameAt(env, b, e, Modifiers(None, Some(AtStart)), ts, b.start)
    ensures SameAt(env, b, e, Modifiers(None, Some(AtEnd)), ts, b.end)
  {
    hide SameAt;
    hide DurationMs;
    OnlyTimeMatters(env, b, e, Modifiers(None, Some(AtTime(false, t))), ts, env.millis(t));
    OnlyTimeMatters(env, b, e, Modifiers(None, Some(AtTime(true, t))), ts, Wrap64(0 - env.millis(t)));
    OnlyTimeMatters(env, b, e, Modifiers(None, Some(AtStart)), ts, b.start);
    OnlyTimeMatters(env, b, e, Modifiers(None, Some(AtEnd)), ts, b.end);
  }

  /** With both, the offset counts from the time of the @, in whichever order they are written. */
  lemma OffsetFromAt(env: Env, b: Bounds, e: Expr, ts: Int64, d: string, at: AtMod, time: Int64)
    requires TakesModifiers(e) && DurationMs(d).Some?
    requires match at
             case AtTime(neg, t) => time == if neg then Wrap64(0 - env.millis(t)) else env.millis(t)
             case AtStart => time == b.start
             case AtEnd => time == b.end
    ensures SameAt(env, b, e, Modifiers(Some(OffsetMod(false, d)), Some(at)), ts, Wrap64(time - DurationMs(d).value))
    ensures SameAt(env, b, e, Modifiers(Some(OffsetMod(true, d)), Some(at)), ts, Wrap64(time + DurationMs(d).value))
  {
    hide SameAt;
    hide DurationMs;
    var off := DurationMs(d).value;
    assert ResolveTime(env, b, Some(at), ts) == time;
    NegationWraps(time, off);
    hide Wrap64;
    OnlyTimeMatters(env, b, e, Modifiers(Some(OffsetMod(false, d)), Some(at)), ts, Wrap64(time - off));
    OnlyTimeMatters(env, b, e, Modifiers(Some(OffsetMod(true, d)), Some(at)), ts, Wrap64(time + off));
  }

  /** Taking away the wrapped opposite adds, also for the least int64, which is its own opposite. */
  lemma NegationWraps(ts: Int64, off: Int64)
    ensures Wrap64(ts - Wrap64(0 - off)) == Wrap64(ts + off)
  {
    if off == -TWO_63 {
      assert Wrap64(0 - off) == -TWO_63;
      assert Wrap64(ts + TWO_63) == Wrap64(ts - TWO_63);
    }
  }

  // ---- Subqueries ----

  /** A subquery asks its expression at from, from + step, ... and last at the last such time within the range. */
  lemma SubqueryTimes(env: Env, b: Bounds, range: string, step: Option<string>, ts: Int64)
    requires DurationMs(range).Some? && DurationMs(range).value >= 0 && ts - DurationMs(range).value >= -TWO_63
    requires step.Some? ==> DurationMs(step.value).Some? && DurationMs(step.value).value > 0
    ensures var q := SubqueryResolution(env, b, range, step, NO_MODIFIERS, ts);
            && q.first == ts - DurationMs(range).value && q.count > 0
            && q.step == (if step.Some? then DurationMs(step.value).value else 60000)
            && (forall i {:trigger StepTime(q.first, q.step, i)} :: 0 <= i < q.count ==>
                  StepTime(q.first, q.step, i) == q.first + i * q.step && q.first <= q.first + i * q.step <= ts)
            && q.first + q.count * q.step > ts
  {
    var r: int := DurationMs(range).value;
    SubqueryCountFits(env, b, range, step, NO_MODIFIERS, ts);
    SubqueryStart(env, b, range, step, ts);
    hide *;
    var q := SubqueryResolution(env, b, range, step, NO_MODIFIERS, ts);
    LastStep(r, q.step);
    forall i | 0 <= i < q.count
      ensures StepTime(q.first, q.step, i) == q.first + i * q.step && q.first <= q.first + i * q.step <= ts
    {
      StepWithin(r, q.step, i);
      StepTimeIs(q.first, q.step, i, i * q.step);
    }
  }

  lemma SubqueryStart(env: Env, b: Bounds, range: string, step: Option<string>, ts: Int64)
    requires DurationMs(range).Some? && DurationMs(range).value >= 0 && ts - DurationMs(range).value >= -TWO_63
    requires step.Some? ==> DurationMs(step.value).Some? && DurationMs(step.value).value > 0
    ensures var q, r := SubqueryResolution(env, b, range, step, NO_MODIFIERS, ts), DurationMs(range).value;
            && q.first == ts - r && q.step == (if step.Some? then DurationMs(step.value).value else 60000) && q.step > 0
            && q.count == r / q.step + 1
  {
    hide DurationMs;
    var r := DurationMs(range).value;
    if step.Some? {
      WholeSteps(r, DurationMs(step.value).value);
    }
    WholeSteps(r, 60000);
    hide TruncDiv;
  }

  lemma WholeSteps(r: int, step: int)
    requires r >= 0 && step > 0
    ensures TruncDiv(r, step) == r / step >= 0
  {
  }

  lemma StepTimeIs(first: Int64, step: Int64, i: nat, offset: int)
    requires offset == i * step && Wrap64(offset) == offset && -TWO_63 <= first + offset < TWO_63
    ensures StepTime(first, step, i) == first + offset
  {
  }

  /** A subquery of more than 11000 steps is refused; any other fails only where one of its steps does. */
  lemma SubqueryGuard(env: Env, b: Bounds, x: Expr, range: string, step: Option<string>, mods: Modifiers, ts: Int64)
    ensures var q := SubqueryResolution(env, b, range, step, mods, ts);
            var r := Eval(env, b, SubqueryExpr(x, range, step, mods), ts);
            && (q.count > 11000 ==> r == Err(SubqueryTooFine))
            && (q.count <= 11000 ==> (r.Ok? <==> StepsOf(env, b, x, q.first, q.step, q.count).Ok?))
  {
    SubqueryCountFits(env, b, range, step, mods, ts);
    hide SubqueryResolution;
    hide StepsOf;
    hide Wrap64;
  }

  lemma LastStep(r: int, step: int)
    requires r >= 0 && step > 0
    ensures (r / step + 1) * step > r
  {
    assert r == r / step * step + r % step;
  }

  // ---- Unary minus ----

  /** -x takes every value of x to its opposite, keeps order and times, and drops the metric name only. */
  lemma MinusExact(env: Env, b: Bounds, x: Expr, ts: Int64)
    requires Eval(env, b, x, ts).Ok? && Eval(env, b, x, ts).value.VectorValue?
    ensures var v, r := Eval(env, b, x, ts).value.v, Eval(env, b, UnaryExpr(x), ts);
            && r.Ok? && r.value.VectorValue? && |r.value.v| == |v|
            && forall i :: 0 <= i < |v| ==>
                 && r.value.v[i].v + v[i].v == 0.0 && r.value.v[i].t == v[i].t
                 && (forall n :: Get(r.value.v[i].metric, n) == if n == METRIC_NAME then [] else Get(v[i].metric, n))
  {
    hide Eval;
    hide Filtered;
    hide Get;
    var v := Eval(env, b, x, ts).value.v;
    assert Eval(env, b, UnaryExpr(x), ts) == Negation(Eval(env, b, x, ts)) by { MinusIsNegation(env, b, x, ts); }
    forall i, n | 0 <= i < |v|
      ensures Get(DropMetricName(v[i].metric), n) == if n == METRIC_NAME then [] else Get(v[i].metric, n)
    {
      FilteredParts(v[i].metric, m => m != METRIC_NAME, n);
    }
  }

  lemma MinusIsNegation(env: Env, b: Bounds, x: Expr, ts: Int64)
    ensures Eval(env, b, UnaryExpr(x), ts) == Negation(Eval(env, b, x, ts))
  {
  }

  // ---- Calls and failures ----

  function ArgCount(args: Args): nat { if args.NoArgs? then 0 else 1 + ArgCount(args.more) }

  function ArgAt(args: Args, i: nat): Expr
    requires i < ArgCount(args)
  {
    if i == 0 then args.first else ArgAt(args.more, i - 1)
  }

  /** A call gets what its arguments evaluate to, in their order. */
  lemma {:induction false} ArgumentsEvaluated(env: Env, b: Bounds, args: Args, ts: Int64, i: nat)
    requires i < ArgCount(args)
    ensures |EvalArgs(env, b, args, ts)| == ArgCount(args)
    ensures EvalArgs(env, b, args, ts)[i] == Eval(env, b, ArgAt(args, i), ts)
  {
    hide Eval;
    if i > 0 {
      ArgumentsEvaluated(env, b, args.more, ts, i - 1);
    } else if args.more.Arg? {
      ArgumentsEvaluated(env, b, args.more, ts, 0);
    }
  }

  /** The first operand that fails decides how an operator fails. */
  lemma FailurePropagates(env: Env, b: Bounds, e: Expr, ts: Int64)
    ensures e.BinaryExpr? && Eval(env, b, e.lhs, ts).Err? ==> Eval(env, b, e, ts) == Eval(env, b, e.lhs, ts)
    ensures e.BinaryExpr? && Eval(env, b, e.lhs, ts).Ok? && Eval(env, b, e.rhs, ts).Err? ==> Eval(env, b, e, ts) == Eval(env, b, e.rhs, ts)
    ensures e.UnaryExpr? && Eval(env, b, e.e, ts).Err? ==> Eval(env, b, e, ts) == Eval(env, b, e.e, ts)
    ensures e.ParenExpr? ==> Eval(env, b, e, ts) == Eval(env, b, e.e, ts)
  {
    hide SpecOf;
    hide SelectionTime;
    hide Newest;
  }
}
