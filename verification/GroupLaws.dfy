/** What grouping and the aggregation operators are: which samples fall together, and laws of the reductions by name. */
module GroupLaws {
  import opened Base
  import opened Labels
  import opened LabelText
  import opened Vectors
  import opened Buckets
  import opened Aggregation
  import opened Evaluation
  import Arithmetic
  import Histogram
  import Sorting
  import Syntax
  import Topk

  // ---- Which samples fall together ----

  lemma MemberIsLookup(ls: LabelList, l: Label)
    requires Canonical(ls)
    ensures l in ls <==> l.name in LastWins(ls) && LastWins(ls)[l.name] == l.value
  {
    if l in ls {
      var i :| 0 <= i < |ls| && ls[i] == l;
      NameIsKey(ls, i);
      assert HasPair(ls, l.name, l.value);
      PairDeterminesGet(ls, l.name, l.value);
      GetIsLookup(ls, l.name);
    }
    if l.name in LastWins(ls) && LastWins(ls)[l.name] == l.value {
      var i := IndexOfKey(ls, l.name);
      assert HasPair(ls, l.name, ls[i].value);
      PairDeterminesGet(ls, l.name, ls[i].value);
      GetIsLookup(ls, l.name);
      assert ls[i] == l;
    }
  }

  lemma SameLabels(a: LabelList, b: LabelList)
    requires Canonical(a) && Canonical(b) && forall l :: l in a <==> l in b
    ensures a == b
  {
    hide LastWins;
    var x, y := LastWins(a), LastWins(b);
    forall n ensures (n in x <==> n in y) && (n in x ==> x[n] == y[n]) {
      if n in x {
        MemberIsLookup(a, Label(n, x[n]));
        MemberIsLookup(b, Label(n, x[n]));
      }
      if n in y {
        MemberIsLookup(a, Label(n, y[n]));
        MemberIsLookup(b, Label(n, y[n]));
      }
    }
    assert x == y;
    CanonicalUnique(a, b);
  }

  /** Projections have one text exactly when the label sets have the same labels among those kept. */
  lemma ProjectSameIff(a: LabelList, b: LabelList, keep: Bytes -> bool)
    requires Canonical(a) && Canonical(b) && NamesPlain(a) && NamesPlain(b)
    requires keep(METRIC_NAME) ==> !EmptyMetric(a) && !EmptyMetric(b)
    ensures Text(Filtered(a, keep)) == Text(Filtered(b, keep)) <==> forall l: Label :: keep(l.name) ==> (l in a <==> l in b)
  {
    hide Text;
    hide Filtered;
    hide Canonical;
    hide NamesPlain;
    var x, y := Filtered(a, keep), Filtered(b, keep);
    forall l ensures (l in x <==> l in a && keep(l.name)) && (l in y <==> l in b && keep(l.name)) {
      FilteredMember(a, keep, l);
      FilteredMember(b, keep, l);
    }
    FilteredCanonical(a, keep);
    FilteredCanonical(b, keep);
    FilteredPlain(a, keep);
    FilteredPlain(b, keep);
    assert !EmptyMetric(x) && !EmptyMetric(y);
    TextInjective(x, y);
    if forall l: Label :: keep(l.name) ==> (l in a <==> l in b) {
      SameLabels(x, y);
    }
  }

  /** Whether an aggregation groups by a label: by(names) by the listed ones, without(names) by all others but the metric name. */
  ghost predicate GroupsBy(names: set<Bytes>, without: bool, n: Bytes) {
    if without then n !in names && n != METRIC_NAME else n in names
  }

  /** Two samples fall into one group exactly when they have the same labels among those grouped by. */
  lemma SameGroupIff(a: LabelList, b: LabelList, names: set<Bytes>, without: bool)
    requires Canonical(a) && Canonical(b) && NamesPlain(a) && NamesPlain(b) && !EmptyMetric(a) && !EmptyMetric(b)
    ensures Text(GroupLabels(a, names, without)) == Text(GroupLabels(b, names, without)) <==>
            forall l: Label :: GroupsBy(names, without, l.name) ==> (l in a <==> l in b)
  {
    hide Text;
    hide Canonical;
    hide NamesPlain;
    hide EmptyMetric;
    hide Filtered;
    var keep := n => if without then n !in names && n != METRIC_NAME else n in names;
    ProjectSameIff(a, b, keep);
    assert forall l: Label :: keep(l.name) <==> GroupsBy(names, without, l.name);
    assert GroupLabels(a, names, without) == Filtered(a, keep) by { GroupLabelsIs(a, names, without, keep); }
    assert GroupLabels(b, names, without) == Filtered(b, keep) by { GroupLabelsIs(b, names, without, keep); }
  }

  lemma {:induction false} SameFilter(ls: LabelList, p: Bytes -> bool, q: Bytes -> bool)
    requires forall n :: p(n) == q(n)
    ensures Filtered(ls, p) == Filtered(ls, q)
  {
    if ls != [] {
      SameFilter(ls[1..], p, q);
    }
  }

  lemma GroupLabelsIs(ls: LabelList, names: set<Bytes>, without: bool, keep: Bytes -> bool)
    requires forall n :: keep(n) == if without then n !in names && n != METRIC_NAME else n in names
    ensures GroupLabels(ls, names, without) == Filtered(ls, keep)
  {
    SameFilter(ls, n => if without then n !in names && n != METRIC_NAME else n in names, keep);
  }

  /** The labels a result shows are those of its samples that are grouped by. */
  lemma GroupShows(ls: LabelList, names: set<Bytes>, without: bool, l: Label)
    ensures l in GroupLabels(ls, names, without) <==> l in ls && GroupsBy(names, without, l.name)
  {
    FilteredMember(ls, n => if without then n !in names && n != METRIC_NAME else n in names, l);
  }

  lemma CollectKeepsLabels<T>(bs: seq<Bucket<T>>, labels: LabelList, x: T, i: nat)
    requires DistinctTexts(bs) && i < |Collect(bs, labels, x)|
    ensures Collect(bs, labels, x)[i].labels == if i < |bs| then bs[i].labels else labels
  {
    CollectValues(bs, labels, x);
    hide *;
  }

  lemma GroupedSnoc(v: Vector, s: VectorSample, names: set<Bytes>, without: bool)
    ensures DistinctTexts(Grouped(v, names, without))
    ensures Grouped(v + [s], names, without) == Collect(Grouped(v, names, without), GroupLabels(s.metric, names, without), s.v)
  {
    GroupedExact(v, names, without);
    assert (v + [s])[..|v|] == v;
    hide Text;
    hide GroupLabels;
    hide Collect;
    hide DistinctTexts;
    hide HasText;
  }

  /** Each group carries the labels that one of its samples is grouped by. */
  lemma {:induction false} GroupsCarry(v: Vector, names: set<Bytes>, without: bool, i: nat)
    requires i < |Grouped(v, names, without)|
    ensures exists s :: s in v && Grouped(v, names, without)[i].labels == GroupLabels(s.metric, names, without)
  {
    if v == [] {
      assert false;
    } else {
      hide *;
      var front, s := v[..|v| - 1], v[|v| - 1];
      assert v == front + [s];
      GroupedSnoc(front, s, names, without);
      var before := Grouped(front, names, without);
      CollectKeepsLabels(before, GroupLabels(s.metric, names, without), s.v, i);
      if i < |before| {
        GroupsCarry(front, names, without, i);
        var x :| x in front && before[i].labels == GroupLabels(x.metric, names, without);
        assert x in v;
      } else {
        assert s in v;
      }
    }
  }

  // ---- histogram_quantile ----

  /** Two bucket samples belong to one histogram exactly when they agree on every label but le and the metric name. */
  lemma SameHistogramIff(a: VectorSample, b: VectorSample)
    requires Canonical(a.metric) && Canonical(b.metric) && NamesPlain(a.metric) && NamesPlain(b.metric)
    ensures Text(Histogram.HistogramLabels(a)) == Text(Histogram.HistogramLabels(b)) <==>
            forall l: Label :: l.name != METRIC_NAME && l.name != Histogram.LE ==> (l in a.metric <==> l in b.metric)
  {
    hide Text;
    hide Canonical;
    hide NamesPlain;
    hide Filtered;
    var names := {METRIC_NAME, Histogram.LE};
    var keep := n => n !in names;
    assert forall l: Label :: keep(l.name) <==> l.name != METRIC_NAME && l.name != Histogram.LE;
    ProjectSameIff(a.metric, b.metric, keep);
    DropLabelsIs(a.metric, names, keep);
    DropLabelsIs(b.metric, names, keep);
  }

  lemma DropLabelsIs(ls: LabelList, names: set<Bytes>, keep: Bytes -> bool)
    requires forall n :: keep(n) == (n !in names)
    ensures DropLabels(ls, names) == Filtered(ls, keep)
  {
    SameFilter(ls, n => n !in names, keep);
  }

  ghost predicate CarriesLabelsOf(labels: LabelList, s: VectorSample) {
    forall l :: l in labels <==> l in s.metric && l.name != METRIC_NAME && l.name != Histogram.LE
  }

  lemma HistogramsSnoc(parseLe: Histogram.LeParser, v: Vector, s: VectorSample)
    ensures DistinctTexts(Histogram.Histograms(parseLe, v))
    ensures Histogram.Histograms(parseLe, v + [s]) ==
            if Histogram.IsBucket(parseLe, s)
            then Collect(Histogram.Histograms(parseLe, v), Histogram.HistogramLabels(s), Histogram.BucketOf(parseLe, s))
            else Histogram.Histograms(parseLe, v)
  {
    Histogram.HistogramsExact(parseLe, v);
    assert (v + [s])[..|v|] == v;
    hide Text;
    hide Collect;
    hide DistinctTexts;
    hide HasText;
    hide Histogram.IsBucket;
    hide Histogram.HistogramLabels;
  }

  /** Each histogram carries the labels of one of its buckets but le and the metric name. */
  lemma {:induction false} HistogramsCarry(parseLe: Histogram.LeParser, v: Vector, i: nat)
    requires i < |Histogram.Histograms(parseLe, v)|
    ensures exists s :: s in v && Histogram.IsBucket(parseLe, s) && CarriesLabelsOf(Histogram.Histograms(parseLe, v)[i].labels, s)
  {
    if v == [] {
      assert false;
    } else {
      hide *;
      var front, s := v[..|v| - 1], v[|v| - 1];
      assert v == front + [s];
      HistogramsSnoc(parseLe, front, s);
      var before := Histogram.Histograms(parseLe, front);
      if Histogram.IsBucket(parseLe, s) {
        HistogramShows(s);
        CollectKeepsLabels(before, Histogram.HistogramLabels(s), Histogram.BucketOf(parseLe, s), i);
        assert s in v;
      }
      if i < |before| {
        HistogramsCarry(parseLe, front, i);
        var x :| x in front && Histogram.IsBucket(parseLe, x) && CarriesLabelsOf(before[i].labels, x);
        assert x in v;
      }
    }
  }

  lemma HistogramShows(s: VectorSample)
    ensures CarriesLabelsOf(Histogram.HistogramLabels(s), s)
  {
    var names := {METRIC_NAME, Histogram.LE};
    forall l ensures l in Histogram.HistogramLabels(s) <==> l in s.metric && l.name != METRIC_NAME && l.name != Histogram.LE {
      FilteredMember(s.metric, n => n !in names, l);
      DropLabelsIs(s.metric, names, n => n !in names);
    }
  }

  // ---- Reductions by name ----

  /** The sum of one number is that number, and the sum of two parts is the sum of their sums. */
  lemma {:induction false} SumLaws(xs: seq<real>, ys: seq<real>, x: real)
    ensures SumOf([]) == 0.0 && SumOf([x]) == x && SumOf(xs + ys) == SumOf(xs) + SumOf(ys)
  {
    if ys == [] {
      assert xs + ys == xs;
    } else {
      SumLaws(xs, ys[..|ys| - 1], x);
      assert (xs + ys)[..|xs + ys| - 1] == xs + ys[..|ys| - 1];
    }
  }

  lemma {:induction false} MinExact(xs: seq<real>)
    requires xs != []
    ensures MinOf(xs) in xs && forall x :: x in xs ==> MinOf(xs) <= x
  {
    if |xs| > 1 {
      MinExact(xs[..|xs| - 1]);
      assert xs == xs[..|xs| - 1] + [xs[|xs| - 1]];
    }
  }

  lemma {:induction false} MaxExact(xs: seq<real>)
    requires xs != []
    ensures MaxOf(xs) in xs && forall x :: x in xs ==> MaxOf(xs) >= x
  {
    if |xs| > 1 {
      MaxExact(xs[..|xs| - 1]);
      assert xs == xs[..|xs| - 1] + [xs[|xs| - 1]];
    }
  }

  function Square(x: real): real { x * x }

  function Squared(xs: seq<real>): (r: seq<real>)
    ensures |r| == |xs|
  {
    seq(|xs|, i requires 0 <= i < |xs| => Square(xs[i]))
  }

  function Expansion(q: real, mean: real, s: real, n: real): real { q - 2.0 * mean * s + n * (mean * mean) }

  lemma {:induction false} SquaresExpand(xs: seq<real>, mean: real)
    ensures SquaresOf(xs, mean) == Expansion(SumOf(Squared(xs)), mean, SumOf(xs), |xs| as real)
  {
    if xs != [] {
      var front, x := xs[..|xs| - 1], xs[|xs| - 1];
      SquaresExpand(front, mean);
      assert Squared(xs)[..|front|] == Squared(front);
      var q, s, n := SumOf(Squared(front)), SumOf(front), |front| as real;
      assert SumOf(xs) == s + x && SumOf(Squared(xs)) == q + Square(x) && (|xs| as real) == n + 1.0;
      SquareStep(q, x, mean, s, n);
    }
  }

  lemma SquareStep(q: real, x: real, mean: real, s: real, n: real)
    ensures Expansion(q + Square(x), mean, s + x, n + 1.0) == Expansion(q, mean, s, n) + (x - mean) * (x - mean)
  {
    assert (x - mean) * (x - mean) == x * x - 2.0 * mean * x + mean * mean;
    assert 2.0 * mean * (s + x) == 2.0 * mean * s + 2.0 * mean * x;
    assert (n + 1.0) * (mean * mean) == n * (mean * mean) + mean * mean;
  }

  /** The population variance is the mean of the squares less the square of the mean. */
  lemma VarianceExact(xs: seq<real>)
    requires xs != []
    ensures var mean := SumOf(xs) / (|xs| as real);
            VarianceOf(xs) == SumOf(Squared(xs)) / (|xs| as real) - Square(mean)
  {
    var n, s, q := |xs| as real, SumOf(xs), SumOf(Squared(xs));
    var mean := s / n;
    SquaresExpand(xs, mean);
    VarianceStep(SquaresOf(xs, mean), q, s, n);
    hide *;
  }

  lemma VarianceStep(d: real, q: real, s: real, n: real)
    requires n > 0.0 && d == Expansion(q, s / n, s, n)
    ensures d / n == q / n - Square(s / n)
  {
    var mean := s / n;
    assert s == mean * n;
    VarianceScaled(d, q, mean, s, n);
    assert (q / n) * n == q && (d / n) * n == d;
    assert (d / n - (q / n - Square(mean))) * n == 0.0;
  }

  lemma VarianceScaled(d: real, q: real, mean: real, s: real, n: real)
    requires s == mean * n && d == Expansion(q, mean, s, n)
    ensures d == q - Square(mean) * n
  {
    assert 2.0 * mean * s == 2.0 * (n * (mean * mean));
  }

  /** What the aggregation of that name gives, if it gives a vector. */
  function Named(env: Env, name: string, v: Vector, g: Option<Syntax.Grouping>, ts: Int64, param: real): Option<Vector> {
    match AggregateNamed(env, name, v, g, ts, param, "")
    case Ok(VectorValue(x)) => Some(x)
    case _ => None
  }

  /** One sample for each group, in order, with the labels of the group and the time of the evaluation. */
  ghost predicate OnePerGroup(r: Option<Vector>, groups: seq<Bucket<real>>, ts: Int64) {
    && r.Some? && |r.value| == |groups|
    && forall i :: 0 <= i < |groups| ==> r.value[i].metric == groups[i].labels && r.value[i].t == ts
  }

  function GroupsOf(env: Env, v: Vector, g: Option<Syntax.Grouping>): seq<Bucket<real>> {
    Grouped(v, GroupingNames(env, g), g.Some? && g.value.without)
  }

  /** The aggregations that reduce each group to one number. */
  predicate Reduces(name: string) { name in ["sum", "avg", "min", "max", "count", "group", "stdvar", "stddev", "quantile"] }

  /** The number it gives for the i-th group. */
  function NumberFor(env: Env, name: string, v: Vector, g: Option<Syntax.Grouping>, ts: Int64, param: real, i: nat): real {
    var r := Named(env, name, v, g, ts, param);
    if r.Some? && i < |r.value| then r.value[i].v else 0.0
  }

  /** A reducing aggregation gives one sample per group. */
  lemma ReducesEachGroup(env: Env, name: string, v: Vector, g: Option<Syntax.Grouping>, ts: Int64, param: real)
    requires Reduces(name)
    ensures OnePerGroup(Named(env, name, v, g, ts, param), GroupsOf(env, v, g), ts)
  {
    hide Grouped;
    hide Reduced;
  }

  lemma StandFor(env: Env, param: real)
    ensures AggregatorOf(env, "sum", param) == Some(Sum) && AggregatorOf(env, "avg", param) == Some(Avg)
    ensures AggregatorOf(env, "min", param) == Some(Min) && AggregatorOf(env, "max", param) == Some(Max)
    ensures AggregatorOf(env, "count", param) == Some(Count) && AggregatorOf(env, "group", param) == Some(Group)
    ensures AggregatorOf(env, "stdvar", param) == Some(Stdvar)
  {
  }

  predicate Picks(name: string) { name in ["topk", "bottomk", "count_values"] }

  lemma NamedIsAggregated(env: Env, name: string, a: Aggregator, v: Vector, g: Option<Syntax.Grouping>, ts: Int64, param: real)
    requires AggregatorOf(env, name, param) == Some(a) && !Picks(name)
    ensures Named(env, name, v, g, ts, param) == Some(Aggregated(a, v, GroupingNames(env, g), g.Some? && g.value.without, ts))
  {
    hide Aggregated;
    hide AggregatorOf;
  }

  lemma ReducedNamed(env: Env, name: string, a: Aggregator, v: Vector, g: Option<Syntax.Grouping>, ts: Int64, param: real, i: nat)
    requires AggregatorOf(env, name, param) == Some(a) && !Picks(name)
    requires i < |GroupsOf(env, v, g)|
    ensures GroupsOf(env, v, g)[i].values != []
    ensures NumberFor(env, name, v, g, ts, param, i) == Reduced(a, GroupsOf(env, v, g)[i].values)
  {
    hide AggregatorOf;
    NamedIsAggregated(env, name, a, v, g, ts, param);
    hide Named;
    GroupedExact(v, GroupingNames(env, g), g.Some? && g.value.without);
    hide GroupingNames;
    hide Grouped;
    hide Reduced;
    hide DistinctTexts;
    hide HasText;
  }

  /** Group by group: count is the number of values, avg times count is sum, and stdvar the mean square less the squared mean. */
  lemma MeansExact(env: Env, v: Vector, g: Option<Syntax.Grouping>, ts: Int64, param: real, i: nat)
    requires i < |GroupsOf(env, v, g)|
    ensures var xs := GroupsOf(env, v, g)[i].values;
            var (sum, avg, count) := (NumberFor(env, "sum", v, g, ts, param, i), NumberFor(env, "avg", v, g, ts, param, i),
                                      NumberFor(env, "count", v, g, ts, param, i));
            && count == |xs| as real && count != 0.0 && sum == SumOf(xs) && avg * count == sum
            && NumberFor(env, "stdvar", v, g, ts, param, i) == SumOf(Squared(xs)) / count - Square(avg)
  {
    hide *;
    var xs := GroupsOf(env, v, g)[i].values;
    StandFor(env, param);
    NoPicks();
    ReducedNamed(env, "sum", Sum, v, g, ts, param, i);
    ReducedNamed(env, "avg", Avg, v, g, ts, param, i);
    ReducedNamed(env, "count", Count, v, g, ts, param, i);
    ReducedNamed(env, "stdvar", Stdvar, v, g, ts, param, i);
    CountAndSum(xs);
    MeanOfAll(xs);
    VarianceOfAll(xs);
  }

  lemma NoPicks()
    ensures !Picks("sum") && !Picks("avg") && !Picks("count") && !Picks("stdvar") && !Picks("min") && !Picks("max") && !Picks("group")
  {
  }

  lemma CountAndSum(xs: seq<real>)
    requires xs != []
    ensures Reduced(Count, xs) == |xs| as real && Reduced(Count, xs) != 0.0 && Reduced(Sum, xs) == SumOf(xs)
  {
  }

  lemma MeanOfAll(xs: seq<real>)
    requires xs != []
    ensures Reduced(Avg, xs) * (|xs| as real) == SumOf(xs)
  {
    MeanTimesCount(SumOf(xs), |xs| as real);
  }

  lemma VarianceOfAll(xs: seq<real>)
    requires xs != []
    ensures Reduced(Stdvar, xs) == SumOf(Squared(xs)) / (|xs| as real) - Square(Reduced(Avg, xs))
  {
    assert Reduced(Avg, xs) == SumOf(xs) / (|xs| as real) && Reduced(Stdvar, xs) == VarianceOf(xs);
    VarianceExact(xs);
    hide *;
  }

  /** min and max are values of the group and bound all others, group is 1. */
  lemma ExtremesExact(env: Env, v: Vector, g: Option<Syntax.Grouping>, ts: Int64, param: real, i: nat)
    requires i < |GroupsOf(env, v, g)|
    ensures var xs := GroupsOf(env, v, g)[i].values;
            var (min, max) := (NumberFor(env, "min", v, g, ts, param, i), NumberFor(env, "max", v, g, ts, param, i));
            min in xs && max in xs && forall x :: x in xs ==> min <= x <= max
    ensures NumberFor(env, "group", v, g, ts, param, i) == 1.0
  {
    var xs := GroupsOf(env, v, g)[i].values;
    StandFor(env, param);
    NoPicks();
    ReducedNamed(env, "min", Min, v, g, ts, param, i);
    ReducedNamed(env, "max", Max, v, g, ts, param, i);
    ReducedNamed(env, "group", Group, v, g, ts, param, i);
    MinExact(xs);
    MaxExact(xs);
    hide NumberFor;
    hide GroupsOf;
    hide MinOf;
    hide MaxOf;
    hide AggregatorOf;
    hide Picks;
  }

  lemma MeanTimesCount(s: real, n: real)
    requires n != 0.0
    ensures s / n * n == s
  {
  }

  /** Every aggregation the parser knows is evaluated, and no other. */
  lemma KnownIsEvaluated(env: Env, name: string, v: Vector, g: Option<Syntax.Grouping>, ts: Int64, param: real, text: string)
    ensures Syntax.IsAggregator(name) <==> AggregateNamed(env, name, v, g, ts, param, text) != Err(UnknownAggregation)
  {
    hide Aggregated;
    hide Topk.TopkOf;
  }

  // ---- topk and bottomk ----

  lemma {:induction false} TextsHave(v: Vector, names: set<Bytes>, without: bool, s: VectorSample)
    requires s in v
    ensures Topk.GroupText(s, names, without) in Topk.Texts(v, names, without)
  {
    hide Topk.GroupText;
    if v[|v| - 1] != s {
      assert v == v[..|v| - 1] + [v[|v| - 1]];
      TextsHave(v[..|v| - 1], names, without, s);
    }
  }

  /** A sample of a group that belongs before a selected one, higher for topk and lower for bottomk, is selected too. */
  lemma BeforeSelected(top: bool, v: Vector, names: set<Bytes>, without: bool, text: Bytes, k: int, s: VectorSample, b: VectorSample)
    requires s in v && Topk.GroupText(s, names, without) == text
    requires b in Topk.Best(top, Topk.Group(v, names, without, text), k)
    requires if top then s.v > b.v else s.v < b.v
    ensures s in Topk.Best(top, Topk.Group(v, names, without, text), k)
  {
    var group := Topk.Group(v, names, without, text);
    Topk.GroupMember(v, names, without, text, s);
    var others := Topk.BestDominates(top, group, k);
    hide Topk.Best;
    hide Topk.Group;
    assert s in multiset(Topk.Best(top, group, k)) + multiset(others);
    assert s in multiset(others) ==> s in others;
  }

  lemma {:induction false} SelectedIff(top: bool, v: Vector, texts: seq<Bytes>, names: set<Bytes>, without: bool, ts: Int64, k: int,
                                       r: VectorSample)
    ensures r in Topk.Selected(top, v, texts, names, without, ts, k) <==>
            exists text, b :: text in texts && b in Topk.Best(top, Topk.Group(v, names, without, text), k) && r == b.(t := ts)
  {
    hide Topk.Best;
    hide Topk.Group;
    if texts != [] {
      var front, text := texts[..|texts| - 1], texts[|texts| - 1];
      assert texts == front + [text];
      SelectedIff(top, v, front, names, without, ts, k, r);
      var best := Topk.Best(top, Topk.Group(v, names, without, text), k);
      var stamped := Topk.Stamped(best, ts);
      if r in stamped {
        var i :| 0 <= i < |stamped| && stamped[i] == r;
        assert best[i] in best && r == best[i].(t := ts);
      }
      if b :| b in best && r == b.(t := ts) {
        var i :| 0 <= i < |best| && best[i] == b;
        assert stamped[i] == r;
        assert text in texts && b in Topk.Best(top, Topk.Group(v, names, without, text), k) && r == b.(t := ts);
      }
    }
  }

  /** By name: topk leaves out no sample above one it selects from the same group, bottomk none below; labels and values stay. */
  lemma TopkByValue(env: Env, top: bool, v: Vector, g: Option<Syntax.Grouping>, ts: Int64, param: real, s: VectorSample, r: VectorSample)
    ensures Named(env, if top then "topk" else "bottomk", v, g, ts, param).Some?
    ensures var out := Named(env, if top then "topk" else "bottomk", v, g, ts, param).value;
            var names, without := GroupingNames(env, g), g.Some? && g.value.without;
            && (r in out ==> exists x :: x in v && r == x.(t := ts))
            && (r in out && s in v && Text(GroupLabels(s.metric, names, without)) == Text(GroupLabels(r.metric, names, without)) ==>
                  (if top then s.v > r.v else s.v < r.v) ==> s.(t := ts) in out)
  {
    var names, without, k := GroupingNames(env, g), g.Some? && g.value.without, LimitOf(env, param);
    var texts := Topk.Texts(v, names, without);
    var out := Topk.Selected(top, v, texts, names, without, ts, k);
    assert Named(env, if top then "topk" else "bottomk", v, g, ts, param) == Some(out) by { TopkNamed(env, top, v, g, ts, param); }
    if r in out {
      Topk.SelectedFromInput(top, v, texts, names, without, ts, k, r);
      hide Topk.Best;
      hide Text;
      SelectedIff(top, v, texts, names, without, ts, k, r);
      var text, b :| text in texts && b in Topk.Best(top, Topk.Group(v, names, without, text), k) && r == b.(t := ts);
      BestInGroup(top, v, names, without, text, k, b);
      if s in v && Topk.GroupText(s, names, without) == text && (if top then s.v > r.v else s.v < r.v) {
        BeforeSelected(top, v, names, without, text, k, s, b);
        SelectedIff(top, v, texts, names, without, ts, k, s.(t := ts));
      }
    }
  }

  lemma TopkNamed(env: Env, top: bool, v: Vector, g: Option<Syntax.Grouping>, ts: Int64, param: real)
    ensures Named(env, if top then "topk" else "bottomk", v, g, ts, param) ==
            Some(Topk.TopkOf(top, v, GroupingNames(env, g), g.Some? && g.value.without, ts, LimitOf(env, param)))
  {
    hide Topk.TopkOf;
  }

  lemma BestInGroup(top: bool, v: Vector, names: set<Bytes>, without: bool, text: Bytes, k: int, b: VectorSample)
    requires b in Topk.Best(top, Topk.Group(v, names, without, text), k)
    ensures Topk.GroupText(b, names, without) == text
  {
    var group := Topk.Group(v, names, without, text);
    var others := Topk.BestDominates(top, group, k);
    hide Topk.Best;
    assert b in multiset(Topk.Best(top, group, k)) + multiset(others);
    assert b in group;
    Topk.GroupMember(v, names, without, text, b);
  }

  /** Of each group as many are selected as are asked for and there, best first: topk in falling, bottomk in rising order of value. */
  lemma SelectionLooks(top: bool, group: Vector, k: int)
    ensures |Topk.Best(top, group, k)| == if k <= 0 then 0 else if k < |group| then k else |group|
    ensures forall i, j :: 0 <= i < j < |Topk.Best(top, group, k)| ==>
              var a, b := Topk.Best(top, group, k)[i].v, Topk.Best(top, group, k)[j].v;
              if top then a >= b else a <= b
  {
    var others := Topk.BestDominates(top, group, k);
    hide Topk.Best;
    var best := Topk.Best(top, group, k);
    forall i, j | 0 <= i < j < |best| ensures if top then best[i].v >= best[j].v else best[i].v <= best[j].v {
      assert !Topk.Ranking(top)(best[j], best[i]);
    }
  }
}
