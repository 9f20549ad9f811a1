/** Grouping and reducing an instant vector, and rolling aggregations up. */
module Aggregation {
  import opened Base
  import opened Labels
  import opened LabelText
  import opened Vectors
  import opened Buckets

  /** Other stands for the reductions given as an arbitrary function: stddev and quantile. */
  datatype Aggregator = Sum | Avg | Min | Max | Count | Group | Stdvar | Other(reduce: seq<real> -> real)

  // ---- Grouping ----

  function Grouped(v: Vector, names: set<Bytes>, without: bool): seq<Bucket<real>> {
    if v == [] then []
    else
      var s := v[|v| - 1];
      Collect(Grouped(v[..|v| - 1], names, without), GroupLabels(s.metric, names, without), s.v)
  }

  /** The values of the samples that project to the given text, in order. */
  function Members(v: Vector, names: set<Bytes>, without: bool, text: Bytes): seq<real> {
    if v == [] then []
    else
      var front, s := Members(v[..|v| - 1], names, without, text), v[|v| - 1];
      if Text(GroupLabels(s.metric, names, without)) == text then front + [s.v] else front
  }

  /** Each sample lands in exactly one group, the one of its projection, and groups hold nothing else. */
  lemma {:induction false} GroupedExact(v: Vector, names: set<Bytes>, without: bool)
    ensures var bs := Grouped(v, names, without);
            && DistinctTexts(bs)
            && (forall i :: 0 <= i < |bs| ==>
                  bs[i].values != [] && bs[i].values == Members(v, names, without, Text(bs[i].labels)))
            && (forall i :: 0 <= i < |v| ==> HasText(bs, Text(GroupLabels(v[i].metric, names, without))))
            && (forall text :: !HasText(bs, text) ==> Members(v, names, without, text) == [])
  {
    hide Text;
    hide GroupLabels;
    hide HasText;
    hide Collect;
    if v != [] {
      hide DistinctTexts;
      var front, s := v[..|v| - 1], v[|v| - 1];
      var labels := GroupLabels(s.metric, names, without);
      GroupedExact(front, names, without);
      var bs := Grouped(front, names, without);
      CollectDistinct(bs, labels, s.v);
      CollectValues(bs, labels, s.v);
      forall i | 0 <= i < |v| ensures HasText(Grouped(v, names, without), Text(GroupLabels(v[i].metric, names, without))) {
        if i < |front| {
          assert front[i] == v[i];
        }
      }
    }
  }

  // ---- Reducing ----

  function SumOf(xs: seq<real>): real {
    if xs == [] then 0.0 else SumOf(xs[..|xs| - 1]) + xs[|xs| - 1]
  }

  function MinOf(xs: seq<real>): real
    requires xs != []
  {
    if |xs| == 1 then xs[0] else Lesser(MinOf(xs[..|xs| - 1]), xs[|xs| - 1])
  }

  function MaxOf(xs: seq<real>): real
    requires xs != []
  {
    if |xs| == 1 then xs[0] else Greater(MaxOf(xs[..|xs| - 1]), xs[|xs| - 1])
  }

  function Lesser(a: real, b: real): real { if b < a then b else a }

  function Greater(a: real, b: real): real { if b > a then b else a }

  function SquaresOf(xs: seq<real>, mean: real): real {
    if xs == [] then 0.0 else SquaresOf(xs[..|xs| - 1], mean) + (xs[|xs| - 1] - mean) * (xs[|xs| - 1] - mean)
  }

  /** Population variance. */
  function VarianceOf(xs: seq<real>): real
    requires xs != []
  {
    SquaresOf(xs, SumOf(xs) / (|xs| as real)) / (|xs| as real)
  }

  function Reduced(op: Aggregator, xs: seq<real>): real
    requires xs != []
  {
    match op
    case Sum => SumOf(xs)
    case Avg => SumOf(xs) / (|xs| as real)
    case Min => MinOf(xs)
    case Max => MaxOf(xs)
    case Count => |xs| as real
    case Group => 1.0
    case Stdvar => VarianceOf(xs)
    case Other(reduce) => reduce(xs)
  }

  /** One sample per group, in order of first appearance. */
  function Aggregated(op: Aggregator, v: Vector, names: set<Bytes>, without: bool, ts: Int64): (r: Vector)
    ensures |r| == |Grouped(v, names, without)|
  {
    GroupedExact(v, names, without);
    var bs := Grouped(v, names, without);
    seq(|bs|, i requires 0 <= i < |bs| => VectorSample(bs[i].labels, ts, Reduced(op, bs[i].values)))
  }

  // ---- The loops ----

  method Reduce(op: Aggregator, xs: seq<real>) returns (v: real)
    requires xs != []
    ensures v == Reduced(op, xs)
  {
    match op {
      case Sum =>
        v := SumLoop(xs);
      case Avg =>
        v := SumLoop(xs);
        v := v / (|xs| as real);
      case Min =>
        v := xs[0];
        for i := 0 to |xs|
          invariant v == if i == 0 then xs[0] else MinOf(xs[..i])
        {
          assert xs[..i + 1][..i] == xs[..i];
          if xs[i] < v {
            v := xs[i];
          }
        }
        assert xs[..|xs|] == xs;
      case Max =>
        v := xs[0];
        for i := 0 to |xs|
          invariant v == if i == 0 then xs[0] else MaxOf(xs[..i])
        {
          assert xs[..i + 1][..i] == xs[..i];
          if xs[i] > v {
            v := xs[i];
          }
        }
        assert xs[..|xs|] == xs;
      case Count =>
        v := |xs| as real;
      case Group =>
        v := 1.0;
      case Stdvar =>
        v := Variance(xs);
      case Other(reduce) =>
        v := reduce(xs);
    }
  }

  method SumLoop(xs: seq<real>) returns (v: real)
    ensures v == SumOf(xs)
  {
    v := 0.0;
    for i := 0 to |xs|
      invariant v == SumOf(xs[..i])
    {
      assert xs[..i + 1][..i] == xs[..i];
      v := v + xs[i];
    }
    assert xs[..|xs|] == xs;
  }

  method Variance(xs: seq<real>) returns (v: real)
    requires xs != []
    ensures v == VarianceOf(xs)
  {
    var mean := SumLoop(xs);
    mean := mean / (|xs| as real);
    v := 0.0;
    for i := 0 to |xs|
      invariant v == SquaresOf(xs[..i], mean)
    {
      assert xs[..i + 1][..i] == xs[..i];
      var d := xs[i] - mean;
      v := v + d * d;
    }
    assert xs[..|xs|] == xs;
    v := v / (|xs| as real);
  }

  /** The first loop: samples go into a map by key, keys into a list in order of first appearance. */
  method Collected(v: Vector, names: set<Bytes>, without: bool) returns (order: seq<Bytes>, groups: map<Bytes, Bucket<real>>)
    ensures Represents(order, groups, Grouped(v, names, without))
  {
    hide Text;
    hide GroupLabels;
    hide Collect;
    order, groups := [], map[];
    for i := 0 to |v|
      invariant Represents(order, groups, Grouped(v[..i], names, without))
    {
      assert v[..i + 1][..i] == v[..i];
      ghost var bs := Grouped(v[..i], names, without);
      var labels := GroupLabels(v[i].metric, names, without);
      var key := Text(labels);
      RepresentsStep(order, groups, bs, labels, v[i].v);
      hide Represents;
      if key in groups {
        groups := groups[key := groups[key].(values := groups[key].values + [v[i].v])];
      } else {
        groups := groups[key := Bucket(labels, [v[i].v])];
        order := order + [key];
      }
    }
    assert v[..|v|] == v;
  }

  /** Groups an instant vector and reduces each group. */
  method Aggregate(op: Aggregator, v: Vector, names: set<Bytes>, without: bool, ts: Int64) returns (out: Vector)
    ensures out == Aggregated(op, v, names, without, ts)
  {
    hide Text;
    hide Grouped;
    hide Reduced;
    var order, groups := Collected(v, names, without);
    GroupedExact(v, names, without);
    out := [];
    for i := 0 to |order|
      invariant out == Aggregated(op, v, names, without, ts)[..i]
    {
      var b := groups[order[i]];
      var value := Reduce(op, b.values);
      out := out + [VectorSample(b.labels, ts, value)];
    }
  }

  // ---- Rolling up: aggregating an aggregation ----

  /** An accumulating reduction: associative and commutative. */
  ghost predicate Accumulates(f: (real, real) -> real) {
    && (forall a, b :: f(a, b) == f(b, a))
    && (forall a, b, c :: f(f(a, b), c) == f(a, f(b, c)))
  }

  function Fold(f: (real, real) -> real, xs: seq<real>): real
    requires xs != []
  {
    if |xs| == 1 then xs[0] else f(Fold(f, xs[..|xs| - 1]), xs[|xs| - 1])
  }

  /** A label set with an accumulated value. */
  datatype Item = Item(labels: LabelList, v: real)

  function Merge(f: (real, real) -> real, items: seq<Item>, x: Item): seq<Item> {
    if items == [] then [x]
    else if Text(items[0].labels) == Text(x.labels) then [items[0].(v := f(items[0].v, x.v))] + items[1..]
    else [items[0]] + Merge(f, items[1..], x)
  }

  /** Merges the projections of items, one after the other. */
  function MergeAll(f: (real, real) -> real, acc: seq<Item>, xs: seq<Item>, project: LabelList -> LabelList): seq<Item>
    decreases xs
  {
    if xs == [] then acc
    else MergeAll(f, Merge(f, acc, Item(project(xs[0].labels), xs[0].v)), xs[1..], project)
  }

  ghost predicate AllPlain(items: seq<Item>) {
    forall i :: 0 <= i < |items| ==> NamesPlain(items[i].labels)
  }

  /** Whether a projection takes label sets with one text to label sets with one text. */
  ghost predicate KeepsKeys(project: LabelList -> LabelList) {
    forall a, b :: NamesPlain(a) && NamesPlain(b) && Text(a) == Text(b) ==> Text(project(a)) == Text(project(b))
  }

  ghost predicate Has(items: seq<Item>, labels: LabelList) {
    exists i :: 0 <= i < |items| && Text(items[i].labels) == Text(labels)
  }

  lemma HasCons(x: Item, items: seq<Item>, labels: LabelList)
    ensures Has([x] + items, labels) <==> Text(x.labels) == Text(labels) || Has(items, labels)
  {
    hide Text;
    var all := [x] + items;
    if Text(x.labels) == Text(labels) {
      assert Text(all[0].labels) == Text(labels);
    }
    if i :| 0 <= i < |items| && Text(items[i].labels) == Text(labels) {
      assert Text(all[i + 1].labels) == Text(labels);
    }
    if Has(all, labels) {
      var i :| 0 <= i < |all| && Text(all[i].labels) == Text(labels);
      assert i > 0 ==> all[i] == items[i - 1];
    }
  }

  lemma {:induction false} MergeHas(f: (real, real) -> real, items: seq<Item>, x: Item, labels: LabelList)
    ensures Has(Merge(f, items, x), labels) <==> Has(items, labels) || Text(x.labels) == Text(labels)
  {
    hide Text;
    if items == [] {
      HasCons(x, [], labels);
      assert [x] == [x] + [];
    } else {
      assert items == [items[0]] + items[1..];
      HasCons(items[0], items[1..], labels);
      if Text(items[0].labels) == Text(x.labels) {
        HasCons(items[0].(v := f(items[0].v, x.v)), items[1..], labels);
      } else {
        MergeHas(f, items[1..], x, labels);
        HasCons(items[0], Merge(f, items[1..], x), labels);
      }
    }
  }

  lemma {:induction false} MergeSameKey(f: (real, real) -> real, items: seq<Item>, labels: LabelList, a: real,
                                        same: LabelList, b: real)
    requires Accumulates(f) && Text(labels) == Text(same)
    ensures Merge(f, Merge(f, items, Item(labels, a)), Item(same, b)) == Merge(f, items, Item(labels, f(a, b)))
  {
    hide Text;
    if items != [] && Text(items[0].labels) != Text(labels) {
      MergeSameKey(f, items[1..], labels, a, same, b);
    }
  }

  lemma {:induction false} MergeCommutes(f: (real, real) -> real, items: seq<Item>, x: Item, y: Item)
    requires Accumulates(f) && Has(items, x.labels)
    ensures Merge(f, Merge(f, items, x), y) == Merge(f, Merge(f, items, y), x)
  {
    hide Text;
    assert items != [];
    assert items == [items[0]] + items[1..];
    HasCons(items[0], items[1..], x.labels);
    hide Has;
    if Text(items[0].labels) != Text(x.labels) && Text(items[0].labels) != Text(y.labels) {
      MergeCommutes(f, items[1..], x, y);
    }
  }

  /** Merging into a key that is there commutes with merging anything afterwards. */
  lemma {:induction false} MergeAllCommutes(f: (real, real) -> real, acc: seq<Item>, xs: seq<Item>,
                                            project: LabelList -> LabelList, y: Item)
    requires Accumulates(f) && Has(acc, y.labels)
    ensures MergeAll(f, Merge(f, acc, y), xs, project) == Merge(f, MergeAll(f, acc, xs, project), y)
    decreases xs
  {
    hide Text;
    hide Merge;
    hide Has;
    if xs != [] {
      var x := Item(project(xs[0].labels), xs[0].v);
      MergeCommutes(f, acc, y, x);
      MergeHas(f, acc, x, y.labels);
      MergeAllCommutes(f, Merge(f, acc, x), xs[1..], project, y);
    }
  }

  /** Merging into the finer grouping first, or into the coarser one directly, is the same. */
  lemma {:induction false} MergeThenProject(f: (real, real) -> real, acc: seq<Item>, fine: seq<Item>,
                                            project: LabelList -> LabelList, x: Item)
    requires Accumulates(f) && KeepsKeys(project) && AllPlain(fine) && NamesPlain(x.labels)
    ensures MergeAll(f, acc, Merge(f, fine, x), project) ==
            Merge(f, MergeAll(f, acc, fine, project), Item(project(x.labels), x.v))
    decreases fine
  {
    hide Text;
    hide NamesPlain;
    var y := Item(project(x.labels), x.v);
    if fine == [] {
      assert [x][1..] == [];
      MergeAllNone(f, acc, project);
      MergeAllNone(f, Merge(f, acc, y), project);
    } else {
      var g, rest := fine[0], fine[1..];
      var p := Item(project(g.labels), g.v);
      assert fine == [g] + rest;
      if Text(g.labels) == Text(x.labels) {
        assert Text(p.labels) == Text(y.labels);
        var merged := [g.(v := f(g.v, x.v))] + rest;
        assert merged[1..] == rest;
        MergeSameKey(f, acc, p.labels, g.v, y.labels, x.v);
        MergeHas(f, acc, p, y.labels);
        hide Merge;
        MergeAllCommutes(f, Merge(f, acc, p), rest, project, y);
      } else {
        var merged := [g] + Merge(f, rest, x);
        assert merged[1..] == Merge(f, rest, x);
        MergeThenProject(f, Merge(f, acc, p), rest, project, x);
      }
    }
  }

  lemma MergeAllNone(f: (real, real) -> real, acc: seq<Item>, project: LabelList -> LabelList)
    ensures MergeAll(f, acc, [], project) == acc
  {
  }

  lemma {:induction false} MergeAllSnoc(f: (real, real) -> real, acc: seq<Item>, xs: seq<Item>, x: Item,
                                        project: LabelList -> LabelList)
    ensures MergeAll(f, acc, xs + [x], project) == Merge(f, MergeAll(f, acc, xs, project), Item(project(x.labels), x.v))
    decreases xs
  {
    hide Merge;
    if xs == [] {
      assert (xs + [x])[1..] == [];
      MergeAllNone(f, acc, project);
      MergeAllNone(f, Merge(f, acc, Item(project(x.labels), x.v)), project);
    } else {
      assert (xs + [x])[1..] == xs[1..] + [x];
      MergeAllSnoc(f, Merge(f, acc, Item(project(xs[0].labels), xs[0].v)), xs[1..], x, project);
    }
  }

  lemma {:induction false} MergePlain(f: (real, real) -> real, items: seq<Item>, x: Item)
    requires AllPlain(items) && NamesPlain(x.labels)
    ensures AllPlain(Merge(f, items, x))
  {
    hide Text;
    hide NamesPlain;
    if items != [] {
      assert forall i :: 0 <= i < |items[1..]| ==> items[1..][i] == items[i + 1];
      MergePlain(f, items[1..], x);
    }
  }

  // ---- Roll-up of sum, min, max and count ----

  ghost function ItemsOf(v: Vector): (r: seq<Item>)
    ensures |r| == |v| && forall i :: 0 <= i < |v| ==> r[i] == Item(v[i].metric, v[i].v)
  {
    seq(|v|, i requires 0 <= i < |v| => Item(v[i].metric, v[i].v))
  }

  ghost function Projection(names: set<Bytes>, without: bool): LabelList -> LabelList {
    (l: LabelList) => GroupLabels(l, names, without)
  }

  ghost predicate AllFilled(bs: seq<Bucket<real>>) {
    forall i :: 0 <= i < |bs| ==> bs[i].values != []
  }

  ghost function Collapsed(f: (real, real) -> real, bs: seq<Bucket<real>>): (r: seq<Item>)
    requires AllFilled(bs)
    ensures |r| == |bs| && forall i :: 0 <= i < |bs| ==> r[i] == Item(bs[i].labels, Fold(f, bs[i].values))
  {
    seq(|bs|, i requires 0 <= i < |bs| => Item(bs[i].labels, Fold(f, bs[i].values)))
  }

  lemma FoldSnoc(f: (real, real) -> real, xs: seq<real>, x: real)
    requires xs != []
    ensures Fold(f, xs + [x]) == f(Fold(f, xs), x)
  {
    assert (xs + [x])[..|xs|] == xs;
  }

  lemma CollapsedCons(f: (real, real) -> real, b: Bucket<real>, bs: seq<Bucket<real>>)
    requires b.values != [] && AllFilled(bs)
    ensures AllFilled([b] + bs)
    ensures Collapsed(f, [b] + bs) == [Item(b.labels, Fold(f, b.values))] + Collapsed(f, bs)
  {
    hide Fold;
  }

  lemma NoneCollapsed(f: (real, real) -> real)
    ensures AllFilled([]) && Collapsed(f, []) == []
  {
  }

  lemma {:induction false} CollapsedCollect(f: (real, real) -> real, bs: seq<Bucket<real>>, labels: LabelList, x: real)
    requires AllFilled(bs)
    ensures AllFilled(Collect(bs, labels, x))
    ensures Collapsed(f, Collect(bs, labels, x)) == Merge(f, Collapsed(f, bs), Item(labels, x))
  {
    hide Text;
    NoneCollapsed(f);
    if bs == [] {
      CollapsedCons(f, Bucket(labels, [x]), []);
      assert [Bucket(labels, [x])] + [] == [Bucket(labels, [x])];
    } else {
      var b, rest := bs[0], bs[1..];
      assert bs == [b] + rest && b.values != [] && AllFilled(rest);
      CollapsedCons(f, b, rest);
      var head, more := Item(b.labels, Fold(f, b.values)), Collapsed(f, rest);
      hide Fold;
      hide Collapsed;
      assert ([head] + more)[1..] == more;
      if Text(b.labels) == Text(labels) {
        FoldSnoc(f, b.values, x);
        CollapsedCons(f, b.(values := b.values + [x]), rest);
      } else {
        CollapsedCollect(f, rest, labels, x);
        CollapsedCons(f, b, Collect(rest, labels, x));
      }
    }
  }

  lemma {:induction false} GroupedIsMerge(f: (real, real) -> real, v: Vector, names: set<Bytes>, without: bool)
    ensures AllFilled(Grouped(v, names, without))
    ensures Collapsed(f, Grouped(v, names, without)) == MergeAll(f, [], ItemsOf(v), Projection(names, without))
  {
    hide Text;
    hide Collect;
    hide Merge;
    hide GroupLabels;
    if v == [] {
      MergeAllNone(f, [], Projection(names, without));
    } else {
      var front, s := v[..|v| - 1], v[|v| - 1];
      GroupedIsMerge(f, front, names, without);
      CollapsedCollect(f, Grouped(front, names, without), GroupLabels(s.metric, names, without), s.v);
      assert ItemsOf(v) == ItemsOf(front) + [Item(s.metric, s.v)];
      MergeAllSnoc(f, [], ItemsOf(front), Item(s.metric, s.v), Projection(names, without));
    }
  }

  /** The accumulating reduction behind an aggregator, if it has one. */
  ghost function Accumulator(op: Aggregator): (real, real) -> real
    requires op.Sum? || op.Min? || op.Max?
  {
    match op
    case Sum => ((a: real, b: real) => a + b)
    case Min => ((a: real, b: real) => Lesser(a, b))
    case Max => ((a: real, b: real) => Greater(a, b))
  }

  lemma {:induction false} ReducedIsFold(op: Aggregator, xs: seq<real>)
    requires (op.Sum? || op.Min? || op.Max?) && xs != []
    ensures Reduced(op, xs) == Fold(Accumulator(op), xs)
  {
    if |xs| == 1 {
      assert SumOf(xs[..0]) == 0.0;
    } else {
      ReducedIsFold(op, xs[..|xs| - 1]);
    }
  }

  lemma AggregatedIsMerge(op: Aggregator, v: Vector, names: set<Bytes>, without: bool, ts: Int64)
    requires op.Sum? || op.Min? || op.Max?
    ensures ItemsOf(Aggregated(op, v, names, without, ts)) ==
            MergeAll(Accumulator(op), [], ItemsOf(v), Projection(names, without))
  {
    hide Text;
    hide MergeAll;
    hide Reduced;
    hide Fold;
    var f, bs := Accumulator(op), Grouped(v, names, without);
    GroupedIsMerge(f, v, names, without);
    forall i | 0 <= i < |bs| ensures Reduced(op, bs[i].values) == Fold(f, bs[i].values) {
      ReducedIsFold(op, bs[i].values);
    }
    assert ItemsOf(Aggregated(op, v, names, without, ts)) == Collapsed(f, bs);
  }

  lemma SameItems(a: Vector, b: Vector, ts: Int64)
    requires ItemsOf(a) == ItemsOf(b)
    requires (forall i :: 0 <= i < |a| ==> a[i].t == ts) && (forall i :: 0 <= i < |b| ==> b[i].t == ts)
    ensures a == b
  {
    assert |a| == |ItemsOf(a)| == |b|;
    forall i | 0 <= i < |a| ensures a[i] == b[i] {
      assert ItemsOf(a)[i] == ItemsOf(b)[i];
    }
  }

  ghost predicate MetricsPlain(v: Vector) {
    forall i :: 0 <= i < |v| ==> NamesPlain(v[i].metric)
  }

  /** One grouping refines another when projecting through the finer first makes no difference. */
  ghost predicate Refines(fine: set<Bytes>, fineWithout: bool, coarse: set<Bytes>, coarseWithout: bool,
                          direct: set<Bytes>, directWithout: bool) {
    forall l :: GroupLabels(GroupLabels(l, fine, fineWithout), coarse, coarseWithout) == GroupLabels(l, direct, directWithout)
  }

  lemma ProjectionKeepsKeys(names: set<Bytes>, without: bool)
    ensures KeepsKeys(Projection(names, without))
  {
    hide Text;
    hide NamesPlain;
    forall a, b | NamesPlain(a) && NamesPlain(b) && Text(a) == Text(b)
      ensures Text(GroupLabels(a, names, without)) == Text(GroupLabels(b, names, without))
    {
      FilteredSameText(a, b, n => if without then n !in names && n != METRIC_NAME else n in names);
    }
  }

  lemma ProjectsPlainly(v: Vector, fine: set<Bytes>, fineWithout: bool, coarse: set<Bytes>, coarseWithout: bool,
                       direct: set<Bytes>, directWithout: bool)
    requires MetricsPlain(v) && Refines(fine, fineWithout, coarse, coarseWithout, direct, directWithout)
    ensures var p, q, r := Projection(fine, fineWithout), Projection(coarse, coarseWithout), Projection(direct, directWithout);
            forall i :: 0 <= i < |ItemsOf(v)| ==>
              NamesPlain(p(ItemsOf(v)[i].labels)) && q(p(ItemsOf(v)[i].labels)) == r(ItemsOf(v)[i].labels)
  {
    hide NamesPlain;
    forall i | 0 <= i < |v| ensures NamesPlain(GroupLabels(v[i].metric, fine, fineWithout)) {
      FilteredPlain(v[i].metric, n => if fineWithout then n !in fine && n != METRIC_NAME else n in fine);
    }
  }

  lemma AccumulatorAccumulates(op: Aggregator)
    requires op.Sum? || op.Min? || op.Max?
    ensures Accumulates(Accumulator(op))
  {
  }

  lemma AggregatedStamps(op: Aggregator, v: Vector, names: set<Bytes>, without: bool, ts: Int64)
    ensures var r := Aggregated(op, v, names, without, ts); forall i :: 0 <= i < |r| ==> r[i].t == ts
  {
    hide Grouped;
    hide Reduced;
    hide GroupLabels;
  }

  /** Aggregating an aggregation by a coarser grouping is aggregating by the coarser grouping directly, in the same order. */
  lemma RollUp(op: Aggregator, v: Vector, ts: Int64, fine: set<Bytes>, fineWithout: bool,
               coarse: set<Bytes>, coarseWithout: bool, direct: set<Bytes>, directWithout: bool)
    requires op.Sum? || op.Min? || op.Max?
    requires MetricsPlain(v) && Refines(fine, fineWithout, coarse, coarseWithout, direct, directWithout)
    ensures Aggregated(op, Aggregated(op, v, fine, fineWithout, ts), coarse, coarseWithout, ts) ==
            Aggregated(op, v, direct, directWithout, ts)
  {
    hide NamesPlain;
    hide MergeAll;
    hide Accumulator;
    hide Accumulates;
    hide Aggregated;
    hide Projection;
    ProjectsPlainly(v, fine, fineWithout, coarse, coarseWithout, direct, directWithout);
    hide ItemsOf;
    hide Refines;
    hide MetricsPlain;
    var f, p, q, r := Accumulator(op), Projection(fine, fineWithout), Projection(coarse, coarseWithout), Projection(direct, directWithout);
    var inner := Aggregated(op, v, fine, fineWithout, ts);
    AggregatedIsMerge(op, v, fine, fineWithout, ts);
    AggregatedIsMerge(op, inner, coarse, coarseWithout, ts);
    AggregatedIsMerge(op, v, direct, directWithout, ts);
    AccumulatorAccumulates(op);
    ProjectionKeepsKeys(coarse, coarseWithout);
    RollUpVia(f, ItemsOf(v), p, q, r);
    AggregatedStamps(op, inner, coarse, coarseWithout, ts);
    AggregatedStamps(op, v, direct, directWithout, ts);
    SameItems(Aggregated(op, inner, coarse, coarseWithout, ts), Aggregated(op, v, direct, directWithout, ts), ts);
  }

  lemma {:induction false} MergeAllSameKeys(f: (real, real) -> real, acc: seq<Item>, xs: seq<Item>,
                                            p: LabelList -> LabelList, q: LabelList -> LabelList)
    requires forall i :: 0 <= i < |xs| ==> p(xs[i].labels) == q(xs[i].labels)
    ensures MergeAll(f, acc, xs, p) == MergeAll(f, acc, xs, q)
    decreases xs
  {
    hide Merge;
    if xs != [] {
      assert forall i :: 0 <= i < |xs[1..]| ==> xs[1..][i] == xs[i + 1];
      MergeAllSameKeys(f, Merge(f, acc, Item(p(xs[0].labels), xs[0].v)), xs[1..], p, q);
    }
  }

  lemma RollUpVia(f: (real, real) -> real, xs: seq<Item>, p: LabelList -> LabelList, q: LabelList -> LabelList,
                  r: LabelList -> LabelList)
    requires Accumulates(f) && KeepsKeys(q)
    requires forall i :: 0 <= i < |xs| ==> NamesPlain(p(xs[i].labels)) && q(p(xs[i].labels)) == r(xs[i].labels)
    ensures MergeAll(f, [], MergeAll(f, [], xs, p), q) == MergeAll(f, [], xs, r)
  {
    hide NamesPlain;
    hide Text;
    hide MergeAll;
    var qp := (l: LabelList) => q(p(l));
    RollUpTwice(f, [], xs, p, q, qp);
    MergeAllSameKeys(f, [], xs, qp, r);
  }

  /** Merging by p and then the results by q is merging by q after p. */
  lemma {:induction false} RollUpTwice(f: (real, real) -> real, none: seq<Item>, xs: seq<Item>, p: LabelList -> LabelList,
                                       q: LabelList -> LabelList, qp: LabelList -> LabelList)
    requires Accumulates(f) && KeepsKeys(q) && none == []
    requires forall l :: qp(l) == q(p(l))
    requires forall i :: 0 <= i < |xs| ==> NamesPlain(p(xs[i].labels))
    ensures AllPlain(MergeAll(f, none, xs, p))
    ensures MergeAll(f, none, MergeAll(f, none, xs, p), q) == MergeAll(f, none, xs, qp)
  {
    hide Text;
    hide NamesPlain;
    hide Merge;
    if xs == [] {
      MergeAllNone(f, none, p);
      MergeAllNone(f, none, q);
      MergeAllNone(f, none, qp);
    } else {
      var front, x := xs[..|xs| - 1], xs[|xs| - 1];
      assert xs == front + [x];
      RollUpTwice(f, none, front, p, q, qp);
      MergeAllSnoc(f, none, front, x, p);
      MergeAllSnoc(f, none, front, x, qp);
      MergePlain(f, MergeAll(f, none, front, p), Item(p(x.labels), x.v));
      MergeThenProject(f, none, MergeAll(f, none, front, p), q, Item(p(x.labels), x.v));
    }
  }

  /** by(A) of by(A + B) is by(A). */
  lemma ByRefines(a: set<Bytes>, b: set<Bytes>)
    ensures Refines(a + b, false, a, false, a, false)
  {
    forall l ensures GroupLabels(GroupLabels(l, a + b, false), a, false) == GroupLabels(l, a, false) {
      FilteredTwice(l, n => if false then n !in a + b && n != METRIC_NAME else n in a + b,
                    n => if false then n !in a && n != METRIC_NAME else n in a,
                    n => if false then n !in a && n != METRIC_NAME else n in a);
    }
  }

  /** without(B) of without(A) is without(A + B). */
  lemma WithoutRefines(a: set<Bytes>, b: set<Bytes>)
    ensures Refines(a, true, b, true, a + b, true)
  {
    forall l ensures GroupLabels(GroupLabels(l, a, true), b, true) == GroupLabels(l, a + b, true) {
      FilteredTwice(l, n => if true then n !in a && n != METRIC_NAME else n in a,
                    n => if true then n !in b && n != METRIC_NAME else n in b,
                    n => if true then n !in a + b && n != METRIC_NAME else n in a + b);
    }
  }

  /** sum by(A) of sum by(A + B) of v is sum by(A) of v, as a sequence; likewise for min and max. */
  lemma RollUpBy(op: Aggregator, v: Vector, a: set<Bytes>, b: set<Bytes>, ts: Int64)
    requires (op.Sum? || op.Min? || op.Max?) && MetricsPlain(v)
    ensures Aggregated(op, Aggregated(op, v, a + b, false, ts), a, false, ts) == Aggregated(op, v, a, false, ts)
  {
    hide Aggregated;
    ByRefines(a, b);
    RollUp(op, v, ts, a + b, false, a, false, a, false);
  }

  // ---- Counts and totals ----

  ghost function Ones(v: Vector): (r: Vector)
    ensures |r| == |v| && forall i :: 0 <= i < |v| ==> r[i] == v[i].(v := 1.0)
  {
    seq(|v|, i requires 0 <= i < |v| => v[i].(v := 1.0))
  }

  ghost function OnesLike(xs: seq<real>): (r: seq<real>)
    ensures |r| == |xs| && forall i :: 0 <= i < |xs| ==> r[i] == 1.0
  {
    seq(|xs|, i => 1.0)
  }

  lemma {:induction false} SumOfOnes(xs: seq<real>)
    requires forall i :: 0 <= i < |xs| ==> xs[i] == 1.0
    ensures SumOf(xs) == |xs| as real
  {
    if xs != [] {
      SumOfOnes(xs[..|xs| - 1]);
    }
  }

  lemma {:induction false} GroupedOnes(v: Vector, names: set<Bytes>, without: bool)
    ensures var bs, os := Grouped(v, names, without), Grouped(Ones(v), names, without);
            |os| == |bs| && forall i :: 0 <= i < |bs| ==>
                                          os[i].labels == bs[i].labels && os[i].values == OnesLike(bs[i].values)
  {
    hide Text;
    hide GroupLabels;
    hide Collect;
    if v != [] {
      var front, s := v[..|v| - 1], v[|v| - 1];
      GroupedOnes(front, names, without);
      assert Ones(v)[..|v| - 1] == Ones(front);
      var bs, os, labels := Grouped(front, names, without), Grouped(Ones(front), names, without), GroupLabels(s.metric, names, without);
      CollectOnes(bs, os, labels, s.v);
    }
  }

  lemma {:induction false} CollectOnes(bs: seq<Bucket<real>>, os: seq<Bucket<real>>, labels: LabelList, x: real)
    requires |os| == |bs|
    requires forall i :: 0 <= i < |bs| ==> os[i].labels == bs[i].labels && os[i].values == OnesLike(bs[i].values)
    ensures var c, d := Collect(bs, labels, x), Collect(os, labels, 1.0);
            |d| == |c| && forall i :: 0 <= i < |c| ==> d[i].labels == c[i].labels && d[i].values == OnesLike(c[i].values)
  {
    hide Text;
    if bs != [] && Text(bs[0].labels) != Text(labels) {
      CollectOnes(bs[1..], os[1..], labels, x);
    }
  }

  /** Counting is summing ones. */
  lemma CountIsSumOfOnes(v: Vector, names: set<Bytes>, without: bool, ts: Int64)
    ensures Aggregated(Count, v, names, without, ts) == Aggregated(Sum, Ones(v), names, without, ts)
  {
    hide Text;
    hide Grouped;
    GroupedOnes(v, names, without);
    GroupedExact(v, names, without);
    var bs, os := Grouped(v, names, without), Grouped(Ones(v), names, without);
    forall i | 0 <= i < |bs| ensures SumOf(os[i].values) == |bs[i].values| as real {
      SumOfOnes(os[i].values);
    }
  }

  /** The sum of finer counts is the coarser count. */
  lemma CountRollUp(v: Vector, a: set<Bytes>, b: set<Bytes>, ts: Int64)
    requires MetricsPlain(v)
    ensures Aggregated(Sum, Aggregated(Count, v, a + b, false, ts), a, false, ts) == Aggregated(Count, v, a, false, ts)
  {
    hide Aggregated;
    CountIsSumOfOnes(v, a + b, false, ts);
    CountIsSumOfOnes(v, a, false, ts);
    RollUpBy(Sum, Ones(v), a, b, ts);
  }

  function Total(items: seq<Item>): real {
    if items == [] then 0.0 else items[0].v + Total(items[1..])
  }

  lemma {:induction false} MergeTotal(items: seq<Item>, x: Item)
    ensures Total(Merge(Accumulator(Sum), items, x)) == Total(items) + x.v
  {
    hide Text;
    if items == [] {
      assert [x][1..] == [];
    } else if Text(items[0].labels) != Text(x.labels) {
      MergeTotal(items[1..], x);
    }
  }

  lemma {:induction false} MergeAllTotal(acc: seq<Item>, xs: seq<Item>, project: LabelList -> LabelList)
    ensures Total(MergeAll(Accumulator(Sum), acc, xs, project)) == Total(acc) + Total(xs)
    decreases xs
  {
    hide Merge;
    if xs != [] {
      var x := Item(project(xs[0].labels), xs[0].v);
      MergeTotal(acc, x);
      MergeAllTotal(Merge(Accumulator(Sum), acc, x), xs[1..], project);
    }
  }

  /** Whatever the grouping, the group sums add up to the sum of all samples. */
  lemma SumConserved(v: Vector, names: set<Bytes>, without: bool, ts: Int64)
    ensures Total(ItemsOf(Aggregated(Sum, v, names, without, ts))) == Total(ItemsOf(v))
  {
    hide MergeAll;
    AggregatedIsMerge(Sum, v, names, without, ts);
    MergeAllTotal([], ItemsOf(v), Projection(names, without));
  }
}
