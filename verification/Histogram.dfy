/** histogram_quantile: bucket series grouped by their other labels, one quantile per group. */
module Histogram {
  import opened Base
  import opened Labels
  import opened Vectors
  import opened Buckets
  import Quantile

  /** The bytes of "le". */
  const LE: Bytes := [108, 101]

  /** A result: the labels of a histogram and its quantile, which may be NaN or infinite. */
  datatype Estimate = Estimate(labels: LabelList, t: Int64, value: Quantile.Float)

  type LeParser = Bytes -> Option<Quantile.Float>

  /** A sample is a bucket when its le label is there and a number. */
  predicate IsBucket(parseLe: LeParser, s: VectorSample) {
    Get(s.metric, LE) != [] && parseLe(Get(s.metric, LE)).Some?
  }

  function HistogramLabels(s: VectorSample): LabelList { DropLabels(s.metric, {METRIC_NAME, LE}) }

  function BucketOf(parseLe: LeParser, s: VectorSample): Quantile.Bucket
    requires IsBucket(parseLe, s)
  {
    Quantile.Bucket(parseLe(Get(s.metric, LE)).value, s.v)
  }

  function Histograms(parseLe: LeParser, v: Vector): seq<Bucket<Quantile.Bucket>> {
    if v == [] then []
    else
      var front, s := Histograms(parseLe, v[..|v| - 1]), v[|v| - 1];
      if IsBucket(parseLe, s) then Collect(front, HistogramLabels(s), BucketOf(parseLe, s)) else front
  }

  /** The buckets of one histogram, in input order. */
  function BucketsOf(parseLe: LeParser, v: Vector, text: Bytes): seq<Quantile.Bucket> {
    if v == [] then []
    else
      var front, s := BucketsOf(parseLe, v[..|v| - 1], text), v[|v| - 1];
      if IsBucket(parseLe, s) && Text(HistogramLabels(s)) == text then front + [BucketOf(parseLe, s)] else front
  }

  /** Every bucket sample is in the one histogram of its labels, in order; other samples are in none. */
  lemma {:induction false} HistogramsExact(parseLe: LeParser, v: Vector)
    ensures var hs := Histograms(parseLe, v);
            && DistinctTexts(hs)
            && (forall i :: 0 <= i < |hs| ==> hs[i].values != [] && hs[i].values == BucketsOf(parseLe, v, Text(hs[i].labels)))
            && (forall text :: !HasText(hs, text) ==> BucketsOf(parseLe, v, text) == [])
  {
    hide Text;
    hide HasText;
    hide Collect;
    hide IsBucket;
    hide HistogramLabels;
    if v != [] {
      hide DistinctTexts;
      var front, s := v[..|v| - 1], v[|v| - 1];
      HistogramsExact(parseLe, front);
      if IsBucket(parseLe, s) {
        CollectDistinct(Histograms(parseLe, front), HistogramLabels(s), BucketOf(parseLe, s));
        CollectValues(Histograms(parseLe, front), HistogramLabels(s), BucketOf(parseLe, s));
      }
    }
  }

  function Estimates(arrange: Quantile.Arrange, phi: Quantile.Float, hs: seq<Bucket<Quantile.Bucket>>, ts: Int64): (r: seq<Estimate>)
    ensures |r| == |hs|
    ensures forall i :: 0 <= i < |hs| ==> r[i] == Estimate(hs[i].labels, ts, Quantile.BucketQuantile(arrange, phi, hs[i].values))
  {
    seq(|hs|, i requires 0 <= i < |hs| => Estimate(hs[i].labels, ts, Quantile.BucketQuantile(arrange, phi, hs[i].values)))
  }

  /** The first loop: buckets go into a map by the text of their other labels. */
  method GroupBuckets(parseLe: LeParser, vec: Vector) returns (order: seq<Bytes>, groups: map<Bytes, Bucket<Quantile.Bucket>>)
    ensures Represents(order, groups, Histograms(parseLe, vec))
  {
    hide Text;
    hide HistogramLabels;
    hide Collect;
    order, groups := [], map[];
    for i := 0 to |vec|
      invariant Represents(order, groups, Histograms(parseLe, vec[..i]))
    {
      assert vec[..i + 1][..i] == vec[..i];
      var s := vec[i];
      var le := GetValue(s.metric, LE);
      if le == [] {
        continue;
      }
      var upper := parseLe(le);
      if upper.None? {
        continue;
      }
      var b, key := Quantile.Bucket(upper.value, s.v), HistogramLabels(s);
      var ks := Text(key);
      RepresentsStep(order, groups, Histograms(parseLe, vec[..i]), key, b);
      hide Represents;
      if ks in groups {
        groups := groups[ks := groups[ks].(values := groups[ks].values + [b])];
      } else {
        groups := groups[ks := Bucket(key, [b])];
        order := order + [ks];
      }
    }
    assert vec[..|vec|] == vec;
  }

  method CallHistogramQuantile(arrange: Quantile.Arrange, phi: Quantile.Float, parseLe: LeParser, vec: Vector, ts: Int64)
    returns (out: seq<Estimate>)
    requires Quantile.IsSort(arrange)
    ensures out == Estimates(arrange, phi, Histograms(parseLe, vec), ts)
  {
    hide Text;
    hide Histograms;
    hide Quantile.BucketQuantile;
    hide Quantile.IsSort;
    var order, groups := GroupBuckets(parseLe, vec);
    out := [];
    for i := 0 to |order|
      invariant out == Estimates(arrange, phi, Histograms(parseLe, vec), ts)[..i]
    {
      var g := groups[order[i]];
      var buckets := new Quantile.Bucket[|g.values|](k requires 0 <= k < |g.values| => g.values[k]);
      assert buckets[..] == g.values;
      var value := Quantile.ComputeBucketQuantile(arrange, phi, buckets);
      out := out + [Estimate(g.labels, ts, value)];
    }
  }

  /** Each estimate is finite and does not decrease with the quantile asked for. */
  lemma EstimatesMonotone(arrange: Quantile.Arrange, p: real, q: real, parseLe: LeParser, v: Vector, ts: Int64, i: nat)
    requires Quantile.IsSort(arrange) && 0.0 <= p <= q <= 1.0 && i < |Histograms(parseLe, v)|
    requires Quantile.Usable(BucketsOf(parseLe, v, Text(Histograms(parseLe, v)[i].labels)))
    ensures var hs := Histograms(parseLe, v);
            var x, y := Estimates(arrange, Quantile.Real(p), hs, ts)[i].value, Estimates(arrange, Quantile.Real(q), hs, ts)[i].value;
            x.Real? && y.Real? && x.r <= y.r
  {
    hide Quantile.BucketQuantile;
    hide Quantile.IsSort;
    hide Quantile.Usable;
    hide Histograms;
    HistogramsExact(parseLe, v);
    Quantile.QuantileMonotone(arrange, Histograms(parseLe, v)[i].values, p, q);
  }
}
