/** What quantiles are, with the rank written out: of histogram buckets and of samples, edges included. */
module QuantileLaws {
  import opened Quantile
  import Sorting

  // ---- Buckets ----

  lemma RankIs(q: real, total: real)
    ensures RankOf(q, total) == q * total
  {
  }

  /** The bound stays, and the count is raised to the largest so far. */
  ghost predicate RaisedAt(t: seq<Bucket>, s: seq<Bucket>, i: nat)
    requires i < |s| == |t|
  {
    && s[i].upperBound == t[i].upperBound
    && (forall j :: 0 <= j <= i ==> t[j].count <= s[i].count)
    && (exists j :: 0 <= j <= i && t[j].count == s[i].count)
  }

  ghost predicate RunsUp(t: seq<Bucket>, s: seq<Bucket>) {
    |s| == |t| && forall i :: 0 <= i < |s| ==> RaisedAt(t, s, i)
  }

  lemma RepairedRunsUp(t: seq<Bucket>)
    ensures RunsUp(t, Repaired(t))
  {
    forall i | 0 <= i < |t| ensures RaisedAt(t, Repaired(t), i) {
      RepairedIsRunningMax(t, i);
    }
    hide *;
  }

  /** The buckets sorted by bound, with their counts repaired. */
  ghost predicate IsPrepared(arrange: Arrange, bs: seq<Bucket>, s: seq<Bucket>) {
    |arrange(bs)| == |bs| && RunsUp(arrange(bs), s) && Proper(s)
  }

  lemma PreparedIs(arrange: Arrange, bs: seq<Bucket>)
    requires IsSort(arrange) && Usable(bs)
    ensures IsPrepared(arrange, bs, Prepared(arrange, bs))
  {
    hide Usable;
    UsableIsProper(arrange, bs);
    ArrangedLength(arrange, bs);
    RepairedRunsUp(arrange(bs));
    hide IsSort;
    hide Proper;
    hide Repaired;
    hide RunsUp;
  }

  /** x lies between lo and hi as num between 0 and den. */
  ghost predicate Divides(x: real, lo: real, hi: real, num: real, den: real) {
    (x - lo) * den == (hi - lo) * num
  }

  /** What a bucket, the first to reach the rank, makes of it. */
  ghost predicate ReadsOff(s: seq<Bucket>, b: nat, rank: real, x: real)
    requires Proper(s) && b < |s|
  {
    if b == |s| - 1 then x == s[b - 1].upperBound.r
    else if b == 0 && s[0].upperBound.r <= 0.0 then x == s[0].upperBound.r
    else
      var (lo, below) := if b > 0 then (s[b - 1].upperBound.r, s[b - 1].count) else (0.0, 0.0);
      && (s[b].count == below ==> x == lo)
      && Divides(x, lo, s[b].upperBound.r, rank - below, s[b].count - below)
  }

  lemma RankDivides(s: seq<Bucket>, rank: real)
    requires Proper(s) && 0.0 <= rank <= s[|s| - 1].count
    ensures var b, x := FirstReaching(s, |s| - 1, rank), AtRank(s, rank);
            b < |s| - 1 && !(b == 0 && s[0].upperBound.r <= 0.0) ==>
              x.Real? && Divides(x.r, Floor(s, b), Ceiling(s, b), rank - BaseCount(s, b), s[b].count - BaseCount(s, b))
  {
    RankRecovered(s, rank);
    hide *;
  }

  lemma AtRankReadsOff(s: seq<Bucket>, rank: real)
    requires Proper(s) && 0.0 <= rank <= s[|s| - 1].count
    ensures AtRank(s, rank).Real? && ReadsOff(s, FirstReaching(s, |s| - 1, rank), rank, AtRank(s, rank).r)
  {
    InnerBucket(s, rank);
    RankDivides(s, rank);
    hide AtRank;
    hide FirstReaching;
    hide Cumulative;
    hide Divides;
    hide OnLine;
  }

  /**
   * The quantile q of usable buckets: q times the total is looked up in the first bucket that reaches it; there the
   * value divides the bounds as the rank divides the counts; behind the last finite bound it is that bound, and a
   * first bucket that ends at or below zero gives its bound.
   */
  lemma QuantileExact(arrange: Arrange, bs: seq<Bucket>, q: real) returns (s: seq<Bucket>, b: nat)
    requires IsSort(arrange) && Usable(bs) && 0.0 <= q <= 1.0
    ensures IsPrepared(arrange, bs, s) && b < |s|
    ensures (forall i :: 0 <= i < b ==> s[i].count < q * s[|s| - 1].count) && s[b].count >= q * s[|s| - 1].count
    ensures var x := BucketQuantile(arrange, Real(q), bs); x.Real? && ReadsOff(s, b, q * s[|s| - 1].count, x.r)
  {
    s := Prepared(arrange, bs);
    PreparedIs(arrange, bs);
    QuantileIsAtRank(arrange, bs, q);
    var total := s[|s| - 1].count;
    RankIs(q, total);
    hide IsSort;
    hide Usable;
    hide RankOf;
    hide BucketQuantile;
    hide Prepared;
    var rank := RankOf(q, total);
    AtRankReadsOff(s, rank);
    b := FirstReaching(s, |s| - 1, rank);
    hide FirstReaching;
    hide ReadsOff;
    hide AtRank;
  }

  /** Where there is no such number: NaN for no quantile, too few buckets, no +Inf bucket or nothing counted; infinite outside [0, 1]. */
  lemma QuantileEdges(arrange: Arrange, bs: seq<Bucket>, q: real)
    requires IsSort(arrange) && NoNaN(bs)
    ensures BucketQuantile(arrange, NaN, bs) == NaN
    ensures q < 0.0 ==> BucketQuantile(arrange, Real(q), bs) == NegInf
    ensures q > 1.0 ==> BucketQuantile(arrange, Real(q), bs) == PosInf
    ensures 0.0 <= q <= 1.0 && |bs| < 2 ==> BucketQuantile(arrange, Real(q), bs) == NaN
    ensures 0.0 <= q <= 1.0 && (forall b :: b in bs ==> b.upperBound != PosInf) ==> BucketQuantile(arrange, Real(q), bs) == NaN
    ensures 0.0 <= q <= 1.0 && (forall b :: b in bs ==> b.count == 0.0) ==> BucketQuantile(arrange, Real(q), bs) == NaN
  {
    SortedBuckets(arrange, bs);
    hide IsSort;
    var s := arrange(bs);
    if 0.0 <= q <= 1.0 && |s| >= 2 {
      assert s[|s| - 1] in bs;
      if forall b :: b in bs ==> b.count == 0.0 {
        RepairedIsRunningMax(s, |s| - 1);
        var j :| 0 <= j <= |s| - 1 && s[j].count == Repaired(s)[|s| - 1].count;
        assert s[j] in bs;
      }
    }
    hide Repaired;
    hide AtRank;
  }

  // ---- Samples ----

  /** Values in ascending order. */
  ghost predicate IsSorted(s: seq<real>, vals: seq<real>) {
    multiset(s) == multiset(vals) && forall i, j :: 0 <= i <= j < |s| ==> s[i] <= s[j]
  }

  /** The quantile q of n samples lies at rank q * (n - 1) among them, on the line between the two next to it. */
  lemma SampleQuantileExact(vals: seq<real>, q: real, rank: real, i: nat) returns (s: seq<real>)
    requires vals != [] && 0.0 <= q <= 1.0 && i < |vals|
    requires rank == q * ((|vals| - 1) as real) && i as real <= rank < (i + 1) as real
    ensures IsSorted(s, vals) && |s| == |vals|
    ensures var x := SampleQuantile(q, vals);
            x.Real? && x.r == s[i] + (if i + 1 < |s| then (s[i + 1] - s[i]) * (rank - i as real) else 0.0)
  {
    s := SortedReals(vals);
    RankIs(q, (|vals| - 1) as real);
    SampleIsOfSorted(vals, q);
    hide *;
    OnTheLine(s, rank, i);
  }

  lemma SortedReals(vals: seq<real>) returns (s: seq<real>)
    ensures s == Sorting.StableSort(RealLess, vals) && IsSorted(s, vals) && |s| == |vals|
  {
    RealLessIsOrder();
    Sorting.StableSortSorts(RealLess, vals);
    s := Sorting.StableSort(RealLess, vals);
    hide Sorting.StableSort;
    assert |multiset(s)| == |multiset(vals)|;
    forall i, j | 0 <= i <= j < |s| ensures s[i] <= s[j] {
      if i < j {
        assert !RealLess(s[j], s[i]);
      }
    }
  }

  lemma SampleIsOfSorted(vals: seq<real>, q: real)
    requires vals != [] && 0.0 <= q <= 1.0
    ensures var rank := RankOf(q, (|vals| - 1) as real);
            && 0.0 <= rank <= (|vals| - 1) as real && |Sorting.StableSort(RealLess, vals)| == |vals|
            && SampleQuantile(q, vals) == Real(OfSorted(Sorting.StableSort(RealLess, vals), rank))
  {
    RankInRange(q, (|vals| - 1) as real);
    hide OfSorted;
    hide RankOf;
  }

  lemma OnTheLine(s: seq<real>, rank: real, i: nat)
    requires i < |s| && 0.0 <= rank <= (|s| - 1) as real && i as real <= rank < (i + 1) as real
    ensures OfSorted(s, rank) == s[i] + if i + 1 < |s| then (s[i + 1] - s[i]) * (rank - i as real) else 0.0
  {
    assert rank.Floor == i;
    if rank == i as real {
      assert CeilingOf(rank) == i;
      Weighed(s[i], s[i], 0.0);
      assert i + 1 < |s| ==> (s[i + 1] - s[i]) * 0.0 == 0.0;
    } else {
      assert CeilingOf(rank) == i + 1;
      Weighed(s[i], s[i + 1], rank - i as real);
    }
    hide Blended;
  }

  lemma Weighed(a: real, b: real, w: real)
    ensures Blended(a, b, w) == a + (b - a) * w
  {
  }

  /** Outside [0, 1] it is infinite, and of no samples it is NaN. */
  lemma SampleQuantileEdges(vals: seq<real>, q: real)
    ensures SampleQuantile(q, []) == NaN
    ensures vals != [] && q < 0.0 ==> SampleQuantile(q, vals) == NegInf
    ensures vals != [] && q > 1.0 ==> SampleQuantile(q, vals) == PosInf
  {
  }
}
