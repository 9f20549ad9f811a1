/** Quantiles: of cumulative histogram buckets, and of a list of samples. */
module Quantile {
  import opened Base
  import Sorting

  /** A float64: real arithmetic stands for the finite values. */
  datatype Float = NaN | NegInf | Real(r: real) | PosInf

  /** An upper bound with a cumulative count; counts are finite. */
  datatype Bucket = Bucket(upperBound: Float, count: real)

  /** Go's `<`: no comparison with NaN holds. */
  predicate Less(a: Float, b: Float) {
    match a
    case NaN => false
    case NegInf => b.Real? || b.PosInf?
    case Real(x) => b.PosInf? || (b.Real? && x < b.r)
    case PosInf => false
  }

  /** A float order made total by placing NaN first. */
  const NaNFirst: (Bucket, Bucket) -> bool :=
    (a: Bucket, b: Bucket) => (a.upperBound.NaN? && !b.upperBound.NaN?) || Less(a.upperBound, b.upperBound)

  /** What sort.Slice makes of buckets. It is not stable: buckets with one bound may come out in any order. */
  type Arrange = seq<Bucket> -> seq<Bucket>

  ghost predicate NoNaN(s: seq<Bucket>) {
    forall i :: 0 <= i < |s| ==> !s[i].upperBound.NaN?
  }

  /** Sorting rearranges, and puts the bounds in ascending order unless some are NaN. */
  ghost predicate IsSort(arrange: Arrange) {
    forall s :: multiset(arrange(s)) == multiset(s) && (NoNaN(s) ==> Sorting.SortedBy(NaNFirst, arrange(s)))
  }

  lemma ArrangedLength(arrange: Arrange, s: seq<Bucket>)
    requires IsSort(arrange)
    ensures |arrange(s)| == |s|
  {
    assert |multiset(arrange(s))| == |multiset(s)|;
  }

  lemma NaNFirstIsOrder()
    ensures Sorting.StrictWeakOrder(NaNFirst)
  {
  }

  /** A stable sort is one of them. */
  lemma StableSortIsSort()
    ensures IsSort(s => Sorting.StableSort(NaNFirst, s))
  {
    NaNFirstIsOrder();
    forall s: seq<Bucket>
      ensures var r := Sorting.StableSort(NaNFirst, s); multiset(r) == multiset(s) && Sorting.SortedBy(NaNFirst, r)
    {
      Sorting.StableSortSorts(NaNFirst, s);
    }
  }

  function OnLine(start: real, end: real, num: real, den: real): real
    requires den != 0.0
  {
    start + (end - start) * num / den
  }

  /** start + (end - start) * num / den in extended arithmetic, for den != 0. */
  function Interpolated(start: Float, end: Float, num: real, den: real): Float
    requires den != 0.0
  {
    if start.Real? && end.Real? then Real(OnLine(start.r, end.r, num, den))
    else if start.Real? && end.PosInf? && num != 0.0 then if (num > 0.0) == (den > 0.0) then PosInf else NegInf
    else if start.Real? && end.NegInf? && num != 0.0 then if (num > 0.0) == (den > 0.0) then NegInf else PosInf
    else NaN
  }

  // ---- Repairing counts ----

  /** Replaces each count by the largest so far. */
  function Repaired(s: seq<Bucket>): (r: seq<Bucket>)
    ensures |r| == |s|
  {
    if |s| <= 1 then s
    else
      var front, last := Repaired(s[..|s| - 1]), s[|s| - 1];
      var before := front[|front| - 1].count;
      front + [if last.count < before then last.(count := before) else last]
  }

  /** Bounds stay, and every count becomes the running maximum. */
  lemma {:induction false} RepairedIsRunningMax(s: seq<Bucket>, i: nat)
    requires i < |s|
    ensures Repaired(s)[i].upperBound == s[i].upperBound
    ensures forall j :: 0 <= j <= i ==> s[j].count <= Repaired(s)[i].count
    ensures exists j :: 0 <= j <= i && s[j].count == Repaired(s)[i].count
  {
    if i < |s| - 1 {
      var front := s[..|s| - 1];
      RepairedIsRunningMax(front, i);
      assert Repaired(s)[i] == Repaired(front)[i];
      var j :| 0 <= j <= i && front[j].count == Repaired(front)[i].count;
      assert s[j].count == Repaired(s)[i].count;
    } else if i > 0 {
      var front := s[..|s| - 1];
      RepairedIsRunningMax(front, i - 1);
      var j :| 0 <= j <= i - 1 && front[j].count == Repaired(front)[i - 1].count;
      if s[i].count < Repaired(front)[i - 1].count {
        assert s[j].count == Repaired(s)[i].count;
      } else {
        assert s[i].count == Repaired(s)[i].count;
      }
    }
  }

  ghost predicate Cumulative(s: seq<Bucket>) {
    forall i, j :: 0 <= i <= j < |s| ==> s[i].count <= s[j].count
  }

  lemma {:induction false} RepairedCumulative(s: seq<Bucket>)
    ensures Cumulative(Repaired(s))
  {
    if |s| > 1 {
      RepairedCumulative(s[..|s| - 1]);
    }
  }

  // ---- The quantile of repaired buckets ----

  /** The first of the first n buckets that reaches the rank, or n. */
  function FirstReaching(s: seq<Bucket>, n: nat, rank: real): (b: nat)
    requires n <= |s|
    ensures b <= n
    ensures forall i :: 0 <= i < b ==> s[i].count < rank
    ensures b < n ==> s[b].count >= rank
  {
    if n == 0 then 0
    else
      var b := FirstReaching(s, n - 1, rank);
      if b < n - 1 then b else if s[n - 1].count >= rank then n - 1 else n
  }

  lemma FirstReachingUnique(s: seq<Bucket>, n: nat, rank: real, b: nat)
    requires n <= |s| && b <= n
    requires forall i :: 0 <= i < b ==> s[i].count < rank
    requires b < n ==> s[b].count >= rank
    ensures FirstReaching(s, n, rank) == b
  {
  }

  /** Linear interpolation within the bucket that reaches rank. */
  function AtRank(s: seq<Bucket>, rank: real): Float
    requires |s| >= 2
  {
    var b := FirstReaching(s, |s| - 1, rank);
    if b == |s| - 1 then s[|s| - 2].upperBound
    else if b == 0 && !Less(Real(0.0), s[0].upperBound) && !s[0].upperBound.NaN? then s[0].upperBound
    else
      var start, base := if b > 0 then s[b - 1].upperBound else Real(0.0), if b > 0 then s[b - 1].count else 0.0;
      if s[b].count == base then start
      else Interpolated(start, s[b].upperBound, rank - base, s[b].count - base)
  }

  /** How far into the total the quantile lies. */
  function RankOf(q: real, total: real): real { q * total }

  function OfRepaired(q: real, s: seq<Bucket>): Float
    requires |s| >= 2
  {
    var total := s[|s| - 1].count;
    if total == 0.0 then NaN else AtRank(s, RankOf(q, total))
  }

  function BucketQuantile(arrange: Arrange, q: Float, buckets: seq<Bucket>): Float {
    match q
    case NaN => NaN
    case NegInf => NegInf
    case PosInf => PosInf
    case Real(x) =>
      if x < 0.0 then NegInf
      else if x > 1.0 then PosInf
      else
        var s := arrange(buckets);
        if |s| < 2 || s[|s| - 1].upperBound != PosInf then NaN else OfRepaired(x, Repaired(s))
  }

  // ---- In place ----

  /** What the computation leaves in the buckets it is given. */
  function LeftBehind(arrange: Arrange, q: Float, buckets: seq<Bucket>): seq<Bucket> {
    if !q.Real? || q.r < 0.0 || q.r > 1.0 then buckets
    else
      var s := arrange(buckets);
      if |s| < 2 || s[|s| - 1].upperBound != PosInf then s else Repaired(s)
  }

  method SortBuckets(arrange: Arrange, a: array<Bucket>)
    requires IsSort(arrange)
    modifies a
    ensures a[..] == arrange(old(a[..]))
  {
    var sorted := arrange(a[..]);
    ArrangedLength(arrange, a[..]);
    forall i | 0 <= i < a.Length {
      a[i] := sorted[i];
    }
  }

  /** Raises each count to its predecessor's where it is smaller. */
  method Repair(a: array<Bucket>)
    requires a.Length >= 1
    modifies a
    ensures a[..] == Repaired(old(a[..]))
  {
    ghost var s := a[..];
    assert a[..1] == s[..1];
    for i := 1 to a.Length
      invariant a[..i] == Repaired(s[..i])
      invariant forall k :: i <= k < a.Length ==> a[k] == s[k]
    {
      assert s[..i + 1][..i] == s[..i];
      ghost var front := a[..i];
      assert a[i - 1] == front[i - 1];
      if a[i].count < a[i - 1].count {
        a[i] := a[i].(count := a[i - 1].count);
      }
      assert a[..i + 1] == front + [a[i]];
    }
    assert s[..a.Length] == s;
  }

  /** Binary search for the first bucket that reaches rank. */
  method SearchRank(a: array<Bucket>, n: nat, rank: real) returns (b: nat)
    requires n <= a.Length && Cumulative(a[..])
    ensures b == FirstReaching(a[..], n, rank)
  {
    var i, j := 0, n;
    while i < j
      invariant 0 <= i <= j <= n
      invariant forall k :: 0 <= k < i ==> a[..][k].count < rank
      invariant j < n ==> a[..][j].count >= rank
    {
      var h := (i + j) / 2;
      if !(a[h].count >= rank) {
        assert forall k :: 0 <= k <= h ==> a[..][k].count <= a[..][h].count;
        i := h + 1;
      } else {
        j := h;
      }
    }
    FirstReachingUnique(a[..], n, rank, i);
    b := i;
  }

  /** Sorts and repairs the buckets in place and reads the quantile off them. */
  method ComputeBucketQuantile(arrange: Arrange, q: Float, a: array<Bucket>) returns (r: Float)
    requires IsSort(arrange)
    modifies a
    ensures r == BucketQuantile(arrange, q, old(a[..]))
    ensures a[..] == LeftBehind(arrange, q, old(a[..]))
  {
    hide Repaired;
    hide IsSort;
    hide AtRank;
    hide RankOf;
    if q.NaN? {
      return NaN;
    }
    if Less(q, Real(0.0)) {
      return NegInf;
    }
    if Less(Real(1.0), q) {
      return PosInf;
    }
    SortBuckets(arrange, a);
    var n := a.Length;
    if n < 2 || a[n - 1].upperBound != PosInf {
      return NaN;
    }
    Repair(a);
    ghost var s := a[..];
    RepairedCumulative(arrange(old(a[..])));
    var total := a[n - 1].count;
    if total == 0.0 {
      return NaN;
    }
    r := ReadRank(a, RankOf(q.r, total));
  }

  /** Finds the bucket that reaches rank and interpolates in it. */
  method ReadRank(a: array<Bucket>, rank: real) returns (r: Float)
    requires a.Length >= 2 && Cumulative(a[..])
    ensures r == AtRank(a[..], rank)
    ensures a[..] == old(a[..])
  {
    hide Cumulative;
    hide Interpolated;
    hide FirstReaching;
    var n := a.Length;
    var b := SearchRank(a, n - 1, rank);
    if b == n - 1 {
      return a[n - 2].upperBound;
    }
    if b == 0 && !Less(Real(0.0), a[0].upperBound) && !a[0].upperBound.NaN? {
      return a[0].upperBound;
    }
    var bucketStart, countStart := Real(0.0), 0.0;
    var bucketEnd, countEnd := a[b].upperBound, a[b].count;
    if b > 0 {
      bucketStart := a[b - 1].upperBound;
      countStart := a[b - 1].count;
    }
    if countEnd == countStart {
      return bucketStart;
    }
    return Interpolated(bucketStart, bucketEnd, rank - countStart, countEnd - countStart);
  }

  // ---- Bounds and monotonicity ----

  /** Finite ascending bounds closed by +Inf, and cumulative non-negative counts with a positive total. */
  ghost predicate Proper(s: seq<Bucket>) {
    && |s| >= 2
    && s[|s| - 1].upperBound == PosInf
    && (forall i :: 0 <= i < |s| - 1 ==> s[i].upperBound.Real?)
    && (forall i, j :: 0 <= i <= j < |s| - 1 ==> s[i].upperBound.r <= s[j].upperBound.r)
    && Cumulative(s)
    && s[0].count >= 0.0
    && s[|s| - 1].count > 0.0
  }

  /** Where the bucket that reaches a rank starts: the bound before it, or zero, or a first bound below zero. */
  ghost function Floor(s: seq<Bucket>, b: nat): real
    requires Proper(s) && b < |s|
  {
    if b > 0 then s[b - 1].upperBound.r else if s[0].upperBound.r <= 0.0 then s[0].upperBound.r else 0.0
  }

  /** Where it ends. */
  ghost function Ceiling(s: seq<Bucket>, b: nat): real
    requires Proper(s) && b < |s|
  {
    if b == |s| - 1 then s[b - 1].upperBound.r else s[b].upperBound.r
  }

  lemma LineWithin(lo: real, hi: real, num: real, den: real)
    requires lo <= hi && 0.0 <= num <= den && den > 0.0
    ensures lo <= OnLine(lo, hi, num, den) <= hi
  {
    var d := hi - lo;
    assert d * num <= d * den;
    assert 0.0 <= d * num;
    assert d * num / den <= d * den / den == d;
  }

  lemma LineMonotone(lo: real, hi: real, a: real, b: real, den: real)
    requires lo <= hi && a <= b && den > 0.0
    ensures OnLine(lo, hi, a, den) <= OnLine(lo, hi, b, den)
  {
    var d := hi - lo;
    assert d * a <= d * b;
    assert d * a / den <= d * b / den;
  }

  ghost function BaseCount(s: seq<Bucket>, b: nat): real
    requires b <= |s|
  {
    if b > 0 then s[b - 1].count else 0.0
  }

  /** The value inside a bucket that is interpolated. */
  lemma InnerBucket(s: seq<Bucket>, rank: real)
    requires Proper(s) && 0.0 <= rank <= s[|s| - 1].count
    ensures var b := FirstReaching(s, |s| - 1, rank);
            if b == |s| - 1 || (b == 0 && s[0].upperBound.r <= 0.0) then AtRank(s, rank) == Real(Ceiling(s, b))
            else if s[b].count == BaseCount(s, b) then b == 0 && AtRank(s, rank) == Real(0.0)
            else
              && 0.0 <= rank - BaseCount(s, b) <= s[b].count - BaseCount(s, b)
              && AtRank(s, rank) == Real(OnLine(Floor(s, b), Ceiling(s, b), rank - BaseCount(s, b), s[b].count - BaseCount(s, b)))
  {
    hide OnLine;
    hide FirstReaching;
    var b := FirstReaching(s, |s| - 1, rank);
    assert b > 0 ==> s[b - 1].count < rank;
  }

  /** The value at a rank lies inside its bucket. */
  lemma WithinBucket(s: seq<Bucket>, rank: real)
    requires Proper(s) && 0.0 <= rank <= s[|s| - 1].count
    ensures var b := FirstReaching(s, |s| - 1, rank);
            AtRank(s, rank).Real? && Floor(s, b) <= AtRank(s, rank).r <= Ceiling(s, b)
  {
    hide OnLine;
    hide AtRank;
    hide FirstReaching;
    InnerBucket(s, rank);
    var b := FirstReaching(s, |s| - 1, rank);
    if b < |s| - 1 && !(b == 0 && s[0].upperBound.r <= 0.0) && s[b].count != BaseCount(s, b) {
      LineWithin(Floor(s, b), Ceiling(s, b), rank - BaseCount(s, b), s[b].count - BaseCount(s, b));
    }
  }

  lemma MonotoneInRank(s: seq<Bucket>, x: real, y: real)
    requires Proper(s) && 0.0 <= x <= y <= s[|s| - 1].count
    ensures AtRank(s, x).Real? && AtRank(s, y).Real? && AtRank(s, x).r <= AtRank(s, y).r
  {
    hide OnLine;
    hide AtRank;
    hide FirstReaching;
    WithinBucket(s, x);
    WithinBucket(s, y);
    var b, c := FirstReaching(s, |s| - 1, x), FirstReaching(s, |s| - 1, y);
    assert c < |s| - 1 ==> s[c].count >= y;
    if b < c {
      assert Ceiling(s, b) <= Floor(s, c);
    } else {
      InnerBucket(s, x);
      InnerBucket(s, y);
      if b < |s| - 1 && !(b == 0 && s[0].upperBound.r <= 0.0) && s[b].count != BaseCount(s, b) {
        LineMonotone(Floor(s, b), Ceiling(s, b), x - BaseCount(s, b), y - BaseCount(s, b), s[b].count - BaseCount(s, b));
      }
    }
  }

  lemma OrderedRanks(p: real, q: real, total: real)
    requires p <= q && total >= 0.0
    ensures RankOf(p, total) <= RankOf(q, total)
  {
  }

  lemma RankInRange(q: real, total: real)
    requires 0.0 <= q <= 1.0 && total >= 0.0
    ensures 0.0 <= RankOf(q, total) <= total
  {
    assert 0.0 <= q * total;
    assert q * total <= 1.0 * total;
  }

  /** Histogram buckets as scraped, in any order: finite bounds and one +Inf, non-negative counts, not all zero. */
  ghost predicate Usable(buckets: seq<Bucket>) {
    && |buckets| >= 2
    && (exists i :: 0 <= i < |buckets| && buckets[i].upperBound == PosInf
                    && forall j :: 0 <= j < |buckets| && j != i ==> buckets[j].upperBound.Real?)
    && (forall i :: 0 <= i < |buckets| ==> buckets[i].count >= 0.0)
    && (exists i :: 0 <= i < |buckets| && buckets[i].count > 0.0)
  }

  lemma SortedBuckets(arrange: Arrange, bs: seq<Bucket>)
    requires IsSort(arrange) && NoNaN(bs)
    ensures var s := arrange(bs);
            && |s| == |bs|
            && multiset(s) == multiset(bs)
            && (forall i :: 0 <= i < |s| ==> s[i] in bs)
            && (forall i, j :: 0 <= i < j < |s| ==> !Less(s[j].upperBound, s[i].upperBound))
  {
    hide Less;
    ArrangedLength(arrange, bs);
    var s := arrange(bs);
    forall i | 0 <= i < |s| ensures s[i] in bs {
      assert s[i] in multiset(s);
    }
    forall i, j | 0 <= i < j < |s| ensures !Less(s[j].upperBound, s[i].upperBound) {
      assert !NaNFirst(s[j], s[i]);
    }
  }

  lemma OneInfinity(bs: seq<Bucket>, inf: Bucket)
    requires Usable(bs) && inf in bs && inf.upperBound == PosInf
    ensures multiset(bs)[inf] == 1
    ensures forall b :: b in bs && b.upperBound == PosInf ==> b == inf
  {
    var i :| 0 <= i < |bs| && bs[i].upperBound == PosInf
             && forall j :: 0 <= j < |bs| && j != i ==> bs[j].upperBound.Real?;
    assert bs == bs[..i] + [bs[i]] + bs[i + 1..];
    assert inf !in bs[..i] && inf !in bs[i + 1..];
  }

  /** Sorting and repairing makes usable buckets proper. */
  lemma UsableIsProper(arrange: Arrange, bs: seq<Bucket>)
    requires IsSort(arrange) && Usable(bs)
    ensures var s := arrange(bs);
            |s| == |bs| && s[|s| - 1].upperBound == PosInf && Proper(Repaired(s))
  {
    hide IsSort;
    hide Repaired;
    hide Cumulative;
    var s := arrange(bs);
    SortedBuckets(arrange, bs);
    InfinityLast(arrange, bs);
    RepairedCumulative(s);
    SomeCount(bs, s);
    RepairedIsRunningMax(s, 0);
    var r := Repaired(s);
    forall i | 0 <= i < |s| ensures r[i].upperBound == s[i].upperBound {
      RepairedIsRunningMax(s, i);
    }
    RepairedIsRunningMax(s, |s| - 1);
    assert s[0] in bs;
    forall i, j | 0 <= i <= j < |s| - 1 ensures r[i].upperBound.r <= r[j].upperBound.r {
      assert i < j ==> !Less(s[j].upperBound, s[i].upperBound);
    }
  }

  lemma SomeCount(bs: seq<Bucket>, s: seq<Bucket>)
    requires Usable(bs) && multiset(s) == multiset(bs)
    ensures exists j :: 0 <= j < |s| && s[j].count > 0.0
  {
    var k :| 0 <= k < |bs| && bs[k].count > 0.0;
    assert bs[k] in multiset(s);
    var j :| 0 <= j < |s| && s[j] == bs[k];
    assert s[j].count > 0.0;
  }

  lemma InfinityLast(arrange: Arrange, bs: seq<Bucket>)
    requires IsSort(arrange) && Usable(bs)
    ensures var s := arrange(bs);
            |s| == |bs| && s[|s| - 1].upperBound == PosInf && forall i :: 0 <= i < |s| - 1 ==> s[i].upperBound.Real?
  {
    hide IsSort;
    var s := arrange(bs);
    SortedBuckets(arrange, bs);
    var n := |s| - 1;
    var i :| 0 <= i < |bs| && bs[i].upperBound == PosInf;
    var inf := bs[i];
    OneInfinity(bs, inf);
    assert inf in multiset(s);
    var k :| 0 <= k < |s| && s[k] == inf;
    assert forall j :: 0 <= j < n ==> !Less(s[n].upperBound, s[j].upperBound);
    assert s[n].upperBound == PosInf;
    assert s == s[..n] + [s[n]];
    assert inf !in multiset(s[..n]);
    forall j | 0 <= j < n ensures s[j].upperBound.Real? {
      assert s[j] in s[..n];
    }
  }

  ghost function Prepared(arrange: Arrange, bs: seq<Bucket>): (s: seq<Bucket>)
    requires IsSort(arrange)
    ensures |s| == |bs|
  {
    ArrangedLength(arrange, bs);
    Repaired(arrange(bs))
  }

  lemma QuantileIsAtRank(arrange: Arrange, bs: seq<Bucket>, q: real)
    requires IsSort(arrange) && Usable(bs) && 0.0 <= q <= 1.0
    ensures var s := Prepared(arrange, bs);
            var rank := RankOf(q, s[|s| - 1].count);
            && Proper(s) && 0.0 <= rank <= s[|s| - 1].count
            && BucketQuantile(arrange, Real(q), bs) == AtRank(s, rank)
  {
    hide RankOf;
    hide AtRank;
    hide Repaired;
    hide IsSort;
    UsableIsProper(arrange, bs);
    RankInRange(q, Prepared(arrange, bs)[|bs| - 1].count);
  }

  /** The quantile is a finite number that does not decrease with q. */
  lemma QuantileMonotone(arrange: Arrange, bs: seq<Bucket>, p: real, q: real)
    requires IsSort(arrange) && Usable(bs) && 0.0 <= p <= q <= 1.0
    ensures var x, y := BucketQuantile(arrange, Real(p), bs), BucketQuantile(arrange, Real(q), bs);
            x.Real? && y.Real? && x.r <= y.r
  {
    hide AtRank;
    hide RankOf;
    hide Prepared;
    hide BucketQuantile;
    hide Usable;
    QuantileIsAtRank(arrange, bs, p);
    QuantileIsAtRank(arrange, bs, q);
    var s := Prepared(arrange, bs);
    var total := s[|s| - 1].count;
    OrderedRanks(p, q, total);
    MonotoneInRank(s, RankOf(p, total), RankOf(q, total));
  }

  /** It lies between the smaller of zero and the first bound, and the last finite bound. */
  lemma QuantileBounded(arrange: Arrange, bs: seq<Bucket>, q: real, first: real, last: real)
    requires IsSort(arrange) && Usable(bs) && 0.0 <= q <= 1.0
    requires forall i :: 0 <= i < |bs| && bs[i].upperBound.Real? ==> first <= bs[i].upperBound.r <= last
    ensures var x := BucketQuantile(arrange, Real(q), bs);
            x.Real? && x.r <= last && (0.0 <= x.r || first <= x.r)
  {
    hide AtRank;
    hide FirstReaching;
    hide RankOf;
    hide Prepared;
    hide BucketQuantile;
    QuantileIsAtRank(arrange, bs, q);
    PreparedBounds(arrange, bs, first, last);
    hide Usable;
    var s := Prepared(arrange, bs);
    var rank := RankOf(q, s[|s| - 1].count);
    WithinBucket(s, rank);
    var b := FirstReaching(s, |s| - 1, rank);
    assert Ceiling(s, b) <= last;
    assert Floor(s, b) < 0.0 ==> first <= Floor(s, b);
  }

  lemma PreparedBounds(arrange: Arrange, bs: seq<Bucket>, first: real, last: real)
    requires IsSort(arrange) && Usable(bs) && Proper(Prepared(arrange, bs))
    requires forall i :: 0 <= i < |bs| && bs[i].upperBound.Real? ==> first <= bs[i].upperBound.r <= last
    ensures var s := Prepared(arrange, bs); forall i :: 0 <= i < |s| - 1 ==> first <= s[i].upperBound.r <= last
  {
    hide Repaired;
    hide IsSort;
    SortedBuckets(arrange, bs);
    hide Usable;
    var t := arrange(bs);
    forall i | 0 <= i < |t| - 1 ensures first <= Prepared(arrange, bs)[i].upperBound.r <= last {
      RepairedIsRunningMax(t, i);
      assert t[i] in bs;
    }
  }

  /** The interpolated value divides its bucket's bounds as the rank divides its counts. */
  lemma RankRecovered(s: seq<Bucket>, rank: real)
    requires Proper(s) && 0.0 <= rank <= s[|s| - 1].count
    ensures var b, x := FirstReaching(s, |s| - 1, rank), AtRank(s, rank);
            b < |s| - 1 && !(b == 0 && s[0].upperBound.r <= 0.0) ==>
              x.Real? &&
              (x.r - Floor(s, b)) * (s[b].count - BaseCount(s, b)) == (Ceiling(s, b) - Floor(s, b)) * (rank - BaseCount(s, b))
  {
    hide AtRank;
    hide FirstReaching;
    InnerBucket(s, rank);
    var b := FirstReaching(s, |s| - 1, rank);
    if b < |s| - 1 && !(b == 0 && s[0].upperBound.r <= 0.0) && s[b].count != BaseCount(s, b) {
      LineDivides(Floor(s, b), Ceiling(s, b), rank - BaseCount(s, b), s[b].count - BaseCount(s, b));
    }
  }

  lemma LineDivides(lo: real, hi: real, num: real, den: real)
    requires den != 0.0
    ensures (OnLine(lo, hi, num, den) - lo) * den == (hi - lo) * num
  {
    var p := (hi - lo) * num;
    assert p / den * den == p;
  }

  /** With distinct bounds neither the order in which buckets are listed nor the way they are sorted matters. */
  lemma QuantileOrderFree(f: Arrange, g: Arrange, q: Float, a: seq<Bucket>, b: seq<Bucket>)
    requires IsSort(f) && IsSort(g) && multiset(a) == multiset(b) && NoNaN(a)
    requires forall x, y :: x in a && y in a && x != y ==> x.upperBound != y.upperBound
    ensures BucketQuantile(f, q, a) == BucketQuantile(g, q, b)
  {
    hide OfRepaired;
    hide Repaired;
    forall i | 0 <= i < |b| ensures !b[i].upperBound.NaN? {
      assert b[i] in multiset(a);
    }
    NaNFirstIsOrder();
    var s, t := f(a), g(b);
    forall x, y | x in s && y in s && x != y ensures NaNFirst(x, y) || NaNFirst(y, x) {
      assert x in multiset(s) && y in multiset(s);
      assert x in a && y in a;
    }
    Sorting.SortedUnique(NaNFirst, s, t);
  }

  // ---- The quantile of a list of samples ----

  const RealLess: (real, real) -> bool := (a: real, b: real) => a < b

  /** The values around rank q * (n - 1) of the sorted samples, weighted by the fraction. */
  function SampleQuantile(q: real, vals: seq<real>): Float {
    if vals == [] then NaN
    else if q < 0.0 then NegInf
    else if q > 1.0 then PosInf
    else
      RankInRange(q, (|vals| - 1) as real);
      Real(OfSorted(Sorting.StableSort(RealLess, vals), RankOf(q, (|vals| - 1) as real)))
  }

  function OfSorted(s: seq<real>, rank: real): real
    requires s != [] && 0.0 <= rank <= (|s| - 1) as real
  {
    var lower, upper := rank.Floor, CeilingOf(rank);
    var weight := rank - lower as real;
    Blended(s[lower], s[upper], weight)
  }

  function Blended(a: real, b: real, w: real): real {
    a * (1.0 - w) + b * w
  }

  function CeilingOf(x: real): (c: int)
    ensures x <= c as real < x + 1.0
  {
    -((-x).Floor)
  }

  ghost predicate Ascending(s: seq<real>) {
    forall i, j :: 0 <= i <= j < |s| ==> s[i] <= s[j]
  }

  lemma Blend(a: real, b: real, w: real)
    requires a <= b && 0.0 <= w <= 1.0
    ensures a <= Blended(a, b, w) <= b
  {
    assert Blended(a, b, w) == a + (b - a) * w;
    var d := b - a;
    assert 0.0 <= d * w;
    assert d * w <= d * 1.0;
  }

  lemma BlendMonotone(a: real, b: real, v: real, w: real)
    requires a <= b && v <= w
    ensures Blended(a, b, v) <= Blended(a, b, w)
  {
    assert (b - a) * v <= (b - a) * w;
    assert Blended(a, b, v) == a + (b - a) * v;
    assert Blended(a, b, w) == a + (b - a) * w;
  }

  /** The value lies between the two order statistics around the rank. */
  lemma SortedWithin(s: seq<real>, rank: real)
    requires s != [] && Ascending(s) && 0.0 <= rank <= (|s| - 1) as real
    ensures s[rank.Floor] <= OfSorted(s, rank) <= s[CeilingOf(rank)]
    ensures rank.Floor <= CeilingOf(rank) <= rank.Floor + 1
  {
    hide Blended;
    Blend(s[rank.Floor], s[CeilingOf(rank)], rank - rank.Floor as real);
  }

  lemma SortedMonotone(s: seq<real>, x: real, y: real)
    requires s != [] && Ascending(s) && 0.0 <= x <= y <= (|s| - 1) as real
    ensures OfSorted(s, x) <= OfSorted(s, y)
  {
    hide OfSorted;
    SortedWithin(s, x);
    SortedWithin(s, y);
    if x.Floor == y.Floor {
      SameFloor(s, x, y);
    } else {
      assert CeilingOf(x) <= y.Floor;
      assert s[CeilingOf(x)] <= s[y.Floor];
    }
  }

  lemma SameFloor(s: seq<real>, x: real, y: real)
    requires s != [] && Ascending(s) && 0.0 <= x <= y <= (|s| - 1) as real && x.Floor == y.Floor
    ensures OfSorted(s, x) <= OfSorted(s, y)
  {
    hide Blended;
    var f := x.Floor;
    if x == f as real {
      SortedWithin(s, y);
      SortedWithin(s, x);
      assert CeilingOf(x) == f;
    } else {
      assert CeilingOf(x) == f + 1 == CeilingOf(y);
      BlendMonotone(s[f], s[f + 1], x - f as real, y - f as real);
    }
  }

  lemma RealLessIsOrder()
    ensures Sorting.StrictWeakOrder(RealLess)
  {
  }

  /** quantile is nondecreasing in q and runs from the least sample, at 0, to the greatest, at 1. */
  lemma SampleQuantileMonotone(vals: seq<real>, p: real, q: real)
    requires vals != [] && 0.0 <= p <= q <= 1.0
    ensures var x, y := SampleQuantile(p, vals), SampleQuantile(q, vals); x.Real? && y.Real? && x.r <= y.r
  {
    hide OfSorted;
    hide RankOf;
    hide Sorting.StableSort;
    RealLessIsOrder();
    Sorting.StableSortSorts(RealLess, vals);
    var s, n := Sorting.StableSort(RealLess, vals), (|vals| - 1) as real;
    forall i, j | 0 <= i <= j < |s| ensures s[i] <= s[j] {
      if i < j {
        assert !RealLess(s[j], s[i]);
      }
    }
    RankInRange(p, n);
    RankInRange(q, n);
    OrderedRanks(p, q, n);
    SortedMonotone(s, RankOf(p, n), RankOf(q, n));
  }

  /** The endpoints are samples, and bound every sample. */
  lemma SampleQuantileEnds(vals: seq<real>)
    requires vals != []
    ensures var lo, hi := SampleQuantile(0.0, vals), SampleQuantile(1.0, vals);
            && lo.Real? && hi.Real? && lo.r in vals && hi.r in vals
            && forall i :: 0 <= i < |vals| ==> lo.r <= vals[i] <= hi.r
  {
    hide Sorting.StableSort;
    RealLessIsOrder();
    Sorting.StableSortSorts(RealLess, vals);
    var s, n := Sorting.StableSort(RealLess, vals), |vals| - 1;
    assert OfSorted(s, 0.0) == s[0];
    assert (n as real).Floor == n;
    assert OfSorted(s, n as real) == s[n];
    assert s[0] in multiset(s) && s[n] in multiset(s);
    assert s[0] in multiset(vals) && s[n] in multiset(vals);
    forall i | 0 <= i < |vals| ensures s[0] <= vals[i] <= s[n] {
      assert vals[i] in multiset(s);
      var j :| 0 <= j < |s| && s[j] == vals[i];
      assert j > 0 ==> !RealLess(s[j], s[0]);
      assert j < n ==> !RealLess(s[n], s[j]);
    }
  }

  method ComputeQuantile(q: real, vals: seq<real>) returns (r: Float)
    ensures r == SampleQuantile(q, vals)
  {
    hide Sorting.StableSort;
    hide Blended;
    hide RankOf;
    if |vals| == 0 {
      return NaN;
    }
    if q < 0.0 {
      return NegInf;
    }
    if q > 1.0 {
      return PosInf;
    }
    var s := Sorting.StableSort(RealLess, vals);
    var n := |s|;
    RankInRange(q, (n - 1) as real);
    var rank := RankOf(q, (n - 1) as real);
    var lower, upper := rank.Floor, CeilingOf(rank);
    var weight := rank - lower as real;
    r := Real(Blended(s[lower], s[upper], weight));
  }
}
