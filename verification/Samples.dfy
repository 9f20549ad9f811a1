/** The samples of one series: strictly ascending in time, the first value of a timestamp kept. */
module Samples {
  import opened Base

  /** A value at a millisecond timestamp; the value is the bit pattern of the float64. */
  datatype Sample = Sample(t: Int64, v: Uint64)

  ghost predicate Ascending(s: seq<Sample>) {
    forall i, j :: 0 <= i < j < |s| ==> s[i].t < s[j].t
  }

  /** sort.Search for the first index whose time is at least t. */
  function Search(s: seq<Sample>, t: int, lo: nat, hi: nat): (r: nat)
    requires lo <= hi <= |s|
    ensures lo <= r <= hi
    ensures Ascending(s) ==> (forall i :: lo <= i < r ==> s[i].t < t) && (forall i :: r <= i < hi ==> s[i].t >= t)
    decreases hi - lo
  {
    if lo == hi then lo
    else
      var mid := (lo + hi) / 2;
      if s[mid].t < t then Search(s, t, mid + 1, hi) else Search(s, t, lo, mid)
  }

  function LowerBound(s: seq<Sample>, t: int): (r: nat)
    ensures r <= |s|
    ensures Ascending(s) ==> (forall i :: 0 <= i < r ==> s[i].t < t) && (forall i :: r <= i < |s| ==> s[i].t >= t)
  {
    Search(s, t, 0, |s|)
  }

  /** Adds a sample in order; a timestamp that is already there keeps its value. */
  function Inserted(s: seq<Sample>, t: Int64, v: Uint64): seq<Sample> {
    if s == [] || t > s[|s| - 1].t then s + [Sample(t, v)]
    else if t == s[|s| - 1].t then s
    else
      var i := LowerBound(s, t);
      if i < |s| && s[i].t == t then s else s[..i] + [Sample(t, v)] + s[i..]
  }

  /** The samples at or after minT. */
  function Kept(s: seq<Sample>, minT: int): seq<Sample> {
    s[LowerBound(s, minT)..]
  }

  /** Whether no sample lies strictly between the ends of a range that is given the wrong way round. */
  predicate Sliceable(s: seq<Sample>, mint: Int64, maxt: Int64) {
    forall i :: 0 <= i < |s| ==> !(maxt < s[i].t < mint)
  }

  /** The slice between the two bounds exists exactly when no sample lies strictly between maxt and mint. */
  lemma SliceableIff(s: seq<Sample>, mint: Int64, maxt: Int64)
    requires Ascending(s)
    ensures LowerBound(s, mint) <= LowerBound(s, maxt + 1) <==> Sliceable(s, mint, maxt)
  {
    var lo, hi := LowerBound(s, mint), LowerBound(s, maxt + 1);
    if lo > hi {
      assert s[hi].t >= maxt + 1 && s[hi].t < mint;
    }
    if i :| 0 <= i < |s| && maxt < s[i].t < mint {
      assert hi <= i < lo;
    }
  }

  /** The samples with mint <= t <= maxt. */
  function InRange(s: seq<Sample>, mint: Int64, maxt: Int64): seq<Sample>
    requires Ascending(s) && Sliceable(s, mint, maxt)
  {
    SliceableIff(s, mint, maxt);
    s[LowerBound(s, mint)..LowerBound(s, maxt + 1)]
  }

  lemma BoundMonotone(s: seq<Sample>, a: int, b: int)
    requires Ascending(s) && a <= b
    ensures LowerBound(s, a) <= LowerBound(s, b)
  {
    var hi := LowerBound(s, b);
    assert hi < |s| ==> s[hi].t >= b;
  }

  // ---- Insertion is a first-write-wins map ----

  ghost function AsMap(s: seq<Sample>): map<Int64, Uint64> {
    if s == [] then map[] else AsMap(s[..|s| - 1])[s[|s| - 1].t := s[|s| - 1].v]
  }

  ghost predicate HasTime(s: seq<Sample>, t: Int64) {
    exists i :: 0 <= i < |s| && s[i].t == t
  }

  lemma {:induction false} AsMapKeys(s: seq<Sample>, t: Int64)
    ensures t in AsMap(s) <==> HasTime(s, t)
  {
    if s != [] {
      var front := s[..|s| - 1];
      AsMapKeys(front, t);
      if HasTime(s, t) && s[|s| - 1].t != t {
        var i :| 0 <= i < |s| && s[i].t == t;
        assert front[i].t == t;
      }
      if HasTime(front, t) {
        var i :| 0 <= i < |front| && front[i].t == t;
        assert s[i].t == t;
      }
    }
  }

  lemma {:induction false} AsMapAt(s: seq<Sample>, i: nat)
    requires Ascending(s) && i < |s|
    ensures s[i].t in AsMap(s) && AsMap(s)[s[i].t] == s[i].v
  {
    if i < |s| - 1 {
      AsMapAt(s[..|s| - 1], i);
    }
  }

  lemma AsMapFront(s: seq<Sample>)
    requires Ascending(s) && s != []
    ensures AsMap(s[..|s| - 1]) == AsMap(s) - {s[|s| - 1].t}
  {
    AsMapKeys(s[..|s| - 1], s[|s| - 1].t);
  }

  lemma LastTime(a: seq<Sample>, b: seq<Sample>)
    requires Ascending(a) && a != [] && b != [] && AsMap(a) == AsMap(b)
    ensures b[|b| - 1].t <= a[|a| - 1].t
  {
    AsMapKeys(b, b[|b| - 1].t);
    AsMapKeys(a, b[|b| - 1].t);
  }

  /** Ascending lists that denote the same map are equal. */
  lemma {:induction false} AscendingUnique(a: seq<Sample>, b: seq<Sample>)
    requires Ascending(a) && Ascending(b) && AsMap(a) == AsMap(b)
    ensures a == b
  {
    hide AsMap;
    if a == [] || b == [] {
      if a != [] {
        AsMapAt(a, 0);
        AsMapKeys(b, a[0].t);
      }
      if b != [] {
        AsMapAt(b, 0);
        AsMapKeys(a, b[0].t);
      }
    } else {
      var m, n := |a| - 1, |b| - 1;
      LastTime(a, b);
      LastTime(b, a);
      AsMapAt(a, m);
      AsMapAt(b, n);
      assert a[m] == b[n];
      AsMapFront(a);
      AsMapFront(b);
      AscendingUnique(a[..m], b[..n]);
      assert a == a[..m] + [a[m]] && b == b[..n] + [b[n]];
    }
  }

  lemma {:induction false} AsMapConcat(a: seq<Sample>, b: seq<Sample>)
    ensures AsMap(a + b) == AsMap(a) + AsMap(b)
  {
    if b == [] {
      assert a + b == a;
    } else {
      AsMapConcat(a, b[..|b| - 1]);
      assert (a + b)[..|a + b| - 1] == a + b[..|b| - 1];
    }
  }

  lemma InsertedAscending(s: seq<Sample>, t: Int64, v: Uint64)
    requires Ascending(s)
    ensures Ascending(Inserted(s, t, v))
  {
    var i, r := LowerBound(s, t), Inserted(s, t, v);
    hide LowerBound;
    if s != [] && t < s[|s| - 1].t && !(i < |s| && s[i].t == t) {
      assert r == s[..i] + [Sample(t, v)] + s[i..];
      assert forall k :: 0 <= k < |r| ==> r[k] == if k < i then s[k] else if k == i then Sample(t, v) else s[k - 1];
    }
  }

  lemma InsertedInMiddle(s: seq<Sample>, i: nat, t: Int64, v: Uint64)
    requires i <= |s|
    requires forall k :: i <= k < |s| ==> s[k].t != t
    ensures AsMap(s[..i] + [Sample(t, v)] + s[i..]) == AsMap(s)[t := v]
  {
    hide AsMap;
    var x := [Sample(t, v)];
    AsMapConcat(s[..i] + x, s[i..]);
    AsMapConcat(s[..i], x);
    AsMapConcat(s[..i], s[i..]);
    assert s == s[..i] + s[i..];
    AsMapKeys(s[i..], t);
    AsMapSingle(t, v);
  }

  lemma AsMapSingle(t: Int64, v: Uint64)
    ensures AsMap([Sample(t, v)]) == map[t := v]
  {
    assert [Sample(t, v)][..0] == [];
  }

  /** Inserting keeps the value of a timestamp that is there and adds one that is not. */
  lemma InsertedIsFirstWins(s: seq<Sample>, t: Int64, v: Uint64)
    requires Ascending(s)
    ensures AsMap(Inserted(s, t, v)) == if t in AsMap(s) then AsMap(s) else AsMap(s)[t := v]
  {
    hide AsMap;
    AsMapKeys(s, t);
    var i := LowerBound(s, t);
    if s == [] || t > s[|s| - 1].t {
      assert s + [Sample(t, v)] == s[..|s|] + [Sample(t, v)] + s[|s|..];
      InsertedInMiddle(s, |s|, t, v);
    } else if t == s[|s| - 1].t || (i < |s| && s[i].t == t) {
    } else {
      InsertedInMiddle(s, i, t, v);
    }
  }

  function InsertedAll(s: seq<Sample>, xs: seq<Sample>): seq<Sample>
    decreases xs
  {
    if xs == [] then s else InsertedAll(Inserted(s, xs[0].t, xs[0].v), xs[1..])
  }

  /** The reference: for each timestamp, the first value written. */
  ghost function FirstWins(m: map<Int64, Uint64>, xs: seq<Sample>): map<Int64, Uint64>
    decreases xs
  {
    if xs == [] then m
    else FirstWins(if xs[0].t in m then m else m[xs[0].t := xs[0].v], xs[1..])
  }

  /** After any insertions, in any time order, the list is ascending and is the first-write-wins map. */
  lemma {:induction false} InsertedAllIsFirstWins(s: seq<Sample>, xs: seq<Sample>)
    requires Ascending(s)
    ensures Ascending(InsertedAll(s, xs))
    ensures AsMap(InsertedAll(s, xs)) == FirstWins(AsMap(s), xs)
    decreases xs
  {
    if xs != [] {
      InsertedAscending(s, xs[0].t, xs[0].v);
      InsertedIsFirstWins(s, xs[0].t, xs[0].v);
      InsertedAllIsFirstWins(Inserted(s, xs[0].t, xs[0].v), xs[1..]);
    }
  }

  // ---- Truncation and range selection ----

  lemma AscendingSlice(s: seq<Sample>, lo: nat, hi: nat)
    requires Ascending(s) && lo <= hi <= |s|
    ensures Ascending(s[lo..hi])
  {
  }

  /** Range selection keeps exactly the samples of the closed interval. */
  lemma InRangeExact(s: seq<Sample>, mint: Int64, maxt: Int64, x: Sample)
    requires Ascending(s) && Sliceable(s, mint, maxt)
    ensures Ascending(InRange(s, mint, maxt))
    ensures x in InRange(s, mint, maxt) <==> x in s && mint <= x.t <= maxt
  {
    SliceableIff(s, mint, maxt);
    var lo, hi := LowerBound(s, mint), LowerBound(s, maxt + 1);
    AscendingSlice(s, lo, hi);
    if x in s && mint <= x.t <= maxt {
      var i :| 0 <= i < |s| && s[i] == x;
      assert s[lo..hi][i - lo] == x;
    }
  }

  /** Dropping the samples before m cannot be seen by a query that starts at or after m. */
  lemma KeptInvisible(s: seq<Sample>, m: int, mint: Int64, maxt: Int64)
    requires Ascending(s) && Sliceable(s, mint, maxt) && m <= mint
    ensures Ascending(Kept(s, m)) && Sliceable(Kept(s, m), mint, maxt)
    ensures InRange(Kept(s, m), mint, maxt) == InRange(s, mint, maxt)
  {
    hide Ascending;
    hide LowerBound;
    AscendingSlice(s, LowerBound(s, m), |s|);
    assert Kept(s, m) == s[LowerBound(s, m)..|s|];
    if mint <= maxt + 1 {
      SliceableIff(s, mint, maxt);
      BoundOfKept(s, m, mint);
      BoundOfKept(s, m, maxt + 1);
    } else {
      ReversedIsEmpty(s, mint, maxt);
      ReversedIsEmpty(Kept(s, m), mint, maxt);
    }
  }

  /** Nothing is in a range that is given the wrong way round. */
  lemma ReversedIsEmpty(s: seq<Sample>, mint: Int64, maxt: Int64)
    requires Ascending(s) && Sliceable(s, mint, maxt) && mint > maxt
    ensures InRange(s, mint, maxt) == []
  {
    var r := InRange(s, mint, maxt);
    if r != [] {
      InRangeExact(s, mint, maxt, r[0]);
    }
  }

  lemma BoundOfKept(s: seq<Sample>, m: int, t: int)
    requires Ascending(s) && m <= t
    ensures LowerBound(s, m) + LowerBound(Kept(s, m), t) == LowerBound(s, t)
  {
    BoundMonotone(s, m, t);
    var cut, k := LowerBound(s, m), Kept(s, m);
    assert k == s[cut..|s|];
    AscendingSlice(s, cut, |s|);
    BoundUnique(k, t, LowerBound(s, t) - cut);
  }

  lemma BoundUnique(s: seq<Sample>, t: int, r: int)
    requires Ascending(s) && 0 <= r <= |s|
    requires (forall i :: 0 <= i < r ==> s[i].t < t) && (forall i :: r <= i < |s| ==> s[i].t >= t)
    ensures LowerBound(s, t) == r
  {
    var q := LowerBound(s, t);
    assert q < |s| ==> s[q].t >= t;
    assert r < |s| ==> s[r].t >= t;
  }
}
