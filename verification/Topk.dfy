/** topk and bottomk: the k highest or lowest samples of each group. */
module Topk {
  import opened Base
  import opened Labels
  import opened Vectors
  import Sorting

  const Higher: (VectorSample, VectorSample) -> bool := (a: VectorSample, b: VectorSample) => a.v > b.v
  const Lower: (VectorSample, VectorSample) -> bool := (a: VectorSample, b: VectorSample) => a.v < b.v

  /** The order in which a group's samples are ranked. */
  function Ranking(top: bool): (VectorSample, VectorSample) -> bool {
    if top then Higher else Lower
  }

  function GroupText(s: VectorSample, names: set<Bytes>, without: bool): Bytes {
    Text(GroupLabels(s.metric, names, without))
  }

  /** The samples of one group, in input order. */
  function Group(v: Vector, names: set<Bytes>, without: bool, text: Bytes): Vector {
    if v == [] then []
    else
      var front, s := Group(v[..|v| - 1], names, without, text), v[|v| - 1];
      if GroupText(s, names, without) == text then front + [s] else front
  }

  /** The groups in order of first appearance. */
  function Texts(v: Vector, names: set<Bytes>, without: bool): seq<Bytes> {
    if v == [] then []
    else
      var front, text := Texts(v[..|v| - 1], names, without), GroupText(v[|v| - 1], names, without);
      if text in front then front else front + [text]
  }

  function Clamped(k: int, n: nat): (r: nat)
    ensures r <= n
  {
    if k < 0 then 0 else if k > n then n else k
  }

  /** The first k of a group in rank order; ties keep their input order. */
  function Best(top: bool, group: Vector, k: int): (r: Vector)
    ensures |r| == Clamped(k, |group|)
  {
    Sorting.StableSort(Ranking(top), group)[..Clamped(k, |group|)]
  }

  function Stamped(v: Vector, ts: Int64): (r: Vector)
    ensures |r| == |v| && forall i :: 0 <= i < |v| ==> r[i] == v[i].(t := ts)
  {
    seq(|v|, i requires 0 <= i < |v| => v[i].(t := ts))
  }

  function Selected(top: bool, v: Vector, texts: seq<Bytes>, names: set<Bytes>, without: bool, ts: Int64, k: int): Vector {
    if texts == [] then []
    else
      var text := texts[|texts| - 1];
      Selected(top, v, texts[..|texts| - 1], names, without, ts, k) +
      Stamped(Best(top, Group(v, names, without, text), k), ts)
  }

  /** topk and bottomk as a function: the groups in order, the best k of each. */
  function TopkOf(top: bool, v: Vector, names: set<Bytes>, without: bool, ts: Int64, k: int): Vector {
    Selected(top, v, Texts(v, names, without), names, without, ts, k)
  }

  ghost predicate Gathered(order: seq<Bytes>, groups: map<Bytes, Vector>, v: Vector, names: set<Bytes>, without: bool) {
    && order == Texts(v, names, without)
    && (forall text :: text in order <==> text in groups)
    && (forall text :: text in groups ==> groups[text] == Group(v, names, without, text))
  }

  lemma {:induction false} NoTextNoGroup(v: Vector, names: set<Bytes>, without: bool, text: Bytes)
    ensures text in Texts(v, names, without) <==> Group(v, names, without, text) != []
  {
    hide GroupText;
    if v != [] {
      NoTextNoGroup(v[..|v| - 1], names, without, text);
    }
  }

  method AggregateTopk(top: bool, v: Vector, names: set<Bytes>, without: bool, ts: Int64, k: int) returns (out: Vector)
    ensures out == TopkOf(top, v, names, without, ts, k)
  {
    hide GroupText;
    hide Best;
    hide Sorting.StableSort;
    var order: seq<Bytes>, groups: map<Bytes, Vector> := [], map[];
    for i := 0 to |v|
      invariant Gathered(order, groups, v[..i], names, without)
    {
      assert v[..i + 1][..i] == v[..i];
      var key := GroupText(v[i], names, without);
      NoTextNoGroup(v[..i], names, without, key);
      if key !in groups {
        order := order + [key];
        groups := groups[key := []];
      }
      groups := groups[key := groups[key] + [v[i]]];
    }
    assert v[..|v|] == v;
    out := [];
    for i := 0 to |order|
      invariant out == Selected(top, v, order[..i], names, without, ts, k)
    {
      assert order[..i + 1][..i] == order[..i];
      var best := BestOf(top, groups[order[i]], k);
      out := out + Stamped(best, ts);
    }
    assert order[..|order|] == order;
  }

  /** Sorts the members in place and takes the first k. */
  method BestOf(top: bool, group: Vector, k: int) returns (best: Vector)
    ensures best == Best(top, group, k)
  {
    var members := Sorting.StableSort(Ranking(top), group);
    var n := k;
    if n > |members| {
      n := |members|;
    }
    if n < 0 {
      n := 0;
    }
    best := members[..n];
  }

  lemma RankingIsOrder(top: bool)
    ensures Sorting.StrictWeakOrder(Ranking(top))
  {
  }

  /** The best k and the others are the whole group, and no other outranks one of the best. */
  lemma BestDominates(top: bool, group: Vector, k: int) returns (others: Vector)
    ensures multiset(Best(top, group, k)) + multiset(others) == multiset(group)
    ensures |Best(top, group, k)| == Clamped(k, |group|)
    ensures forall b, o :: b in Best(top, group, k) && o in others ==> !Ranking(top)(o, b)
    ensures Sorting.SortedBy(Ranking(top), Best(top, group, k))
  {
    hide Sorting.StableSort;
    RankingIsOrder(top);
    Sorting.StableSortSorts(Ranking(top), group);
    var sorted, n := Sorting.StableSort(Ranking(top), group), Clamped(k, |group|);
    others := sorted[n..];
    assert sorted == sorted[..n] + others;
    forall b, o | b in sorted[..n] && o in others ensures !Ranking(top)(o, b) {
      var i :| 0 <= i < n && sorted[i] == b;
      var j :| 0 <= j < |others| && others[j] == o;
      assert sorted[n + j] == o;
    }
  }

  /** Asking for more than there is keeps every sample of the group. */
  lemma BestKeepsAll(top: bool, group: Vector, k: int)
    requires k >= |group|
    ensures multiset(Best(top, group, k)) == multiset(group)
  {
    hide Sorting.StableSort;
    RankingIsOrder(top);
    Sorting.StableSortSorts(Ranking(top), group);
    var sorted := Sorting.StableSort(Ranking(top), group);
    assert sorted[..|sorted|] == sorted;
  }

  /** Asking for fewer selects a prefix: a smaller k never brings in a new sample. */
  lemma BestIsMonotone(top: bool, group: Vector, j: int, k: int)
    requires j <= k
    ensures Best(top, group, j) <= Best(top, group, k)
  {
    hide Sorting.StableSort;
  }

  /** Taking the best j of the best k is taking the best j, when j is at most k. */
  lemma BestOfBest(top: bool, group: Vector, j: int, k: int)
    requires j <= k
    ensures Best(top, Best(top, group, k), j) == Best(top, group, j)
  {
    hide Sorting.StableSort;
    RankingIsOrder(top);
    Sorting.StableSortSorts(Ranking(top), group);
    var sorted, n := Sorting.StableSort(Ranking(top), group), Clamped(k, |group|);
    Sorting.StableSortFixed(Ranking(top), sorted[..n]);
  }

  /** Every sample is in the group of its own text and in no other. */
  lemma {:induction false} GroupMember(v: Vector, names: set<Bytes>, without: bool, text: Bytes, s: VectorSample)
    ensures s in Group(v, names, without, text) <==> s in v && GroupText(s, names, without) == text
  {
    hide GroupText;
    if v != [] {
      GroupMember(v[..|v| - 1], names, without, text, s);
      assert v == v[..|v| - 1] + [v[|v| - 1]];
    }
  }

  /** No result is invented: each is an input sample, labels and value unchanged, stamped with the time. */
  lemma {:induction false} SelectedFromInput(top: bool, v: Vector, texts: seq<Bytes>, names: set<Bytes>, without: bool,
                                             ts: Int64, k: int, s: VectorSample)
    requires s in Selected(top, v, texts, names, without, ts, k)
    ensures exists x :: x in v && s == x.(t := ts)
  {
    hide GroupText;
    hide Sorting.StableSort;
    var n := |texts| - 1;
    if s in Selected(top, v, texts[..n], names, without, ts, k) {
      SelectedFromInput(top, v, texts[..n], names, without, ts, k, s);
    } else {
      var group := Group(v, names, without, texts[n]);
      var best := Best(top, group, k);
      var i :| 0 <= i < |best| && Stamped(best, ts)[i] == s;
      var others := BestDominates(top, group, k);
      assert best[i] in multiset(best) + multiset(others);
      GroupMember(v, names, without, texts[n], best[i]);
      assert best[i] in v;
    }
  }
}
