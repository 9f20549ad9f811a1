/** What matchers select, told from the labels of the series. */
module MatcherLaws {
  import opened Base
  import opened Labels
  import opened LabelText
  import opened Samples
  import opened HeadSpec
  import opened HeadBatch
  import opened HeadQuery
  import Sorting

  /** The label set has the pair, or the value is empty and the set has no other value under the name. */
  ghost predicate Holds(ls: LabelList, name: Bytes, value: Bytes) {
    HasPair(ls, name, value) || (value == [] && forall l :: l in ls && l.name == name ==> l.value == [])
  }

  lemma HoldsIff(ls: LabelList, name: Bytes, value: Bytes)
    requires Canonical(ls)
    ensures Holds(ls, name, value) <==> Get(ls, name) == value
  {
    GetFindsPair(ls, name);
    if HasPair(ls, name, value) {
      PairDeterminesGet(ls, name, value);
    }
    if l :| l in ls && l.name == name && l.value != [] {
      assert HasPair(ls, name, l.value);
      PairDeterminesGet(ls, name, l.value);
    }
  }

  lemma ScanMore(hs: HeadState, ms: seq<Matcher>, m: Matcher, r: Uint64)
    ensures r in Scan(hs, ms + [m]) <==> r in Scan(hs, ms) && Matches(m, Get(hs.series[r].labels, m.name))
  {
    var more := ms + [m];
    if r in Scan(hs, more) {
      assert more[|ms|] == m;
      assert forall i :: 0 <= i < |ms| ==> more[i] == ms[i];
    }
  }

  /** name="value" selects, of what the other matchers select, the series that have that value, or none when it is empty. */
  lemma EqualSelects(hash: Hash, hs: HeadState, ms: seq<Matcher>, name: Bytes, value: Bytes, re: Bytes -> bool, r: Uint64)
    requires Consistent(hash, hs)
    ensures r in Scan(hs, ms + [Matcher(MatchEqual, name, value, re)]) <==>
            r in Scan(hs, ms) && Holds(hs.series[r].labels, name, value)
  {
    ScanMore(hs, ms, Matcher(MatchEqual, name, value, re), r);
    hide MatchesAll;
    if r in Scan(hs, ms) {
      HoldsIff(hs.series[r].labels, name, value);
    }
  }

  /** name=~"re" selects those whose value, the empty one when there is none, matches. */
  lemma RegexpSelects(hash: Hash, hs: HeadState, ms: seq<Matcher>, name: Bytes, value: Bytes, re: Bytes -> bool, r: Uint64)
    requires Consistent(hash, hs)
    ensures r in Scan(hs, ms + [Matcher(MatchRegexp, name, value, re)]) <==>
            r in Scan(hs, ms) && exists x :: Holds(hs.series[r].labels, name, x) && re(x)
  {
    ScanMore(hs, ms, Matcher(MatchRegexp, name, value, re), r);
    hide MatchesAll;
    if r in Scan(hs, ms) {
      var got := Get(hs.series[r].labels, name);
      HoldsIff(hs.series[r].labels, name, got);
      if x :| Holds(hs.series[r].labels, name, x) && re(x) {
        HoldsIff(hs.series[r].labels, name, x);
      }
    }
  }

  /** The matcher that says the opposite. */
  function Opposite(m: Matcher): Matcher {
    m.(typ := match m.typ
              case MatchEqual => MatchNotEqual
              case MatchNotEqual => MatchEqual
              case MatchRegexp => MatchNotRegexp
              case MatchNotRegexp => MatchRegexp)
  }

  /** Without matchers every series is selected; a matcher and its opposite split what the others select. */
  lemma OppositeSplits(hs: HeadState, ms: seq<Matcher>, m: Matcher)
    ensures Scan(hs, []) == hs.series.Keys
    ensures Scan(hs, ms + [m]) !! Scan(hs, ms + [Opposite(m)])
    ensures Scan(hs, ms + [m]) + Scan(hs, ms + [Opposite(m)]) == Scan(hs, ms)
  {
    assert Scan(hs, []) == hs.series.Keys;
    hide Scan;
    forall r
      ensures r in Scan(hs, ms + [m]) <==> r in Scan(hs, ms) && r !in Scan(hs, ms + [Opposite(m)])
      ensures r in Scan(hs, ms + [Opposite(m)]) ==> r in Scan(hs, ms)
    {
      ScanMore(hs, ms, m, r);
      ScanMore(hs, ms, Opposite(m), r);
    }
  }

  lemma SelectedSplits(hash: Hash, hs: HeadState, mint: Int64, maxt: Int64, ms: seq<Matcher>, m: Matcher)
    requires Consistent(hash, hs) && Answerable(hs, mint, maxt, ms)
    ensures Answerable(hs, mint, maxt, ms + [m]) && Answerable(hs, mint, maxt, ms + [Opposite(m)])
    ensures var (with, against) := (Selected(hash, hs, mint, maxt, ms + [m]), Selected(hash, hs, mint, maxt, ms + [Opposite(m)]));
            with !! against && with + against == Selected(hash, hs, mint, maxt, ms)
  {
    hide MatchesAll;
    hide Sliceable;
    hide InRange;
    OppositeSplits(hs, ms, m);
    assert Scan(hs, ms + [m]) <= Scan(hs, ms) && Scan(hs, ms + [Opposite(m)]) <= Scan(hs, ms);
    hide Scan;
  }

  /** What a query returns with a matcher and with its opposite is together what it returns without either. */
  lemma AnswersSplit(hash: Hash, hs: HeadState, mint: Int64, maxt: Int64, ms: seq<Matcher>, m: Matcher,
                     a: seq<SeriesResult>, ra: seq<Uint64>, b: seq<SeriesResult>, rb: seq<Uint64>,
                     all: seq<SeriesResult>, rall: seq<Uint64>)
    requires Consistent(hash, hs) && Answerable(hs, mint, maxt, ms)
    requires Answerable(hs, mint, maxt, ms + [m]) && IsAnswer(hash, hs, mint, maxt, ms + [m], a, ra)
    requires Answerable(hs, mint, maxt, ms + [Opposite(m)]) && IsAnswer(hash, hs, mint, maxt, ms + [Opposite(m)], b, rb)
    requires IsAnswer(hash, hs, mint, maxt, ms, all, rall)
    ensures multiset(a) + multiset(b) == multiset(all)
  {
    SelectedSplits(hash, hs, mint, maxt, ms, m);
    SelectedInSeries(hash, hs, mint, maxt, ms);
    hide Answerable;
    hide Consistent;
    hide Selected;
    SplitRefs(Selected(hash, hs, mint, maxt, ms + [m]), Selected(hash, hs, mint, maxt, ms + [Opposite(m)]), ra, rb, rall);
    hide NoDuplicates;
    ResultsTogether(hash, hs, mint, maxt, ra, rb);
    AnswerRearranged(hash, hs, mint, maxt, ra + rb, rall);
  }

  lemma SplitRefs(a: set<Uint64>, b: set<Uint64>, ra: seq<Uint64>, rb: seq<Uint64>, rall: seq<Uint64>)
    requires a !! b && NoDuplicates(ra) && NoDuplicates(rb)
    requires (forall r :: r in ra <==> r in a) && (forall r :: r in rb <==> r in b) && (forall r :: r in rall <==> r in a + b)
    ensures NoDuplicates(ra + rb) && forall r :: r in ra + rb <==> r in rall
  {
    forall r ensures r in ra + rb <==> r in rall {
      assert r in ra + rb <==> r in ra || r in rb;
      assert r in a + b <==> r in a || r in b;
    }
    forall i, j | 0 <= i < j < |ra + rb| ensures (ra + rb)[i] != (ra + rb)[j] {
      if i < |ra| <= j {
        assert ra[i] in a && rb[j - |ra|] in b;
      }
    }
  }

  lemma ResultsTogether(hash: Hash, hs: HeadState, mint: Int64, maxt: Int64, ra: seq<Uint64>, rb: seq<Uint64>)
    requires Consistent(hash, hs) && AllSliceable(hs, ra, mint, maxt) && AllSliceable(hs, rb, mint, maxt)
    ensures AllSliceable(hs, ra + rb, mint, maxt)
    ensures ResultsOf(hash, hs, ra + rb, mint, maxt) == ResultsOf(hash, hs, ra, mint, maxt) + ResultsOf(hash, hs, rb, mint, maxt)
  {
    hide InRange;
    hide Consistent;
  }

  /** Every result of a query with name="value" has that value, its samples are those of the series in the range. */
  lemma AnswerHolds(hash: Hash, hs: HeadState, mint: Int64, maxt: Int64, ms: seq<Matcher>, name: Bytes, value: Bytes,
                    re: Bytes -> bool, out: seq<SeriesResult>, refs: seq<Uint64>, x: SeriesResult)
    requires Consistent(hash, hs)
    requires var more := ms + [Matcher(MatchEqual, name, value, re)];
             Answerable(hs, mint, maxt, more) && IsAnswer(hash, hs, mint, maxt, more, out, refs)
    requires x in out
    ensures Holds(x.labels, name, value) && x.samples != []
    ensures exists r :: r in hs.series && hs.series[r].labels == x.labels
                        && forall s :: s in x.samples <==> s in hs.series[r].samples && mint <= s.t <= maxt
  {
    var more := ms + [Matcher(MatchEqual, name, value, re)];
    hide Scan;
    hide InRange;
    hide Holds;
    SelectedInSeries(hash, hs, mint, maxt, more);
    assert x in multiset(out);
    var r := ResultFrom(hash, hs, mint, maxt, refs, x);
    assert r in Selected(hash, hs, mint, maxt, more);
    EqualSelects(hash, hs, ms, name, value, re, r);
    assert r in hs.series;
    ConsistentSamples(hash, hs, r);
    forall s | true ensures s in x.samples <==> s in hs.series[r].samples && mint <= s.t <= maxt {
      InRangeExact(hs.series[r].samples, mint, maxt, s);
    }
  }

  /** Every selected series with a sample in the range is among the results. */
  lemma AnswerComplete(hash: Hash, hs: HeadState, mint: Int64, maxt: Int64, ms: seq<Matcher>, out: seq<SeriesResult>,
                       refs: seq<Uint64>, r: Uint64, s: Sample)
    requires Consistent(hash, hs) && Answerable(hs, mint, maxt, ms) && IsAnswer(hash, hs, mint, maxt, ms, out, refs)
    requires r in Scan(hs, ms) && s in hs.series[r].samples && mint <= s.t <= maxt
    ensures exists x :: x in out && x.labels == hs.series[r].labels && s in x.samples
  {
    hide MatchesAll;
    hide InRange;
    ConsistentSamples(hash, hs, r);
    InRangeExact(hs.series[r].samples, mint, maxt, s);
    assert r in Selected(hash, hs, mint, maxt, ms) && r in refs;
    var i :| 0 <= i < |refs| && refs[i] == r;
    var x := ResultsOf(hash, hs, refs, mint, maxt)[i];
    assert x in multiset(out);
  }
}
