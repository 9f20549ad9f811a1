/** Selecting series: the postings-based candidates refine a scan of every series. */
module HeadQuery {
  import opened Base
  import opened Labels
  import opened Samples
  import opened HeadSpec
  import opened HeadBatch
  import opened WalCodec
  import opened WalLog
  import P = Postings
  import Sorting
  import opened LabelText

  datatype MatchType = MatchEqual | MatchNotEqual | MatchRegexp | MatchNotRegexp

  /** The compiled regular expression is an arbitrary predicate on label values. */
  datatype Matcher = Matcher(typ: MatchType, name: Bytes, value: Bytes, re: Bytes -> bool)

  predicate Matches(m: Matcher, s: Bytes) {
    match m.typ
    case MatchEqual => s == m.value
    case MatchNotEqual => s != m.value
    case MatchRegexp => m.re(s)
    case MatchNotRegexp => !m.re(s)
  }

  predicate MatchesAll(ls: LabelList, ms: seq<Matcher>) {
    forall i :: 0 <= i < |ms| ==> Matches(ms[i], Get(ls, ms[i].name))
  }

  /** An equality matcher whose postings list can narrow the scan. */
  predicate Usable(m: Matcher) {
    m.typ == MatchEqual && m.value != []
  }

  /** The smallest postings list among the usable matchers, the earliest of equals. */
  function Best(p: P.Index, ms: seq<Matcher>): Option<set<Uint64>> {
    if ms == [] then None
    else
      var best, m := Best(p, ms[..|ms| - 1]), ms[|ms| - 1];
      if Usable(m) && (best.None? || |P.Refs(p, m.name, m.value)| < |best.value|)
      then Some(P.Refs(p, m.name, m.value))
      else best
  }

  /** The refs the index leaves to be looked at. */
  function Candidates(hs: HeadState, ms: seq<Matcher>): set<Uint64> {
    match Best(hs.postings, ms)
    case None => hs.series.Keys
    case Some(refs) => set r | r in refs && r in hs.series
  }

  /** The reference: every series whose labels satisfy all matchers. */
  function Scan(hs: HeadState, ms: seq<Matcher>): set<Uint64> {
    set r | r in hs.series && MatchesAll(hs.series[r].labels, ms)
  }

  lemma UsableCovers(hash: Hash, hs: HeadState, m: Matcher, r: Uint64)
    requires Consistent(hash, hs) && Usable(m)
    requires r in hs.series && Matches(m, Get(hs.series[r].labels, m.name))
    ensures r in P.Refs(hs.postings, m.name, m.value)
  {
    GetFindsPair(hs.series[r].labels, m.name);
    assert P.Posted(hs.postings, m.name, m.value, r);
  }

  lemma {:induction false} BestCovers(hash: Hash, hs: HeadState, ms: seq<Matcher>, r: Uint64)
    requires Consistent(hash, hs)
    requires r in hs.series && MatchesAll(hs.series[r].labels, ms)
    ensures Best(hs.postings, ms).Some? ==> r in Best(hs.postings, ms).value
  {
    hide Consistent;
    if ms != [] {
      var front, m := ms[..|ms| - 1], ms[|ms| - 1];
      assert forall i :: 0 <= i < |front| ==> front[i] == ms[i];
      BestCovers(hash, hs, front, r);
      if Usable(m) {
        UsableCovers(hash, hs, m, r);
      }
    }
  }

  /** Filtering the candidates gives the same series as filtering all of them. */
  lemma CandidatesRefineScan(hash: Hash, hs: HeadState, ms: seq<Matcher>)
    requires Consistent(hash, hs)
    ensures Candidates(hs, ms) <= hs.series.Keys
    ensures (set r | r in Candidates(hs, ms) && r in hs.series && MatchesAll(hs.series[r].labels, ms)) == Scan(hs, ms)
  {
    hide Consistent;
    hide MatchesAll;
    forall r | r in Scan(hs, ms) ensures r in Candidates(hs, ms) {
      BestCovers(hash, hs, ms, r);
    }
  }

  /** Whether a query slices the samples of every matching series; it fails on the first that it cannot slice. */
  ghost predicate Answerable(hs: HeadState, mint: Int64, maxt: Int64, ms: seq<Matcher>) {
    forall r :: r in Scan(hs, ms) ==> Sliceable(hs.series[r].samples, mint, maxt)
  }

  /** The series a query returns: matching, with a sample in the range. */
  ghost function Selected(hash: Hash, hs: HeadState, mint: Int64, maxt: Int64, ms: seq<Matcher>): set<Uint64>
    requires Consistent(hash, hs) && Answerable(hs, mint, maxt, ms)
  {
    set r | r in Scan(hs, ms) && InRange(hs.series[r].samples, mint, maxt) != []
  }

  datatype SeriesResult = SeriesResult(labels: LabelList, samples: seq<Sample>)

  const ResultLess: (SeriesResult, SeriesResult) -> bool :=
    (a: SeriesResult, b: SeriesResult) => LexLess(Text(a.labels), Text(b.labels))

  ghost predicate AllSliceable(hs: HeadState, refs: seq<Uint64>, mint: Int64, maxt: Int64) {
    forall r :: r in refs ==> r in hs.series && Sliceable(hs.series[r].samples, mint, maxt)
  }

  /** What a query reports for each of some series. */
  ghost function ResultsOf(hash: Hash, hs: HeadState, refs: seq<Uint64>, mint: Int64, maxt: Int64): (out: seq<SeriesResult>)
    requires Consistent(hash, hs) && AllSliceable(hs, refs, mint, maxt)
    ensures |out| == |refs|
    ensures forall i :: 0 <= i < |refs| ==>
                          out[i] == SeriesResult(hs.series[refs[i]].labels, InRange(hs.series[refs[i]].samples, mint, maxt))
  {
    seq(|refs|, i requires 0 <= i < |refs| =>
      SeriesResult(hs.series[refs[i]].labels, InRange(hs.series[refs[i]].samples, mint, maxt)))
  }

  /** `out` lists one result for each series that a scan selects, sorted by label text. */
  ghost predicate IsAnswer(hash: Hash, hs: HeadState, mint: Int64, maxt: Int64, ms: seq<Matcher>, out: seq<SeriesResult>, refs: seq<Uint64>)
    requires Consistent(hash, hs) && Answerable(hs, mint, maxt, ms)
  {
    && NoDuplicates(refs)
    && (forall r :: r in refs <==> r in Selected(hash, hs, mint, maxt, ms))
    && multiset(out) == multiset(ResultsOf(hash, hs, refs, mint, maxt))
    && Sorting.SortedBy(ResultLess, out)
  }

  /** The label sets that their texts tell apart. */
  ghost predicate TextsTellApart(hs: HeadState) {
    forall r :: r in hs.series ==> NamesPlain(hs.series[r].labels) && !EmptyMetric(hs.series[r].labels)
  }

  /** With distinct label sets that texts tell apart the answer is one definite list: index and scan cannot differ even in order. */
  lemma AnswerUnique(hash: Hash, hs: HeadState, mint: Int64, maxt: Int64, ms: seq<Matcher>,
                     a: seq<SeriesResult>, ra: seq<Uint64>, b: seq<SeriesResult>, rb: seq<Uint64>)
    requires Consistent(hash, hs) && Distinct(hs) && TextsTellApart(hs) && Answerable(hs, mint, maxt, ms)
    requires IsAnswer(hash, hs, mint, maxt, ms, a, ra) && IsAnswer(hash, hs, mint, maxt, ms, b, rb)
    ensures a == b
  {
    hide LexLess;
    hide Text;
    hide NamesPlain;
    hide InRange;
    SelectedInSeries(hash, hs, mint, maxt, ms);
    hide Selected;
    hide Answerable;
    AnswerRearranged(hash, hs, mint, maxt, ra, rb);
    forall x, y | x in a && y in a && x != y ensures ResultLess(x, y) || ResultLess(y, x) {
      assert x in multiset(a) && y in multiset(a);
      var p := ResultFrom(hash, hs, mint, maxt, ra, x);
      var q := ResultFrom(hash, hs, mint, maxt, ra, y);
      ConsistentLabels(hash, hs, p);
      ConsistentLabels(hash, hs, q);
      TextInjective(x.labels, y.labels);
      LexTotal(Text(x.labels), Text(y.labels));
    }
    ResultLessIsOrder();
    Sorting.SortedUnique(ResultLess, a, b);
  }

  lemma ConsistentLabels(hash: Hash, hs: HeadState, r: Uint64)
    requires Consistent(hash, hs) && r in hs.series
    ensures Canonical(hs.series[r].labels)
  {
  }

  lemma AnswerRearranged(hash: Hash, hs: HeadState, mint: Int64, maxt: Int64, ra: seq<Uint64>, rb: seq<Uint64>)
    requires Consistent(hash, hs) && AllSliceable(hs, ra, mint, maxt) && AllSliceable(hs, rb, mint, maxt)
    requires NoDuplicates(ra) && NoDuplicates(rb) && (forall r :: r in ra <==> r in rb)
    ensures multiset(ResultsOf(hash, hs, ra, mint, maxt)) == multiset(ResultsOf(hash, hs, rb, mint, maxt))
  {
    hide InRange;
    hide Consistent;
    forall r | r in hs.series ensures Ascending(hs.series[r].samples) {
      ConsistentSamples(hash, hs, r);
    }
    var f := r => if r in hs.series && Ascending(hs.series[r].samples) && Sliceable(hs.series[r].samples, mint, maxt)
      then SeriesResult(hs.series[r].labels, InRange(hs.series[r].samples, mint, maxt)) else SeriesResult([], []);
    Sorting.SameSetRearranged(ra, rb);
    Sorting.MappedRearranged(f, ra, rb);
    assert ResultsOf(hash, hs, ra, mint, maxt) == Sorting.Mapped(f, ra);
    assert ResultsOf(hash, hs, rb, mint, maxt) == Sorting.Mapped(f, rb);
  }

  lemma SelectedInSeries(hash: Hash, hs: HeadState, mint: Int64, maxt: Int64, ms: seq<Matcher>)
    requires Consistent(hash, hs) && Answerable(hs, mint, maxt, ms)
    ensures Selected(hash, hs, mint, maxt, ms) <= hs.series.Keys
    ensures forall refs: seq<Uint64> :: (forall r :: r in refs ==> r in Selected(hash, hs, mint, maxt, ms)) ==>
                                          AllSliceable(hs, refs, mint, maxt)
  {
  }

  lemma ResultFrom(hash: Hash, hs: HeadState, mint: Int64, maxt: Int64, refs: seq<Uint64>, x: SeriesResult) returns (r: Uint64)
    requires Consistent(hash, hs) && AllSliceable(hs, refs, mint, maxt)
    requires x in multiset(ResultsOf(hash, hs, refs, mint, maxt))
    ensures r in refs && x == SeriesResult(hs.series[r].labels, InRange(hs.series[r].samples, mint, maxt))
  {
    hide Consistent;
    var out := ResultsOf(hash, hs, refs, mint, maxt);
    assert x in out;
    var i :| 0 <= i < |out| && out[i] == x;
    r := refs[i];
  }

  lemma ResultLessIsOrder()
    ensures Sorting.StrictWeakOrder(ResultLess)
  {
    hide LexLess;
    hide Text;
    forall x, y, z
      ensures ResultLess(x, y) ==> !ResultLess(y, x)
      ensures !ResultLess(y, x) && !ResultLess(z, y) ==> !ResultLess(z, x)
    {
      LexOrder(Text(x.labels), Text(y.labels), Text(z.labels));
    }
  }

  /** Truncating before the queried range does not change what a query selects. */
  lemma TruncateInvisible(hash: Hash, hs: HeadState, order: seq<Uint64>, m: Int64, mint: Int64, maxt: Int64, ms: seq<Matcher>)
    requires Consistent(hash, hs) && NoDuplicates(order) && (forall r :: r in order <==> r in hs.series)
    requires m <= mint && Answerable(hs, mint, maxt, ms)
    ensures var t := TruncateEach(hash, hs, order, m);
            && Consistent(hash, t) && Answerable(t, mint, maxt, ms)
            && Selected(hash, t, mint, maxt, ms) == Selected(hash, hs, mint, maxt, ms)
            && forall r :: r in Selected(hash, hs, mint, maxt, ms) ==>
                             && t.series[r].labels == hs.series[r].labels
                             && InRange(t.series[r].samples, mint, maxt) == InRange(hs.series[r].samples, mint, maxt)
  {
    var t := TruncateEach(hash, hs, order, m);
    TruncateAllExact(hash, hs, order, m);
    TruncatedAnswers(hash, hs, t, m, mint, maxt, ms);
    TruncatedSelects(hash, hs, t, m, mint, maxt, ms);
  }

  lemma TruncatedAnswers(hash: Hash, hs: HeadState, t: HeadState, m: Int64, mint: Int64, maxt: Int64, ms: seq<Matcher>)
    requires Consistent(hash, hs) && t.series == Truncated(hs.series, m)
    requires m <= mint && Answerable(hs, mint, maxt, ms)
    ensures Answerable(t, mint, maxt, ms)
  {
    hide MatchesAll;
    forall r | r in Scan(t, ms) ensures Sliceable(t.series[r].samples, mint, maxt) {
      assert r in Scan(hs, ms);
      ConsistentSamples(hash, hs, r);
      KeptInvisible(hs.series[r].samples, m, mint, maxt);
    }
  }

  lemma TruncatedSelects(hash: Hash, hs: HeadState, t: HeadState, m: Int64, mint: Int64, maxt: Int64, ms: seq<Matcher>)
    requires Consistent(hash, hs) && Consistent(hash, t) && t.series == Truncated(hs.series, m)
    requires m <= mint && Answerable(hs, mint, maxt, ms) && Answerable(t, mint, maxt, ms)
    ensures Selected(hash, t, mint, maxt, ms) == Selected(hash, hs, mint, maxt, ms)
    ensures forall r :: r in Selected(hash, hs, mint, maxt, ms) ==>
                          && t.series[r].labels == hs.series[r].labels
                          && InRange(t.series[r].samples, mint, maxt) == InRange(hs.series[r].samples, mint, maxt)
  {
    hide MatchesAll;
    hide InRange;
    hide Kept;
    hide Sliceable;
    hide Consistent;
    forall r | r in Scan(hs, ms)
      ensures Ascending(hs.series[r].samples) && Ascending(Kept(hs.series[r].samples, m))
      ensures Sliceable(Kept(hs.series[r].samples, m), mint, maxt)
      ensures InRange(Kept(hs.series[r].samples, m), mint, maxt) == InRange(hs.series[r].samples, mint, maxt)
      ensures Kept(hs.series[r].samples, m) == [] ==> InRange(hs.series[r].samples, mint, maxt) == []
    {
      ConsistentSamples(hash, hs, r);
      KeptInvisible(hs.series[r].samples, m, mint, maxt);
      InRangeOfEmpty(Kept(hs.series[r].samples, m), mint, maxt);
    }
    forall r | r in t.series ensures Ascending(t.series[r].samples) {
      ConsistentSamples(hash, t, r);
    }
    assert Selected(hash, t, mint, maxt, ms) <= Selected(hash, hs, mint, maxt, ms);
    assert Selected(hash, hs, mint, maxt, ms) <= Selected(hash, t, mint, maxt, ms);
  }

  lemma InRangeOfEmpty(s: seq<Sample>, mint: Int64, maxt: Int64)
    requires Ascending(s) && Sliceable(s, mint, maxt)
    ensures s == [] ==> InRange(s, mint, maxt) == []
  {
  }

  // ---- Every reachable head ----

  datatype Event =
    | Create(labels: LabelList, limit: int)
    | Put(ref: Uint64, t: Int64, v: Uint64)
    | Replay(op: Op)
    | Truncate(order: seq<Uint64>, minT: Int64)
    | Release(ref: Uint64)

  ghost predicate Enabled(hs: HeadState, e: Event) {
    match e
    case Create(ls, _) => Canonical(ls) && hs.lastRef + 1 < TWO_64
    case Put(_, _, _) => true
    case Replay(op) => OpWellFormed(op)
    case Truncate(order, _) => NoDuplicates(order) && forall r :: r in order <==> r in hs.series
    case Release(_) => true
  }

  function After(hash: Hash, hs: HeadState, e: Event): HeadState {
    match e
    case Create(ls, limit) => if hs.lastRef + 1 < TWO_64 then Acquire(hash, hs, ls, limit).head else hs
    case Put(ref, t, v) => HeadSpec.AppendSample(hs, ref, t, v)
    case Replay(op) => ApplyOp(hash, hs, op)
    case Truncate(order, minT) => TruncateEach(hash, hs, order, minT)
    case Release(ref) => Reclaim(hash, hs, ref)
  }

  function Run(hash: Hash, events: seq<Event>): HeadState {
    if events == [] then EMPTY_HEAD else After(hash, Run(hash, events[..|events| - 1]), events[|events| - 1])
  }

  ghost predicate Possible(hash: Hash, events: seq<Event>) {
    events == [] || (Possible(hash, events[..|events| - 1]) && Enabled(Run(hash, events[..|events| - 1]), events[|events| - 1]))
  }

  lemma EventConsistent(hash: Hash, hs: HeadState, e: Event)
    requires Consistent(hash, hs) && Enabled(hs, e)
    ensures Consistent(hash, After(hash, hs, e))
  {
    hide Consistent;
    hide Acquire;
    match e {
      case Create(ls, limit) => AcquireConsistent(hash, hs, ls, limit);
      case Put(ref, t, v) => AppendSampleConsistent(hash, hs, ref, t, v);
      case Replay(op) =>
        match op {
          case AddSeries(ref, ls) => AddWithRefConsistent(hash, hs, ref, ls);
          case AddSamples(ss) => AppendAllConsistent(hash, hs, ss);
        }
      case Truncate(order, minT) => TruncateAllExact(hash, hs, order, minT);
      case Release(ref) =>
        if ref in hs.series {
          RemoveConsistent(hash, hs, ref);
        }
    }
  }

  /** In every reachable head, series map, hash chains and postings describe the same set of series. */
  lemma {:induction false} ReachableConsistent(hash: Hash, events: seq<Event>)
    requires Possible(hash, events)
    ensures Consistent(hash, Run(hash, events))
  {
    hide After;
    hide Enabled;
    if events == [] {
    } else {
      ReachableConsistent(hash, events[..|events| - 1]);
      EventConsistent(hash, Run(hash, events[..|events| - 1]), events[|events| - 1]);
    }
  }

  /** In every reachable head, the index answers like a scan. */
  lemma ReachableIndexRefinesScan(hash: Hash, events: seq<Event>, ms: seq<Matcher>)
    requires Possible(hash, events)
    ensures var hs := Run(hash, events);
            (set r | r in Candidates(hs, ms) && r in hs.series && MatchesAll(hs.series[r].labels, ms)) == Scan(hs, ms)
  {
    ReachableConsistent(hash, events);
    CandidatesRefineScan(hash, Run(hash, events), ms);
  }
}
