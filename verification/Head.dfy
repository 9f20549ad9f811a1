/** The in-memory head: series, hash chains and postings, updated in place. */
module Head {
  import opened Base
  import opened Labels
  import opened Samples
  import opened HeadSpec
  import opened HeadQuery
  import P = Postings
  import opened ByteSort
  import Sorting

  class Store {
    const hash: Hash
    const maxSeries: int
    var series: map<Uint64, Series>
    var hashes: Chains
    var postings: P.Index
    var lastRef: nat

    constructor (hash: Hash, maxSeries: int)
      ensures this.hash == hash && this.maxSeries == maxSeries
      ensures State() == EMPTY_HEAD && Valid()
    {
      this.hash, this.maxSeries := hash, maxSeries;
      series, hashes, postings, lastRef := map[], map[], map[], 0;
    }

    ghost function State(): HeadState
      reads this
    {
      HeadState(series, hashes, postings, lastRef)
    }

    /** The three tables describe the same set of series. */
    ghost predicate Valid()
      reads this
    {
      Consistent(hash, State())
    }

    /** Capped creation, the path of live appends. */
    method Acquire(ls: LabelList) returns (ref: Uint64, created: bool, ok: bool)
      requires Valid() && Canonical(ls) && lastRef + 1 < TWO_64
      modifies this
      ensures Valid()
      ensures HeadSpec.Acquired(State(), ref, created, ok) == HeadSpec.Acquire(hash, old(State()), ls, maxSeries)
    {
      ref, created, ok := GetOrCreateLimited(ls, maxSeries);
    }

    /** The loop over one hash chain. */
    method LookInChain(chain: seq<Uint64>, ls: LabelList) returns (found: Option<Uint64>)
      ensures found == FindInChain(series, chain, ls)
    {
      for i := 0 to |chain|
        invariant FindInChain(series, chain, ls) == FindInChain(series, chain[i..], ls)
      {
        if chain[i] in series && series[chain[i]].labels == ls {
          return Some(chain[i]);
        }
        assert chain[i..][1..] == chain[i + 1..];
      }
      return None;
    }

    /** Finds or creates a series; limit 0 means no limit. */
    method GetOrCreateLimited(ls: LabelList, limit: int) returns (ref: Uint64, created: bool, ok: bool)
      requires Valid() && Canonical(ls) && lastRef + 1 < TWO_64
      modifies this
      ensures Valid()
      ensures HeadSpec.Acquired(State(), ref, created, ok) == HeadSpec.Acquire(hash, old(State()), ls, limit)
    {
      hide Consistent;
      hide Canonical;
      hide HeadSpec.Insert;
      hide FindInChain;
      AcquireConsistent(hash, HeadState(series, hashes, postings, lastRef), ls, limit);
      var h := hash(ls);
      var found := LookInChain(if h in hashes then hashes[h] else [], ls);
      if found.Some? {
        return found.value, false, true;
      }
      if limit > 0 && |series| >= limit {
        return 0, false, false;
      }
      lastRef := lastRef + 1;
      ref := lastRef;
      InsertLocked(ref, ls, h);
      return ref, true, true;
    }

    /** Replay of a series record: idempotent by ref. */
    method AddSeriesWithRef(ref: Uint64, ls: LabelList)
      requires Valid() && Canonical(ls)
      modifies this
      ensures Valid() && State() == AddWithRef(hash, old(State()), ref, ls)
    {
      hide Consistent;
      AddWithRefConsistent(hash, State(), ref, ls);
      if ref in series {
        return;
      }
      InsertLocked(ref, ls, hash(ls));
      if ref > lastRef {
        lastRef := ref;
      }
    }

    method InsertLocked(ref: Uint64, ls: LabelList, h: Uint64)
      requires h == hash(ls)
      modifies this`series, this`hashes, this`postings
      ensures State() == HeadSpec.Insert(hash, old(State()), ref, ls)
    {
      series := series[ref := HeadSpec.Series(ls, [])];
      hashes := hashes[h := (if h in hashes then hashes[h] else []) + [ref]];
      ghost var before := postings;
      for i := 0 to |ls|
        invariant series == old(series)[ref := HeadSpec.Series(ls, [])]
        invariant hashes == AddToChain(old(hashes), h, ref)
        invariant P.AddAll(before, ls, ref) == P.AddAll(postings, ls[i..], ref)
      {
        var vals := if ls[i].name in postings then postings[ls[i].name] else map[];
        var refs := if ls[i].value in vals then vals[ls[i].value] else {};
        assert ls[i..][1..] == ls[i + 1..];
        ghost var next := P.Add(postings, ls[i], ref);
        postings := postings[ls[i].name := vals[ls[i].value := refs + {ref}]];
        assert postings == next;
      }
    }

    /** Adds a sample in time order; an unknown ref is ignored. */
    method AppendSample(ref: Uint64, t: Int64, v: Uint64)
      requires Valid()
      modifies this`series
      ensures Valid() && State() == HeadSpec.AppendSample(old(State()), ref, t, v)
    {
      hide Consistent;
      AppendSampleConsistent(hash, State(), ref, t, v);
      if ref !in series {
        return;
      }
      var ms := series[ref];
      var n := |ms.samples|;
      if n == 0 || t > ms.samples[n - 1].t {
        series := series[ref := ms.(samples := ms.samples + [Sample(t, v)])];
        return;
      }
      if t == ms.samples[n - 1].t {
        assert series == series[ref := ms];
        return;
      }
      var i := LowerBound(ms.samples, t);
      if i < n && ms.samples[i].t == t {
        assert series == series[ref := ms];
        return;
      }
      series := series[ref := ms.(samples := ms.samples[..i] + [Sample(t, v)] + ms.samples[i..])];
    }

    method RemoveSeriesLocked(ref: Uint64)
      requires Valid() && ref in series
      modifies this`series, this`hashes, this`postings
      ensures Valid() && State() == HeadSpec.Remove(hash, old(State()), ref)
    {
      hide Consistent;
      RemoveConsistent(hash, State(), ref);
      var ms := series[ref];
      series := series - {ref};
      RemoveFromHashChain(hash(ms.labels), ref);
      RemoveFromPostings(ms.labels, ref);
    }

    method RemoveFromHashChain(h: Uint64, ref: Uint64)
      modifies this`hashes
      ensures hashes == RemoveFromChain(old(hashes), h, ref)
    {
      var chain := if h in hashes then hashes[h] else [];
      var left := chain;
      for i := 0 to |chain|
        invariant left == chain
        invariant DropFirst(chain, ref) == chain[..i] + DropFirst(chain[i..], ref)
      {
        assert chain[i..][1..] == chain[i + 1..];
        if chain[i] == ref {
          left := chain[..i] + chain[i + 1..];
          break;
        }
        assert chain[..i] + ([chain[i]] + DropFirst(chain[i + 1..], ref)) == chain[..i + 1] + DropFirst(chain[i + 1..], ref);
      }
      assert left == DropFirst(chain, ref);
      if left == [] {
        hashes := hashes - {h};
      } else {
        hashes := hashes[h := left];
      }
    }

    method RemoveFromPostings(ls: LabelList, ref: Uint64)
      modifies this`postings
      ensures postings == P.RemoveAll(old(postings), ls, ref)
    {
      ghost var before := postings;
      for i := 0 to |ls|
        invariant P.RemoveAll(before, ls, ref) == P.RemoveAll(postings, ls[i..], ref)
      {
        assert ls[i..][1..] == ls[i + 1..];
        ghost var next := P.Remove(postings, ls[i], ref);
        if ls[i].name in postings {
          var vals := postings[ls[i].name];
          if ls[i].value in vals {
            var refs := vals[ls[i].value] - {ref};
            vals := if refs == {} then vals - {ls[i].value} else vals[ls[i].value := refs];
          }
          if vals == map[] {
            postings := postings - {ls[i].name};
          } else {
            postings := postings[ls[i].name := vals];
          }
        }
        assert postings == next;
      }
    }

    /** Removes the series at ref if it holds no samples. */
    method ReclaimIfEmpty(ref: Uint64)
      requires Valid()
      modifies this`series, this`hashes, this`postings
      ensures Valid() && State() == Reclaim(hash, old(State()), ref)
    {
      if ref in series && series[ref].samples == [] {
        RemoveSeriesLocked(ref);
      }
    }

    /** Drops samples before minT and the series left empty, visiting the series in no particular order. */
    method Truncate(minT: Int64) returns (ghost order: seq<Uint64>)
      requires Valid()
      modifies this`series, this`hashes, this`postings
      ensures NoDuplicates(order) && forall r :: r in order <==> r in old(series)
      ensures Valid() && State() == TruncateEach(hash, old(State()), order, minT)
    {
      hide Consistent;
      order := [];
      ghost var before := State();
      var todo := series.Keys;
      while todo != {}
        invariant Valid()
        invariant todo <= before.series.Keys
        invariant NoDuplicates(order) && forall r :: r in order <==> r in before.series && r !in todo
        invariant State() == TruncateEach(hash, before, order, minT)
      {
        var ref :| ref in todo;
        todo := todo - {ref};
        TruncateEachExact(hash, before, order, minT);
        ghost var longer := order + [ref];
        assert longer[..|order|] == order;
        TruncateOneExact(hash, State(), ref, minT);
        order := longer;
        TruncateSeries(ref, minT);
      }
    }

    method TruncateSeries(ref: Uint64, minT: Int64)
      requires Valid() && ref in series
      modifies this`series, this`hashes, this`postings
      ensures Valid() && State() == TruncateOne(hash, old(State()), ref, minT)
    {
      hide Consistent;
      var ms := series[ref];
      var i := LowerBound(ms.samples, minT);
      ConsistentSamples(hash, State(), ref);
      KeptAscending(ms.samples, minT);
      SamplesConsistent(hash, State(), ref, Kept(ms.samples, minT));
      if i > 0 {
        ms := ms.(samples := ms.samples[i..]);
      }
      assert ms.samples == Kept(series[ref].samples, minT);
      series := series[ref := ms];
      if ms.samples == [] {
        RemoveSeriesLocked(ref);
      }
    }

    // ---- Reading ----

    /** The refs to look at, in no particular order: the smallest usable postings list, or all series. */
    method CandidatesLocked(ms: seq<Matcher>) returns (out: seq<Uint64>)
      requires Valid()
      ensures NoDuplicates(out) && forall r :: r in out <==> r in Candidates(State(), ms)
    {
      hide Consistent;
      var best: set<Uint64> := {};
      var haveBest := false;
      for i := 0 to |ms|
        invariant Best(postings, ms[..i]) == if haveBest then Some(best) else None
      {
        assert ms[..i + 1][..i] == ms[..i];
        var m := ms[i];
        if m.typ == MatchEqual && m.value != [] {
          var refs := P.Refs(postings, m.name, m.value);
          if !haveBest || |refs| < |best| {
            best, haveBest := refs, true;
          }
        }
      }
      assert ms[..|ms|] == ms;
      var todo := if haveBest then set r | r in best && r in series else series.Keys;
      ghost var all := todo;
      assert all == Candidates(State(), ms);
      out := [];
      while todo != {}
        invariant todo <= all
        invariant NoDuplicates(out) && forall r :: r in out <==> r in all && r !in todo
      {
        var ref :| ref in todo;
        todo := todo - {ref};
        out := out + [ref];
      }
    }

    /** The candidates that satisfy every matcher: exactly the series a full scan would find. */
    method MatchingRefs(ms: seq<Matcher>) returns (out: seq<Uint64>)
      requires Valid()
      ensures NoDuplicates(out) && forall r :: r in out <==> r in Scan(State(), ms)
    {
      hide Consistent;
      hide Candidates;
      hide MatchesAll;
      var candidates := CandidatesLocked(ms);
      CandidatesRefineScan(hash, State(), ms);
      out := [];
      for i := 0 to |candidates|
        invariant NoDuplicates(out)
        invariant forall r :: r in out <==> r in candidates[..i] && MatchesAll(series[r].labels, ms)
      {
        var r := candidates[i];
        assert r in Candidates(State(), ms);
        assert candidates[..i + 1] == candidates[..i] + [r];
        if MatchesAll(series[r].labels, ms) {
          out := out + [r];
        }
      }
      assert candidates[..|candidates|] == candidates;
    }

    /**
     * One result for each matching series with a sample in the range, sorted by label text; `refs` lists those
     * series. Slicing a range that is given the wrong way round can fail, and the query with it: then there is none.
     */
    method Query(mint: Int64, maxt: Int64, ms: seq<Matcher>) returns (result: Option<seq<SeriesResult>>, ghost refs: seq<Uint64>)
      requires Valid()
      ensures result.Some? <==> Answerable(State(), mint, maxt, ms)
      ensures result.Some? ==> IsAnswer(hash, State(), mint, maxt, ms, result.value, refs)
    {
      hide Consistent;
      hide Text;
      hide LexLess;
      hide InRange;
      hide Scan;
      hide Answerable;
      hide IsAnswer;
      var matching := MatchingRefs(ms);
      var out: seq<SeriesResult> := [];
      refs := [];
      for k := 0 to |matching|
        invariant NoDuplicates(refs)
        invariant AllSliceable(State(), matching[..k], mint, maxt) && AllSliceable(State(), refs, mint, maxt)
        invariant forall r :: r in refs <==> r in matching[..k] && InSlice(r, mint, maxt)
        invariant out == ResultsOf(hash, State(), refs, mint, maxt)
      {
        var r := matching[k];
        assert matching[..k + 1] == matching[..k] + [r];
        assert r !in matching[..k];
        ScanSlices(mint, maxt, ms, r);
        if LowerBound(series[r].samples, mint) > LowerBound(series[r].samples, maxt + 1) {
          return None, [];
        }
        var s := InRange(series[r].samples, mint, maxt);
        if s != [] {
          out, refs := out + [SeriesResult(series[r].labels, s)], refs + [r];
        }
      }
      assert matching[..|matching|] == matching;
      SlicedIsSelected(mint, maxt, ms, matching, refs);
      var sorted := Sorting.StableSort(ResultLess, out);
      ResultLessIsOrder();
      Sorting.StableSortSorts(ResultLess, out);
      assert IsAnswer(hash, State(), mint, maxt, ms, sorted, refs) by {
        SortedAnswers(mint, maxt, ms, out, sorted, refs);
      }
      result := Some(sorted);
    }

    /** Whether a series has samples in the range, which can be sliced. */
    ghost predicate InSlice(r: Uint64, mint: Int64, maxt: Int64)
      reads this
    {
      && r in series && Ascending(series[r].samples) && Sliceable(series[r].samples, mint, maxt)
      && InRange(series[r].samples, mint, maxt) != []
    }

    lemma SlicedIsSelected(mint: Int64, maxt: Int64, ms: seq<Matcher>, matching: seq<Uint64>, refs: seq<Uint64>)
      requires Valid() && forall r :: r in matching <==> r in Scan(State(), ms)
      requires AllSliceable(State(), matching, mint, maxt)
      requires forall r :: r in refs <==> r in matching && InSlice(r, mint, maxt)
      ensures Answerable(State(), mint, maxt, ms)
      ensures forall r :: r in refs <==> r in Selected(hash, State(), mint, maxt, ms)
    {
      forall r | r in Scan(State(), ms) ensures Sliceable(series[r].samples, mint, maxt) {
        assert r in matching;
      }
      forall r | r in Scan(State(), ms) ensures Ascending(series[r].samples) {
        ConsistentSamples(hash, State(), r);
      }
    }

    lemma SortedAnswers(mint: Int64, maxt: Int64, ms: seq<Matcher>, out: seq<SeriesResult>, sorted: seq<SeriesResult>, refs: seq<Uint64>)
      requires Valid() && Answerable(State(), mint, maxt, ms)
      requires NoDuplicates(refs) && forall r :: r in refs <==> r in Selected(hash, State(), mint, maxt, ms)
      requires AllSliceable(State(), refs, mint, maxt) && out == ResultsOf(hash, State(), refs, mint, maxt)
      requires multiset(sorted) == multiset(out) && Sorting.SortedBy(ResultLess, sorted)
      ensures IsAnswer(hash, State(), mint, maxt, ms, sorted, refs)
    {
    }

    lemma ScanSlices(mint: Int64, maxt: Int64, ms: seq<Matcher>, r: Uint64)
      requires Valid() && r in Scan(State(), ms)
      ensures r in series && Ascending(series[r].samples)
      ensures Sliceable(series[r].samples, mint, maxt) <==>
              LowerBound(series[r].samples, mint) <= LowerBound(series[r].samples, maxt + 1)
      ensures !Sliceable(series[r].samples, mint, maxt) ==> !Answerable(State(), mint, maxt, ms)
    {
      ConsistentSamples(hash, State(), r);
      SliceableIff(series[r].samples, mint, maxt);
    }

    /** The distinct label names of the matching series, ascending. */
    method LabelNames(ms: seq<Matcher>) returns (out: seq<Bytes>)
      requires Valid()
      ensures forall i, j :: 0 <= i < j < |out| ==> LexLess(out[i], out[j])
      ensures forall n :: n in out <==> exists r :: r in Scan(State(), ms) && exists l :: l in series[r].labels && l.name == n
    {
      hide Consistent;
      hide Scan;
      hide LexLess;
      var matching := MatchingRefs(ms);
      ScanInSeries(ms);
      var names: set<Bytes> := {};
      for k := 0 to |matching|
        invariant forall n :: n in names <==> exists r :: r in matching[..k] && r in series && exists l :: l in series[r].labels && l.name == n
      {
        assert matching[..k + 1] == matching[..k] + [matching[k]];
        names := names + set l | l in series[matching[k]].labels :: l.name;
      }
      assert matching[..|matching|] == matching;
      out := SortedKeys(names);
    }

    lemma ScanInSeries(ms: seq<Matcher>)
      ensures forall r :: r in Scan(State(), ms) ==> r in series
    {
    }

    /** The distinct non-empty values of one label over the matching series, ascending. */
    method LabelValues(name: Bytes, ms: seq<Matcher>) returns (out: seq<Bytes>)
      requires Valid()
      ensures forall i, j :: 0 <= i < j < |out| ==> LexLess(out[i], out[j])
      ensures forall v :: v in out <==> v != [] && exists r :: r in Scan(State(), ms) && Get(series[r].labels, name) == v
    {
      hide Consistent;
      hide Scan;
      hide LexLess;
      hide Get;
      var matching := MatchingRefs(ms);
      ScanInSeries(ms);
      var values: set<Bytes> := {};
      for k := 0 to |matching|
        invariant forall v :: v in values <==> v != [] && exists r :: r in matching[..k] && r in series && Get(series[r].labels, name) == v
      {
        assert matching[..k + 1] == matching[..k] + [matching[k]];
        var v := Get(series[matching[k]].labels, name);
        if v != [] {
          values := values + {v};
        }
      }
      assert matching[..|matching|] == matching;
      out := SortedKeys(values);
    }
  }
}
