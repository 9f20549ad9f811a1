/** The head as a value: its three tables, what each operation does to them, and what keeps them consistent. */
module HeadSpec {
  import opened Base
  import opened Labels
  import opened Samples
  import P = Postings

  /** The label hash is uninterpreted: collisions are allowed everywhere. */
  type Hash = LabelList -> Uint64

  datatype Series = Series(labels: LabelList, samples: seq<Sample>)

  type Chains = map<Uint64, seq<Uint64>>

  datatype HeadState = HeadState(
    series: map<Uint64, Series>,
    hashes: Chains,
    postings: P.Index,
    lastRef: nat)

  const EMPTY_HEAD: HeadState := HeadState(map[], map[], map[], 0)

  // ---- Hash chains ----

  function AddToChain(c: Chains, h: Uint64, ref: Uint64): Chains {
    c[h := (if h in c then c[h] else []) + [ref]]
  }

  /** The chain without the first occurrence of ref. */
  function DropFirst(chain: seq<Uint64>, ref: Uint64): seq<Uint64> {
    if chain == [] then []
    else if chain[0] == ref then chain[1..]
    else [chain[0]] + DropFirst(chain[1..], ref)
  }

  function RemoveFromChain(c: Chains, h: Uint64, ref: Uint64): Chains {
    var left := DropFirst(if h in c then c[h] else [], ref);
    if left == [] then c - {h} else c[h := left]
  }

  ghost predicate InChain(c: Chains, h: Uint64, ref: Uint64) {
    h in c && ref in c[h]
  }

  ghost predicate NoDuplicates(chain: seq<Uint64>) {
    forall i, j :: 0 <= i < j < |chain| ==> chain[i] != chain[j]
  }

  ghost predicate ChainsWellFormed(c: Chains) {
    forall h :: h in c ==> c[h] != [] && NoDuplicates(c[h])
  }

  // ---- Operations ----

  function Insert(hash: Hash, hs: HeadState, ref: Uint64, ls: LabelList): HeadState {
    hs.(series := hs.series[ref := Series(ls, [])],
        hashes := AddToChain(hs.hashes, hash(ls), ref),
        postings := P.AddAll(hs.postings, ls, ref))
  }

  function Remove(hash: Hash, hs: HeadState, ref: Uint64): HeadState
    requires ref in hs.series
  {
    var ls := hs.series[ref].labels;
    hs.(series := hs.series - {ref},
        hashes := RemoveFromChain(hs.hashes, hash(ls), ref),
        postings := P.RemoveAll(hs.postings, ls, ref))
  }

  /** The first series of a chain with the given labels. */
  function FindInChain(series: map<Uint64, Series>, chain: seq<Uint64>, ls: LabelList): Option<Uint64> {
    if chain == [] then None
    else if chain[0] in series && series[chain[0]].labels == ls then Some(chain[0])
    else FindInChain(series, chain[1..], ls)
  }

  function Find(hash: Hash, hs: HeadState, ls: LabelList): Option<Uint64> {
    FindInChain(hs.series, if hash(ls) in hs.hashes then hs.hashes[hash(ls)] else [], ls)
  }

  datatype Acquired = Acquired(head: HeadState, ref: Uint64, created: bool, ok: bool)

  /** Finds or creates the series of a label set; a positive limit caps the number of series. */
  function Acquire(hash: Hash, hs: HeadState, ls: LabelList, limit: int): Acquired
    requires hs.lastRef + 1 < TWO_64
  {
    match Find(hash, hs, ls)
    case Some(ref) => Acquired(hs, ref, false, true)
    case None =>
      if limit > 0 && |hs.series| >= limit then Acquired(hs, 0, false, false)
      else
        var ref := hs.lastRef + 1;
        Acquired(Insert(hash, hs.(lastRef := ref), ref, ls), ref, true, true)
  }

  /** Replay of a series record; a ref that is known is left alone. */
  function AddWithRef(hash: Hash, hs: HeadState, ref: Uint64, ls: LabelList): HeadState {
    if ref in hs.series then hs
    else Insert(hash, hs, ref, ls).(lastRef := if ref > hs.lastRef then ref else hs.lastRef)
  }

  function AppendSample(hs: HeadState, ref: Uint64, t: Int64, v: Uint64): HeadState {
    if ref !in hs.series then hs
    else hs.(series := hs.series[ref := hs.series[ref].(samples := Inserted(hs.series[ref].samples, t, v))])
  }

  function Reclaim(hash: Hash, hs: HeadState, ref: Uint64): HeadState {
    if ref in hs.series && hs.series[ref].samples == [] then Remove(hash, hs, ref) else hs
  }

  /** Drops the old samples of one series, and the series if none are left. */
  function TruncateOne(hash: Hash, hs: HeadState, ref: Uint64, minT: Int64): HeadState {
    if ref !in hs.series then hs
    else
      var kept := Kept(hs.series[ref].samples, minT);
      var next := hs.(series := hs.series[ref := hs.series[ref].(samples := kept)]);
      if kept == [] then Remove(hash, next, ref) else next
  }

  /** One pass over the series, in the order given. */
  function TruncateEach(hash: Hash, hs: HeadState, order: seq<Uint64>, minT: Int64): HeadState {
    if order == [] then hs else TruncateOne(hash, TruncateEach(hash, hs, order[..|order| - 1], minT), order[|order| - 1], minT)
  }

  // ---- Consistency: the three tables describe the same set of series ----

  ghost predicate ChainsMatch(hash: Hash, hs: HeadState) {
    forall h, r :: InChain(hs.hashes, h, r) <==> r in hs.series && hash(hs.series[r].labels) == h
  }

  ghost predicate PostingsMatch(hs: HeadState) {
    forall n, v, r :: P.Posted(hs.postings, n, v, r) <==> r in hs.series && HasPair(hs.series[r].labels, n, v)
  }

  ghost predicate SeriesWellFormed(hs: HeadState) {
    forall r :: r in hs.series ==>
                  Canonical(hs.series[r].labels) && Ascending(hs.series[r].samples) && r <= hs.lastRef
  }

  ghost predicate Consistent(hash: Hash, hs: HeadState) {
    && ChainsWellFormed(hs.hashes)
    && P.NoEmpty(hs.postings)
    && ChainsMatch(hash, hs)
    && PostingsMatch(hs)
    && SeriesWellFormed(hs)
  }

  /** No two series carry the same labels. */
  ghost predicate Distinct(hs: HeadState) {
    forall r, q :: r in hs.series && q in hs.series && r != q ==> hs.series[r].labels != hs.series[q].labels
  }

  lemma {:induction false} DropFirstExact(chain: seq<Uint64>, ref: Uint64)
    requires NoDuplicates(chain)
    ensures NoDuplicates(DropFirst(chain, ref))
    ensures forall r :: r in DropFirst(chain, ref) <==> r in chain && r != ref
  {
    if chain != [] {
      var rest := chain[1..];
      assert chain == [chain[0]] + rest;
      assert chain[0] !in rest;
      DropFirstExact(rest, ref);
    }
  }

  lemma AddToChainExact(c: Chains, h: Uint64, ref: Uint64)
    requires ChainsWellFormed(c) && !InChain(c, h, ref)
    ensures ChainsWellFormed(AddToChain(c, h, ref))
    ensures forall g, r :: InChain(AddToChain(c, h, ref), g, r) <==> InChain(c, g, r) || (g == h && r == ref)
  {
  }

  lemma RemoveFromChainExact(c: Chains, h: Uint64, ref: Uint64)
    requires ChainsWellFormed(c)
    ensures ChainsWellFormed(RemoveFromChain(c, h, ref))
    ensures forall g, r :: InChain(RemoveFromChain(c, h, ref), g, r) <==> InChain(c, g, r) && !(g == h && r == ref)
  {
    DropFirstExact(if h in c then c[h] else [], ref);
  }

  lemma InsertConsistent(hash: Hash, hs: HeadState, ref: Uint64, ls: LabelList)
    requires Consistent(hash, hs) && ref !in hs.series && ref <= hs.lastRef && Canonical(ls)
    ensures Consistent(hash, Insert(hash, hs, ref, ls))
  {
    hide InChain;
    hide P.Posted;
    hide Canonical;
    hide P.AddAll;
    hide AddToChain;
    assert !InChain(hs.hashes, hash(ls), ref);
    AddToChainExact(hs.hashes, hash(ls), ref);
    P.AddAllPosts(hs.postings, ls, ref);
  }

  lemma RemoveConsistent(hash: Hash, hs: HeadState, ref: Uint64)
    requires Consistent(hash, hs) && ref in hs.series
    ensures Consistent(hash, Remove(hash, hs, ref))
  {
    hide InChain;
    hide P.Posted;
    hide Canonical;
    hide P.RemoveAll;
    hide RemoveFromChain;
    var ls := hs.series[ref].labels;
    RemoveFromChainExact(hs.hashes, hash(ls), ref);
    P.RemoveAllPosts(hs.postings, ls, ref);
  }

  /** Changing samples only, in order, keeps the tables consistent. */
  lemma SamplesConsistent(hash: Hash, hs: HeadState, ref: Uint64, samples: seq<Sample>)
    requires Consistent(hash, hs) && ref in hs.series && Ascending(samples)
    ensures Consistent(hash, hs.(series := hs.series[ref := hs.series[ref].(samples := samples)]))
  {
    hide InChain;
    hide P.Posted;
    hide Canonical;
  }

  lemma AppendSampleConsistent(hash: Hash, hs: HeadState, ref: Uint64, t: Int64, v: Uint64)
    requires Consistent(hash, hs)
    ensures Consistent(hash, AppendSample(hs, ref, t, v))
    ensures Distinct(hs) ==> Distinct(AppendSample(hs, ref, t, v))
  {
    hide Inserted;
    if ref in hs.series {
      InsertedAscending(hs.series[ref].samples, t, v);
      SamplesConsistent(hash, hs, ref, Inserted(hs.series[ref].samples, t, v));
    }
  }

  lemma {:induction false} FindInChainFinds(series: map<Uint64, Series>, chain: seq<Uint64>, ls: LabelList)
    ensures match FindInChain(series, chain, ls)
            case Some(r) => r in chain && r in series && series[r].labels == ls
            case None => forall r :: r in chain && r in series ==> series[r].labels != ls
  {
    if chain != [] && !(chain[0] in series && series[chain[0]].labels == ls) {
      FindInChainFinds(series, chain[1..], ls);
      assert chain == [chain[0]] + chain[1..];
    }
  }

  /** Looking along one hash chain finds the series of a label set if there is one, even under collisions. */
  lemma FindExact(hash: Hash, hs: HeadState, ls: LabelList)
    requires Consistent(hash, hs)
    ensures match Find(hash, hs, ls)
            case Some(r) => r in hs.series && hs.series[r].labels == ls
            case None => forall r :: r in hs.series ==> hs.series[r].labels != ls
  {
    var chain := if hash(ls) in hs.hashes then hs.hashes[hash(ls)] else [];
    FindInChainFinds(hs.series, chain, ls);
    if Find(hash, hs, ls).None? {
      forall r | r in hs.series ensures hs.series[r].labels != ls {
        assert InChain(hs.hashes, hash(hs.series[r].labels), r);
      }
    }
  }

  /** Raising the reference counter keeps the tables consistent. */
  lemma BumpConsistent(hash: Hash, hs: HeadState, ref: nat)
    requires Consistent(hash, hs) && ref >= hs.lastRef
    ensures Consistent(hash, hs.(lastRef := ref))
    ensures ref > hs.lastRef ==> ref !in hs.series
  {
    hide InChain;
    hide P.Posted;
  }

  /** A series with labels nobody has keeps labels distinct. */
  lemma InsertDistinct(hash: Hash, hs: HeadState, ref: Uint64, ls: LabelList)
    requires ref !in hs.series && forall r :: r in hs.series ==> hs.series[r].labels != ls
    ensures Distinct(hs) ==> Distinct(Insert(hash, hs, ref, ls))
    ensures |Insert(hash, hs, ref, ls).series| == |hs.series| + 1
    ensures ref in Insert(hash, hs, ref, ls).series && Insert(hash, hs, ref, ls).series[ref].labels == ls
  {
    hide AddToChain;
    hide P.AddAll;
    assert Insert(hash, hs, ref, ls).series.Keys == hs.series.Keys + {ref};
  }

  /** Acquiring keeps the tables consistent, labels distinct, and a capped head within its cap. */
  lemma AcquireConsistent(hash: Hash, hs: HeadState, ls: LabelList, limit: int)
    requires Consistent(hash, hs) && hs.lastRef + 1 < TWO_64 && Canonical(ls)
    ensures var a := Acquire(hash, hs, ls, limit);
            && Consistent(hash, a.head)
            && (Distinct(hs) ==> Distinct(a.head))
            && (a.ok ==> a.ref in a.head.series && a.head.series[a.ref].labels == ls)
            && (a.ok <==> (exists r :: r in hs.series && hs.series[r].labels == ls) || limit <= 0 || |hs.series| < limit)
            && (limit > 0 && |hs.series| <= limit ==> |a.head.series| <= limit)
  {
    hide Consistent;
    hide Canonical;
    hide Find;
    hide Insert;
    FindExact(hash, hs, ls);
    var a := Acquire(hash, hs, ls, limit);
    if a.created {
      var ref := hs.lastRef + 1;
      var hs1 := hs.(lastRef := ref);
      BumpConsistent(hash, hs, ref);
      InsertConsistent(hash, hs1, ref, ls);
      InsertDistinct(hash, hs1, ref, ls);
    }
  }

  /** Replaying a series record keeps the tables consistent. */
  lemma AddWithRefConsistent(hash: Hash, hs: HeadState, ref: Uint64, ls: LabelList)
    requires Consistent(hash, hs) && Canonical(ls)
    ensures Consistent(hash, AddWithRef(hash, hs, ref, ls))
  {
    if ref !in hs.series {
      var hs1 := hs.(lastRef := if ref > hs.lastRef then ref else hs.lastRef);
      BumpConsistent(hash, hs, hs1.lastRef);
      hide Consistent;
      InsertConsistent(hash, hs1, ref, ls);
    }
  }

  // ---- Truncation ----

  ghost function Truncated(series: map<Uint64, Series>, minT: Int64): map<Uint64, Series> {
    map r | r in series && Kept(series[r].samples, minT) != [] :: series[r].(samples := Kept(series[r].samples, minT))
  }

  lemma KeptAscending(s: seq<Sample>, minT: int)
    requires Ascending(s)
    ensures Ascending(Kept(s, minT))
  {
    AscendingSlice(s, LowerBound(s, minT), |s|);
    assert Kept(s, minT) == s[LowerBound(s, minT)..|s|];
  }

  lemma TruncateOneExact(hash: Hash, hs: HeadState, ref: Uint64, minT: Int64)
    requires Consistent(hash, hs) && ref in hs.series
    ensures Consistent(hash, TruncateOne(hash, hs, ref, minT))
    ensures TruncateOne(hash, hs, ref, minT).series ==
            var kept := Kept(hs.series[ref].samples, minT);
            if kept == [] then hs.series - {ref} else hs.series[ref := hs.series[ref].(samples := kept)]
  {
    hide Kept;
    hide Consistent;
    KeptAscending(hs.series[ref].samples, minT) by {
      assert Consistent(hash, hs);
      ConsistentSamples(hash, hs, ref);
    }
    var kept := Kept(hs.series[ref].samples, minT);
    SamplesConsistent(hash, hs, ref, kept);
    var next := hs.(series := hs.series[ref := hs.series[ref].(samples := kept)]);
    if kept == [] {
      RemoveConsistent(hash, next, ref);
      assert next.series - {ref} == hs.series - {ref};
    }
  }

  lemma ConsistentSamples(hash: Hash, hs: HeadState, ref: Uint64)
    requires Consistent(hash, hs) && ref in hs.series
    ensures Ascending(hs.series[ref].samples) && Canonical(hs.series[ref].labels) && ref <= hs.lastRef
  {
  }

  /** After a pass over all series, in any order, each has its recent samples, and emptied ones are gone. */
  lemma {:induction false} TruncateEachExact(hash: Hash, hs: HeadState, order: seq<Uint64>, minT: Int64)
    requires Consistent(hash, hs) && NoDuplicates(order)
    requires forall r :: r in order ==> r in hs.series
    ensures var t := TruncateEach(hash, hs, order, minT);
            && Consistent(hash, t)
            && (forall r :: r in t.series <==>
                              r in hs.series && (r in order ==> Kept(hs.series[r].samples, minT) != []))
            && (forall r :: r in t.series ==>
                              t.series[r] == if r in order then hs.series[r].(samples := Kept(hs.series[r].samples, minT))
                                             else hs.series[r])
  {
    hide Consistent;
    hide TruncateOne;
    if order != [] {
      var front, last := order[..|order| - 1], order[|order| - 1];
      assert order == front + [last];
      assert last !in front;
      TruncateEachExact(hash, hs, front, minT);
      var t := TruncateEach(hash, hs, front, minT);
      assert last in t.series && t.series[last] == hs.series[last];
      TruncateOneExact(hash, t, last, minT);
    }
  }

  /** A whole pass leaves exactly the series with recent samples. */
  lemma TruncateAllExact(hash: Hash, hs: HeadState, order: seq<Uint64>, minT: Int64)
    requires Consistent(hash, hs) && NoDuplicates(order)
    requires forall r :: r in order <==> r in hs.series
    ensures Consistent(hash, TruncateEach(hash, hs, order, minT))
    ensures TruncateEach(hash, hs, order, minT).series == Truncated(hs.series, minT)
  {
    TruncateEachExact(hash, hs, order, minT);
  }
}
