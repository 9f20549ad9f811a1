/** Batches of new series on the head: undoing them exactly, and replaying logged effects. */
module HeadBatch {
  import opened Base
  import opened Labels
  import opened Samples
  import opened HeadSpec
  import opened WalCodec
  import opened WalLog
  import P = Postings

  datatype NewSeries = NewSeries(ref: Uint64, labels: LabelList)

  /** The head with the series of a batch inserted, oldest first. */
  function InsertAll(hash: Hash, hs: HeadState, ns: seq<NewSeries>): HeadState {
    if ns == [] then hs
    else HeadSpec.Insert(hash, InsertAll(hash, hs, ns[..|ns| - 1]), ns[|ns| - 1].ref, ns[|ns| - 1].labels)
  }

  /** Rollback: each series the batch created is removed if it is still empty. */
  function ReclaimEach(hash: Hash, hs: HeadState, ns: seq<NewSeries>): HeadState
    decreases ns
  {
    if ns == [] then hs else ReclaimEach(hash, Reclaim(hash, hs, ns[0].ref), ns[1..])
  }

  ghost predicate FreshFor(hs: HeadState, ns: seq<NewSeries>) {
    && (forall i :: 0 <= i < |ns| ==> ns[i].ref !in hs.series && ns[i].ref <= hs.lastRef && Canonical(ns[i].labels))
    && (forall i, j :: 0 <= i < j < |ns| ==> ns[i].ref != ns[j].ref)
  }

  ghost predicate InBatch(ns: seq<NewSeries>, r: Uint64) {
    exists i :: 0 <= i < |ns| && ns[i].ref == r
  }

  lemma InBatchSnoc(ns: seq<NewSeries>, r: Uint64)
    requires ns != []
    ensures InBatch(ns, r) <==> InBatch(ns[..|ns| - 1], r) || ns[|ns| - 1].ref == r
  {
    if i :| 0 <= i < |ns| - 1 && ns[i].ref == r {
      assert ns[..|ns| - 1][i].ref == r;
    }
    if InBatch(ns[..|ns| - 1], r) {
      var i :| 0 <= i < |ns| - 1 && ns[..|ns| - 1][i].ref == r;
      assert ns[i].ref == r;
    }
  }

  lemma {:induction false} InsertAllConsistent(hash: Hash, hs: HeadState, ns: seq<NewSeries>)
    requires Consistent(hash, hs) && FreshFor(hs, ns)
    ensures var b := InsertAll(hash, hs, ns);
            && Consistent(hash, b)
            && b.lastRef == hs.lastRef
            && (forall r :: r in b.series <==> r in hs.series || InBatch(ns, r))
            && (forall r :: r in hs.series ==> b.series[r] == hs.series[r])
            && (forall i :: 0 <= i < |ns| ==> ns[i].ref in b.series && b.series[ns[i].ref] == HeadSpec.Series(ns[i].labels, []))
  {
    hide Consistent;
    hide Canonical;
    hide InBatch;
    if ns != [] {
      var front, last := ns[..|ns| - 1], ns[|ns| - 1];
      InsertAllConsistent(hash, hs, front);
      var b := InsertAll(hash, hs, front);
      NotInFront(ns);
      InsertConsistent(hash, b, last.ref, last.labels);
      forall r ensures InBatch(ns, r) <==> InBatch(front, r) || last.ref == r {
        InBatchSnoc(ns, r);
      }
    } else {
      assert forall r :: !InBatch(ns, r) by {
        NoneInEmpty();
      }
    }
  }

  lemma NoneInEmpty()
    ensures forall r :: !InBatch([], r)
  {
  }

  lemma NotInFront(ns: seq<NewSeries>)
    requires ns != [] && forall i, j :: 0 <= i < j < |ns| ==> ns[i].ref != ns[j].ref
    ensures !InBatch(ns[..|ns| - 1], ns[|ns| - 1].ref)
  {
  }

  // ---- Rollback undoes the batch ----

  lemma {:induction false} DropFirstOfSnoc(chain: seq<Uint64>, x: Uint64, ref: Uint64)
    ensures DropFirst(chain + [x], ref) ==
            if ref in chain then DropFirst(chain, ref) + [x] else if x == ref then chain else chain + [x]
  {
    if chain == [] {
      assert (chain + [x])[1..] == [];
    } else {
      assert (chain + [x])[1..] == chain[1..] + [x];
      assert chain == [chain[0]] + chain[1..];
      DropFirstOfSnoc(chain[1..], x, ref);
    }
  }

  /** Removing a series that was just inserted restores series map, chains and postings exactly. */
  lemma RemoveUndoesInsert(hash: Hash, hs: HeadState, ref: Uint64, ls: LabelList)
    requires Consistent(hash, hs) && ref !in hs.series
    ensures Remove(hash, HeadSpec.Insert(hash, hs, ref, ls), ref) == hs
  {
    hide P.Posted;
    hide P.AddAll;
    hide P.RemoveAll;
    var h := hash(ls);
    assert !InChain(hs.hashes, h, ref);
    DropFirstOfSnoc(if h in hs.hashes then hs.hashes[h] else [], ref, ref);
    assert RemoveFromChain(AddToChain(hs.hashes, h, ref), h, ref) == hs.hashes;
    P.RemoveUndoesAdd(hs.postings, ls, ref);
  }

  lemma ChainsCommute(c: Chains, g: Uint64, a: Uint64, h: Uint64, b: Uint64)
    requires ChainsWellFormed(c) && InChain(c, g, a) && a != b
    ensures RemoveFromChain(AddToChain(c, h, b), g, a) == AddToChain(RemoveFromChain(c, g, a), h, b)
  {
    DropFirstOfSnoc(c[g], b, a);
  }

  lemma PostingsCommute(p: P.Index, la: LabelList, a: Uint64, lb: LabelList, b: Uint64)
    requires P.NoEmpty(p) && a != b
    ensures P.RemoveAll(P.AddAll(p, lb, b), la, a) == P.AddAll(P.RemoveAll(p, la, a), lb, b)
  {
    hide P.Posted;
    hide HasPair;
    P.AddAllPosts(p, lb, b);
    P.RemoveAllPosts(P.AddAll(p, lb, b), la, a);
    P.RemoveAllPosts(p, la, a);
    P.AddAllPosts(P.RemoveAll(p, la, a), lb, b);
    var x, y := P.RemoveAll(P.AddAll(p, lb, b), la, a), P.AddAll(P.RemoveAll(p, la, a), lb, b);
    forall n, v, r ensures P.Posted(x, n, v, r) <==> P.Posted(y, n, v, r) {
      assert P.Posted(P.AddAll(p, lb, b), n, v, r) <==> P.Posted(p, n, v, r) || (r == b && HasPair(lb, n, v));
    }
    P.IndexUnique(x, y);
  }

  lemma RemoveCommutesWithInsert(hash: Hash, hs: HeadState, a: Uint64, b: Uint64, lb: LabelList)
    requires Consistent(hash, hs) && a in hs.series && b !in hs.series
    ensures Remove(hash, HeadSpec.Insert(hash, hs, b, lb), a) == HeadSpec.Insert(hash, Remove(hash, hs, a), b, lb)
  {
    hide P.Posted;
    hide P.AddAll;
    hide P.RemoveAll;
    hide AddToChain;
    hide RemoveFromChain;
    var la := hs.series[a].labels;
    assert InChain(hs.hashes, hash(la), a);
    ChainsCommute(hs.hashes, hash(la), a, hash(lb), b);
    PostingsCommute(hs.postings, la, a, lb, b);
    assert hs.series[b := HeadSpec.Series(lb, [])] - {a} == (hs.series - {a})[b := HeadSpec.Series(lb, [])];
  }

  /** Removing the oldest series of a batch leaves the head with the rest of the batch. */
  lemma {:induction false} RemoveOldest(hash: Hash, hs: HeadState, ns: seq<NewSeries>)
    requires Consistent(hash, hs) && FreshFor(hs, ns) && ns != []
    ensures var b := InsertAll(hash, hs, ns);
            ns[0].ref in b.series && Remove(hash, b, ns[0].ref) == InsertAll(hash, hs, ns[1..])
  {
    hide Consistent;
    hide Canonical;
    hide Remove;
    InsertAllConsistent(hash, hs, ns);
    if |ns| == 1 {
      assert ns[..0] == [] && ns[1..] == [];
      RemoveUndoesInsert(hash, hs, ns[0].ref, ns[0].labels);
    } else {
      var front, last := ns[..|ns| - 1], ns[|ns| - 1];
      RemoveOldest(hash, hs, front);
      InsertAllConsistent(hash, hs, front);
      var b := InsertAll(hash, hs, front);
      NotInFront(ns);
      RemoveCommutesWithInsert(hash, b, ns[0].ref, last.ref, last.labels);
      assert ns[1..][..|ns| - 2] == front[1..];
    }
  }

  /** Rolling a batch back restores the head exactly, whatever the hash collisions. */
  lemma {:induction false} ReclaimUndoesBatch(hash: Hash, hs: HeadState, ns: seq<NewSeries>)
    requires Consistent(hash, hs) && FreshFor(hs, ns)
    ensures ReclaimEach(hash, InsertAll(hash, hs, ns), ns) == hs
    decreases ns
  {
    hide Consistent;
    hide Canonical;
    if ns != [] {
      InsertAllConsistent(hash, hs, ns);
      RemoveOldest(hash, hs, ns);
      ReclaimUndoesBatch(hash, hs, ns[1..]);
    }
  }

  // ---- Replaying logged effects ----

  function AppendAll(hs: HeadState, ss: seq<RefSample>): HeadState
    decreases ss
  {
    if ss == [] then hs else AppendAll(HeadSpec.AppendSample(hs, ss[0].ref, ss[0].t, ss[0].v), ss[1..])
  }

  function ApplyOp(hash: Hash, hs: HeadState, op: Op): HeadState {
    match op
    case AddSeries(ref, labels) => AddWithRef(hash, hs, ref, labels)
    case AddSamples(samples) => AppendAll(hs, samples)
  }

  function ApplyAll(hash: Hash, hs: HeadState, ops: seq<Op>): HeadState {
    if ops == [] then hs else ApplyOp(hash, ApplyAll(hash, hs, ops[..|ops| - 1]), ops[|ops| - 1])
  }

  ghost predicate OpWellFormed(op: Op) {
    op.AddSeries? ==> Canonical(op.labels)
  }

  lemma {:induction false} AppendAllConsistent(hash: Hash, hs: HeadState, ss: seq<RefSample>)
    requires Consistent(hash, hs)
    ensures Consistent(hash, AppendAll(hs, ss))
    ensures Distinct(hs) ==> Distinct(AppendAll(hs, ss))
    ensures AppendAll(hs, ss).series.Keys == hs.series.Keys
    ensures AppendAll(hs, ss).lastRef == hs.lastRef
    decreases ss
  {
    hide Consistent;
    hide Distinct;
    hide Inserted;
    if ss != [] {
      AppendSampleConsistent(hash, hs, ss[0].ref, ss[0].t, ss[0].v);
      AppendAllConsistent(hash, HeadSpec.AppendSample(hs, ss[0].ref, ss[0].t, ss[0].v), ss[1..]);
    }
  }

  /** Replaying any decoded log leaves the tables consistent. */
  lemma {:induction false} ApplyAllConsistent(hash: Hash, hs: HeadState, ops: seq<Op>)
    requires Consistent(hash, hs)
    requires forall i :: 0 <= i < |ops| ==> OpWellFormed(ops[i])
    ensures Consistent(hash, ApplyAll(hash, hs, ops))
  {
    hide Consistent;
    if ops != [] {
      ApplyAllConsistent(hash, hs, ops[..|ops| - 1]);
      var b, op := ApplyAll(hash, hs, ops[..|ops| - 1]), ops[|ops| - 1];
      match op {
        case AddSeries(ref, labels) => AddWithRefConsistent(hash, b, ref, labels);
        case AddSamples(samples) => AppendAllConsistent(hash, b, samples);
      }
    }
  }

  lemma {:induction false} ApplyAllConcat(hash: Hash, hs: HeadState, a: seq<Op>, b: seq<Op>)
    ensures ApplyAll(hash, hs, a + b) == ApplyAll(hash, ApplyAll(hash, hs, a), b)
  {
    hide ApplyOp;
    if b == [] {
      assert a + b == a;
    } else {
      ApplyAllConcat(hash, hs, a, b[..|b| - 1]);
      assert (a + b)[..|a + b| - 1] == a + b[..|b| - 1];
    }
  }
}
