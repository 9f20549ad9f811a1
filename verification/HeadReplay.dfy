/** Replaying a log again: exactly when it changes nothing. */
module HeadReplay {
  import opened Base
  import opened Labels
  import opened Samples
  import opened HeadSpec
  import opened HeadBatch
  import opened WalCodec
  import opened WalLog
  import WalSegments

  ghost predicate Taken(hs: HeadState, ref: Uint64, t: Int64) {
    ref in hs.series && HasTime(hs.series[ref].samples, t)
  }

  lemma InsertedTakes(s: seq<Sample>, t: Int64, v: Uint64, u: Int64)
    requires Ascending(s)
    ensures HasTime(Inserted(s, t, v), u) <==> HasTime(s, u) || u == t
  {
    hide Inserted;
    InsertedIsFirstWins(s, t, v);
    AsMapKeys(s, u);
    AsMapKeys(s, t);
    AsMapKeys(Inserted(s, t, v), u);
  }

  lemma InsertedAgain(s: seq<Sample>, t: Int64, v: Uint64)
    requires Ascending(s) && HasTime(s, t)
    ensures Inserted(s, t, v) == s
  {
    hide Inserted;
    InsertedIsFirstWins(s, t, v);
    InsertedAscending(s, t, v);
    AsMapKeys(s, t);
    AscendingUnique(Inserted(s, t, v), s);
  }

  lemma AppendSampleTakes(hash: Hash, hs: HeadState, ref: Uint64, t: Int64, v: Uint64, r: Uint64, u: Int64)
    requires Consistent(hash, hs)
    ensures Taken(HeadSpec.AppendSample(hs, ref, t, v), r, u) <==>
            Taken(hs, r, u) || (r == ref && u == t && ref in hs.series)
  {
    hide Inserted;
    hide Consistent;
    if ref in hs.series {
      ConsistentSamples(hash, hs, ref);
      InsertedTakes(hs.series[ref].samples, t, v, u);
    }
  }

  lemma {:induction false} AppendAllTakes(hash: Hash, hs: HeadState, ss: seq<RefSample>, r: Uint64, u: Int64)
    requires Consistent(hash, hs)
    ensures Taken(AppendAll(hs, ss), r, u) <==>
            Taken(hs, r, u) || (r in hs.series && exists i :: 0 <= i < |ss| && ss[i].ref == r && ss[i].t == u)
    decreases ss
  {
    hide Taken;
    hide Consistent;
    if ss != [] {
      var hs1 := HeadSpec.AppendSample(hs, ss[0].ref, ss[0].t, ss[0].v);
      AppendSampleConsistent(hash, hs, ss[0].ref, ss[0].t, ss[0].v);
      AppendSampleTakes(hash, hs, ss[0].ref, ss[0].t, ss[0].v, r, u);
      AppendAllTakes(hash, hs1, ss[1..], r, u);
      if i :| 0 <= i < |ss| && ss[i].ref == r && ss[i].t == u {
        if i > 0 {
          assert ss[1..][i - 1] == ss[i];
        }
      }
    }
  }

  // ---- What a log makes known and what it stores ----

  ghost predicate Declares(op: Op, r: Uint64) {
    op.AddSeries? && op.ref == r
  }

  /** Whether a series is in the head or introduced by some record of the log. */
  ghost predicate Known(hs: HeadState, ops: seq<Op>, r: Uint64) {
    r in hs.series || exists i :: 0 <= i < |ops| && Declares(ops[i], r)
  }

  ghost predicate HasSample(op: Op, r: Uint64, t: Int64) {
    op.AddSamples? && exists k :: 0 <= k < |op.samples| && op.samples[k].ref == r && op.samples[k].t == t
  }

  /** Whether the head has a sample of the series at that time, or a record of the log has one where the series is known. */
  ghost predicate Stored(hs: HeadState, ops: seq<Op>, r: Uint64, t: Int64) {
    Taken(hs, r, t) || exists i :: 0 <= i < |ops| && HasSample(ops[i], r, t) && Known(hs, ops[..i], r)
  }

  lemma KnownSnoc(hs: HeadState, ops: seq<Op>, op: Op, r: Uint64)
    ensures Known(hs, ops + [op], r) <==> Known(hs, ops, r) || Declares(op, r)
  {
    hide Declares;
    var all := ops + [op];
    if i :| 0 <= i < |ops| && Declares(ops[i], r) {
      assert Declares(all[i], r);
    }
    if Declares(op, r) {
      assert Declares(all[|ops|], r);
    }
  }

  lemma StoredSnoc(hs: HeadState, ops: seq<Op>, op: Op, r: Uint64, t: Int64)
    ensures Stored(hs, ops + [op], r, t) <==> Stored(hs, ops, r, t) || (HasSample(op, r, t) && Known(hs, ops, r))
  {
    hide HasSample;
    hide Taken;
    hide Known;
    var all := ops + [op];
    assert all[..|ops|] == ops;
    if i :| 0 <= i < |ops| && HasSample(ops[i], r, t) && Known(hs, ops[..i], r) {
      assert all[i] == ops[i] && all[..i] == ops[..i];
    }
    if i :| 0 <= i < |all| && HasSample(all[i], r, t) && Known(hs, all[..i], r) {
      assert i < |ops| ==> all[i] == ops[i] && all[..i] == ops[..i];
    }
    if HasSample(op, r, t) && Known(hs, ops, r) {
      assert HasSample(all[|ops|], r, t) && Known(hs, all[..|ops|], r);
    }
  }

  lemma OpKeysAndTimes(hash: Hash, hs: HeadState, op: Op, r: Uint64, t: Int64)
    requires Consistent(hash, hs)
    ensures r in ApplyOp(hash, hs, op).series <==> r in hs.series || Declares(op, r)
    ensures Taken(ApplyOp(hash, hs, op), r, t) <==> Taken(hs, r, t) || (HasSample(op, r, t) && r in hs.series)
  {
    hide Consistent;
    match op {
      case AddSeries(ref, labels) =>
      case AddSamples(ss) =>
        AppendAllConsistent(hash, hs, ss);
        AppendAllTakes(hash, hs, ss, r, t);
    }
  }

  /** A replayed head has exactly the known series and the stored times. */
  lemma {:induction false} LogKeysAndTimes(hash: Hash, hs: HeadState, ops: seq<Op>, r: Uint64, t: Int64)
    requires Consistent(hash, hs) && forall i :: 0 <= i < |ops| ==> OpWellFormed(ops[i])
    ensures r in ApplyAll(hash, hs, ops).series <==> Known(hs, ops, r)
    ensures Taken(ApplyAll(hash, hs, ops), r, t) <==> Stored(hs, ops, r, t)
  {
    hide Consistent;
    hide Taken;
    hide HasSample;
    hide ApplyOp;
    if ops != [] {
      var front, last := ops[..|ops| - 1], ops[|ops| - 1];
      LogKeysAndTimes(hash, hs, front, r, t);
      ApplyAllConsistent(hash, hs, front);
      OpKeysAndTimes(hash, ApplyAll(hash, hs, front), last, r, t);
      assert ops == front + [last];
      KnownSnoc(hs, front, last, r);
      StoredSnoc(hs, front, last, r, t);
    }
  }

  // ---- When effects change nothing ----

  /** Its series is known; its samples are taken, or their series is not known. */
  ghost predicate Idle(hs: HeadState, op: Op) {
    match op
    case AddSeries(ref, _) => ref in hs.series
    case AddSamples(ss) => forall k :: 0 <= k < |ss| ==> ss[k].ref in hs.series ==> Taken(hs, ss[k].ref, ss[k].t)
  }

  lemma {:induction false} IdleAppends(hash: Hash, hs: HeadState, ss: seq<RefSample>)
    requires Consistent(hash, hs) && Idle(hs, AddSamples(ss))
    ensures AppendAll(hs, ss) == hs
    decreases ss
  {
    hide Inserted;
    hide Consistent;
    if ss != [] {
      if ss[0].ref in hs.series {
        assert Taken(hs, ss[0].ref, ss[0].t);
        ConsistentSamples(hash, hs, ss[0].ref);
        InsertedAgain(hs.series[ss[0].ref].samples, ss[0].t, ss[0].v);
      }
      assert HeadSpec.AppendSample(hs, ss[0].ref, ss[0].t, ss[0].v) == hs;
      assert forall i :: 0 <= i < |ss[1..]| ==> ss[1..][i] == ss[i + 1];
      IdleAppends(hash, hs, ss[1..]);
    }
  }

  lemma {:induction false} IdleLog(hash: Hash, hs: HeadState, ops: seq<Op>)
    requires Consistent(hash, hs) && forall i :: 0 <= i < |ops| ==> Idle(hs, ops[i])
    ensures ApplyAll(hash, hs, ops) == hs
  {
    hide Consistent;
    hide Taken;
    if ops != [] {
      IdleLog(hash, hs, ops[..|ops| - 1]);
      var op := ops[|ops| - 1];
      assert Idle(hs, op);
      if op.AddSamples? {
        IdleAppends(hash, hs, op.samples);
      }
    }
  }

  /** Series and times are never lost again, so an effect that is not idle shows in the end. */
  lemma BusyLog(hash: Hash, hs: HeadState, ops: seq<Op>, i: nat)
    requires Consistent(hash, hs) && forall k :: 0 <= k < |ops| ==> OpWellFormed(ops[k])
    requires i < |ops| && !Idle(hs, ops[i])
    ensures ApplyAll(hash, hs, ops) != hs
  {
    hide Consistent;
    hide Taken;
    match ops[i] {
      case AddSeries(ref, _) =>
        LogKeysAndTimes(hash, hs, ops, ref, 0);
        assert Declares(ops[i], ref);
      case AddSamples(ss) =>
        var k :| 0 <= k < |ss| && ss[k].ref in hs.series && !Taken(hs, ss[k].ref, ss[k].t);
        LogKeysAndTimes(hash, hs, ops, ss[k].ref, ss[k].t);
        assert HasSample(ops[i], ss[k].ref, ss[k].t) && Known(hs, ops[..i], ss[k].ref);
    }
  }

  /** Whether further records say nothing that the log and the head do not have already. */
  ghost predicate AddsNothing(hs: HeadState, ops: seq<Op>, more: seq<Op>) {
    && (forall i, r :: 0 <= i < |more| && Declares(more[i], r) ==> Known(hs, ops, r))
    && (forall i, r, t :: 0 <= i < |more| && HasSample(more[i], r, t) && Known(hs, ops, r) ==> Stored(hs, ops, r, t))
  }

  /** Replaying more records after a log changes nothing exactly when they add nothing to it. */
  lemma ReplayMoreSameIff(hash: Hash, hs: HeadState, ops: seq<Op>, more: seq<Op>)
    requires Consistent(hash, hs)
    requires (forall i :: 0 <= i < |ops| ==> OpWellFormed(ops[i])) && forall i :: 0 <= i < |more| ==> OpWellFormed(more[i])
    ensures ApplyAll(hash, hs, ops + more) == ApplyAll(hash, hs, ops) <==> AddsNothing(hs, ops, more)
  {
    hide Consistent;
    hide ApplyAll;
    hide Taken;
    hide Stored;
    hide Known;
    hide OpWellFormed;
    var once := ApplyAll(hash, hs, ops);
    ApplyAllConcat(hash, hs, ops, more);
    ApplyAllConsistent(hash, hs, ops);
    forall r ensures r in once.series <==> Known(hs, ops, r) {
      LogKeysAndTimes(hash, hs, ops, r, 0);
    }
    forall r, t ensures Taken(once, r, t) <==> Stored(hs, ops, r, t) {
      LogKeysAndTimes(hash, hs, ops, r, t);
    }
    if i :| 0 <= i < |more| && !Idle(once, more[i]) {
      BusyLog(hash, once, more, i);
      match more[i] {
        case AddSeries(ref, _) =>
          assert Declares(more[i], ref) && !Known(hs, ops, ref);
        case AddSamples(ss) =>
          var k :| 0 <= k < |ss| && ss[k].ref in once.series && !Taken(once, ss[k].ref, ss[k].t);
          assert HasSample(more[i], ss[k].ref, ss[k].t);
      }
    } else {
      IdleLog(hash, once, more);
      forall i, r, t | 0 <= i < |more| && HasSample(more[i], r, t) && Known(hs, ops, r) ensures Stored(hs, ops, r, t) {
        assert Idle(once, more[i]);
      }
      forall i, r | 0 <= i < |more| && Declares(more[i], r) ensures Known(hs, ops, r) {
        assert Idle(once, more[i]);
      }
    }
  }

  // ---- A log replayed twice ----

  /** No sample of a known series is lost to the first replay: its time is stored, by the head or a record after the series. */
  ghost predicate NothingPremature(hs: HeadState, ops: seq<Op>) {
    forall i, r, t :: 0 <= i < |ops| && HasSample(ops[i], r, t) && Known(hs, ops, r) ==> Stored(hs, ops, r, t)
  }

  /** Replaying a log twice is replaying it once exactly when the first replay loses no sample of a known series. */
  lemma ReplayTwiceIff(hash: Hash, hs: HeadState, ops: seq<Op>)
    requires Consistent(hash, hs)
    requires forall i :: 0 <= i < |ops| ==> OpWellFormed(ops[i])
    ensures ApplyAll(hash, hs, ops + ops) == ApplyAll(hash, hs, ops) <==> NothingPremature(hs, ops)
  {
    hide Consistent;
    hide Stored;
    hide HasSample;
    hide OpWellFormed;
    ReplayMoreSameIff(hash, hs, ops, ops);
  }

  /** The samples of each record belong to series that the head, or an earlier record, has introduced. */
  ghost predicate SeriesFirst(hs: HeadState, ops: seq<Op>) {
    forall i, r, t :: 0 <= i < |ops| && HasSample(ops[i], r, t) ==> Known(hs, ops[..i], r)
  }

  /** So it is for a log whose series records precede their samples. */
  lemma ReplayTwiceIsOnce(hash: Hash, hs: HeadState, ops: seq<Op>)
    requires Consistent(hash, hs) && SeriesFirst(hs, ops)
    requires forall i :: 0 <= i < |ops| ==> OpWellFormed(ops[i])
    ensures ApplyAll(hash, hs, ops + ops) == ApplyAll(hash, hs, ops)
  {
    hide Consistent;
    hide Known;
    hide HasSample;
    ReplayTwiceIff(hash, hs, ops);
  }

  /** And not for this one: the samples come before their series, and nothing repeats them. */
  lemma SamplesBeforeSeriesReplayDifferently(hash: Hash)
    ensures var ops := [AddSamples([RefSample(1, 5, 0)]), AddSeries(1, [])];
            ApplyAll(hash, EMPTY_HEAD, ops + ops) != ApplyAll(hash, EMPTY_HEAD, ops)
  {
    var ops := [AddSamples([RefSample(1, 5, 0)]), AddSeries(1, [])];
    ReplayTwiceIff(hash, EMPTY_HEAD, ops);
    assert HasSample(ops[0], 1, 5) by {
      assert ops[0].samples[0] == RefSample(1, 5, 0);
    }
    assert Declares(ops[1], 1);
    assert !Known(EMPTY_HEAD, ops[..0], 1);
    assert !Stored(EMPTY_HEAD, ops, 1, 5);
  }

  // ---- A second start on repaired files ----

  lemma {:induction false} ScannedWellFormed(crc: Checksum, t: Bytes)
    ensures forall i :: 0 <= i < |Scanned(crc, t).ops| ==> OpWellFormed(Scanned(crc, t).ops[i])
    decreases |t|
  {
    hide Canonical;
    hide Normalized;
    if t != [] && RecordEnd(t).Some? && FirstOp(crc, t).Some? {
      ScannedWellFormed(crc, t[RecordEnd(t).value..]);
      FirstOpWellFormed(crc, t);
    }
  }

  lemma FirstOpWellFormed(crc: Checksum, t: Bytes)
    requires RecordEnd(t).Some? && FirstOp(crc, t).Some?
    ensures OpWellFormed(FirstOp(crc, t).value)
  {
    hide Normalized;
    hide Canonical;
    hide ReadUvarint;
    forall ls ensures Canonical(Normalized(ls)) {
      NormalizedIsCanonical(ls);
    }
  }

  lemma {:induction false} ReplayedWellFormed(crc: Checksum, segs: seq<Bytes>)
    ensures forall i :: 0 <= i < |WalSegments.Replayed(crc, segs).ops| ==> OpWellFormed(WalSegments.Replayed(crc, segs).ops[i])
  {
    hide Scanned;
    hide OpWellFormed;
    if segs != [] {
      ScannedWellFormed(crc, segs[0]);
      ReplayedWellFormed(crc, segs[1..]);
      var a, b := Scanned(crc, segs[0]).ops, WalSegments.Replayed(crc, segs[1..]).ops;
      forall i | 0 <= i < |a + b| ensures OpWellFormed((a + b)[i]) {
        assert i >= |a| ==> OpWellFormed(b[i - |a|]);
      }
    }
  }

  /** A failing input: behind a torn segment lies the record of a series, which the first start misses and the second finds. */
  lemma SecondStartDiffers(hash: Hash, crc: Checksum)
    ensures var segs := [[0 as byte], Frames(crc, [Record(REC_SERIES, SeriesPayload(1, []))])];
            var first := WalSegments.Replayed(crc, segs);
            ApplyAll(hash, EMPTY_HEAD, first.ops) == EMPTY_HEAD
            && 1 in ApplyAll(hash, EMPTY_HEAD, WalSegments.Replayed(crc, first.segs).ops).series
  {
    var r := Record(REC_SERIES, SeriesPayload(1, []));
    SeriesRecordWritable();
    WalSegments.TornSegmentHides(crc, [r]);
    var ops := Ops([r]);
    assert ops == [AddSeries(1, [])];
    assert ops[..0] == [];
    hide Frames;
    hide WalSegments.Replayed;
  }

  lemma SeriesRecordWritable()
    ensures var r := Record(REC_SERIES, SeriesPayload(1, []));
            Decoded(r) == Some(AddSeries(1, [])) && Writable(r)
  {
    assert SeriesPayload(1, []) == [1, 0];
    SeriesRoundTrip(1, []);
  }

  /** Recovery gives the same head again exactly when what the first replay left unread adds nothing to what it read. */
  lemma SecondStartSameIff(hash: Hash, crc: Checksum, segs: seq<Bytes>)
    ensures var first, unread := WalSegments.Replayed(crc, segs), WalSegments.Replayed(crc, WalSegments.Unread(crc, segs)).ops;
            ApplyAll(hash, EMPTY_HEAD, WalSegments.Replayed(crc, first.segs).ops) == ApplyAll(hash, EMPTY_HEAD, first.ops) <==>
            AddsNothing(EMPTY_HEAD, first.ops, unread)
  {
    hide Scanned;
    hide ApplyAll;
    hide AddsNothing;
    WalSegments.SecondReplay(crc, segs);
    ReplayedWellFormed(crc, segs);
    ReplayedWellFormed(crc, WalSegments.Unread(crc, segs));
    ReplayMoreSameIff(hash, EMPTY_HEAD, WalSegments.Replayed(crc, segs).ops, WalSegments.Replayed(crc, WalSegments.Unread(crc, segs)).ops);
  }
}
