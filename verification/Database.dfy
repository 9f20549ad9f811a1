/** The storage engine: opening with replay, and the appender that stages, commits and rolls back batches. */
module Database {
  import opened Base
  import opened Labels
  import opened Samples
  import opened HeadSpec
  import opened HeadBatch
  import opened WalCodec
  import opened WalLog
  import opened WalSegments
  import Head
  import Recovery

  // ---- Replay into a head ----

  /** Applies one record; false, and no effect, when its type or payload is not understood. */
  method ApplyRecord(h: Head.Store, r: Record) returns (ok: bool)
    requires h.Valid()
    modifies h
    ensures h.Valid()
    ensures match Decoded(r)
            case None => !ok && h.State() == old(h.State())
            case Some(op) => ok && h.State() == ApplyOp(h.hash, old(h.State()), op)
  {
    hide Consistent;
    hide Normalized;
    hide ReadUvarint;
    hide HeadSpec.AddWithRef;
    hide Canonical;
    if r.typ == REC_SERIES {
      var decoded := DecodeSeries(r.payload);
      if decoded.None? {
        return false;
      }
      DecodedLabelsCanonical(r.payload);
      h.AddSeriesWithRef(decoded.value.0, decoded.value.1);
      return true;
    } else if r.typ == REC_SAMPLES {
      var decoded := DecodeSamples(r.payload);
      if decoded.None? {
        return false;
      }
      AppendSamples(h, decoded.value);
      return true;
    }
    return false;
  }

  lemma DecodedLabelsCanonical(payload: Bytes)
    ensures DecodedSeries(payload).Some? ==> Canonical(DecodedSeries(payload).value.1)
  {
    hide Normalized;
    hide Canonical;
    hide ReadUvarint;
    forall ls ensures Canonical(Normalized(ls)) {
      NormalizedIsCanonical(ls);
    }
  }

  method AppendSamples(h: Head.Store, ss: seq<RefSample>)
    requires h.Valid()
    modifies h`series
    ensures h.Valid() && h.State() == AppendAll(old(h.State()), ss)
  {
    hide Consistent;
    hide HeadSpec.AppendSample;
    ghost var before := h.State();
    for i := 0 to |ss|
      invariant h.Valid()
      invariant AppendAll(before, ss) == AppendAll(h.State(), ss[i..])
    {
      assert ss[i..][1..] == ss[i + 1..];
      h.AppendSample(ss[i].ref, ss[i].t, ss[i].v);
    }
  }

  /** Applies one segment's records; returns the offset behind the last good one and why reading stopped. */
  method ReplaySegment(crc: Checksum, data: Bytes, h: Head.Store) returns (valid: nat, stop: Stop)
    requires h.Valid()
    modifies h
    ensures h.Valid()
    ensures var s := Scanned(crc, data);
            valid == s.valid && stop == s.stop && h.State() == ApplyAll(h.hash, old(h.State()), s.ops)
  {
    hide Consistent;
    hide Decoded;
    hide ApplyOp;
    hide ApplyAll;
    hide Scanned;
    var off := 0;
    ghost var ops: seq<Op> := [];
    ghost var before := h.State();
    assert data[0..] == data;
    NothingApplied(h.hash, before);
    while true
      invariant off <= |data| && h.Valid()
      invariant var rest := Scanned(crc, data[off..]); Scanned(crc, data) == Scan(ops + rest.ops, off + rest.valid, rest.stop)
      invariant h.State() == ApplyAll(h.hash, before, ops)
      decreases |data| - off
    {
      assert ops + [] == ops;
      ScannedAt(crc, data, off);
      if off == |data| {
        return off, Clean;
      }
      if off + 5 > |data| {
        return off, Torn;
      }
      var n := FromBigEndian32(data[off + 1..off + 5]);
      var recEnd := off + 5 + n + 4;
      if recEnd > |data| {
        return off, Torn;
      }
      var payload := data[off + 5..off + 5 + n];
      if crc(payload) != FromBigEndian32(data[off + 5 + n..recEnd]) {
        return off, Corrupt;
      }
      var ok := ApplyRecord(h, Record(data[off], payload));
      if !ok {
        return off, Corrupt;
      }
      ghost var op := Decoded(Record(data[off], payload)).value;
      ApplyOne(h.hash, before, ops, op);
      assert ops + ([op] + Scanned(crc, data[recEnd..]).ops) == ops + [op] + Scanned(crc, data[recEnd..]).ops;
      ops := ops + [op];
      off := recEnd;
    }
  }

  /** The scan from an offset, in terms of the bytes there. */
  lemma ScannedAt(crc: Checksum, data: Bytes, off: nat)
    requires off <= |data|
    ensures Scanned(crc, data[off..]) ==
            if off == |data| then Scan([], 0, Clean)
            else if off + 5 > |data| then Scan([], 0, Torn)
            else
              var recEnd := off + 9 + FromBigEndian32(data[off + 1..off + 5]);
              if recEnd > |data| then Scan([], 0, Torn)
              else
                var payload := data[off + 5..recEnd - 4];
                var op := Decoded(Record(data[off], payload));
                if crc(payload) != FromBigEndian32(data[recEnd - 4..recEnd]) || op.None? then Scan([], 0, Corrupt)
                else
                  var s := Scanned(crc, data[recEnd..]);
                  Scan([op.value] + s.ops, recEnd - off + s.valid, s.stop)
  {
    hide Decoded;
    hide FromBigEndian32;
    assert |data[off..]| == |data| - off;
    if off + 5 <= |data| {
      assert data[off..][1..5] == data[off + 1..off + 5];
      var recEnd := off + 9 + FromBigEndian32(data[off + 1..off + 5]);
      if recEnd <= |data| {
        RecordAt(crc, data, off, recEnd);
      }
    }
  }

  lemma NothingApplied(hash: Hash, hs: HeadState)
    ensures ApplyAll(hash, hs, []) == hs
  {
  }

  lemma ApplyOne(hash: Hash, hs: HeadState, ops: seq<Op>, op: Op)
    ensures ApplyAll(hash, hs, ops + [op]) == ApplyOp(hash, ApplyAll(hash, hs, ops), op)
  {
    assert (ops + [op])[..|ops|] == ops;
  }

  lemma RecordAt(crc: Checksum, data: Bytes, off: nat, recEnd: nat)
    requires off + 9 <= recEnd <= |data|
    ensures var t := data[off..];
            && t[0] == data[off]
            && t[5..recEnd - off - 4] == data[off + 5..recEnd - 4]
            && t[recEnd - off - 4..recEnd - off] == data[recEnd - 4..recEnd]
            && t[recEnd - off..] == data[recEnd..]
  {
  }

  /** Replays the segments in order and repairs the files it stops in. */
  method ReplayWal(crc: Checksum, segs: seq<Bytes>, h: Head.Store) returns (repaired: seq<Bytes>, failed: bool)
    requires h.Valid()
    modifies h
    ensures h.Valid()
    ensures var r := Replayed(crc, segs);
            repaired == r.segs && failed == r.failed && h.State() == ApplyAll(h.hash, old(h.State()), r.ops)
  {
    hide Consistent;
    hide Scanned;
    hide ApplyAll;
    ghost var before := h.State();
    ghost var ops: seq<Op> := [];
    NothingApplied(h.hash, before);
    assert segs[0..] == segs;
    repaired := [];
    for i := 0 to |segs|
      invariant h.Valid() && h.State() == ApplyAll(h.hash, before, ops)
      invariant var rest := Replayed(crc, segs[i..]);
                Replayed(crc, segs) == Replay(ops + rest.ops, repaired + rest.segs, rest.failed)
    {
      ghost var s := Scanned(crc, segs[i]);
      assert segs[i..][0] == segs[i] && segs[i..][1..] == segs[i + 1..];
      var valid, stop := ReplaySegment(crc, segs[i], h);
      ApplyAllConcat(h.hash, before, ops, s.ops);
      ghost var rest := Replayed(crc, segs[i + 1..]);
      assert ops + (s.ops + rest.ops) == ops + s.ops + rest.ops;
      assert repaired + ([segs[i][..valid]] + rest.segs) == repaired + [segs[i][..valid]] + rest.segs;
      ops := ops + s.ops;
      if stop == Corrupt {
        return repaired + [segs[i][..valid]], true;
      }
      if stop == Torn {
        assert repaired + ([segs[i][..valid]] + segs[i + 1..]) == repaired + [segs[i][..valid]] + segs[i + 1..];
        return repaired + [segs[i][..valid]] + segs[i + 1..], false;
      }
      repaired := repaired + [segs[i][..valid]];
    }
    assert ops + [] == ops && repaired + [] == repaired;
    return repaired, false;
  }

  // ---- The database ----

  class Db {
    const head: Head.Store
    /** Absent when running in memory only. */
    const wal: Wal?

    constructor InMemory(hash: Hash, maxSeries: int)
      ensures wal == null && fresh(head) && head.hash == hash && head.maxSeries == maxSeries
      ensures Valid() && head.State() == EMPTY_HEAD
    {
      head := new Head.Store(hash, maxSeries);
      wal := null;
    }

    constructor Make(head: Head.Store, wal: Wal)
      ensures this.head == head && this.wal == wal
    {
      this.head, this.wal := head, wal;
    }

    ghost predicate Valid()
      reads this, head, wal
    {
      head.Valid() && (wal != null ==> wal.Valid())
    }

    /** The parameters of the recovery model; without a log those of the log are of no consequence. */
    ghost function Config(): Recovery.Config {
      if wal != null then Recovery.Config(head.hash, wal.crc, wal.maxSegSize, head.maxSeries)
      else Recovery.Config(head.hash, b => 0, 0, head.maxSeries)
    }

    ghost function OnDisk(): Disk
      reads wal
    {
      if wal != null then wal.OnDisk() else Disk([], [], 0)
    }
  }

  /** Opens the log directory: replay, then open the repaired log. `failed` reports corruption that was cut off. */
  method Open(cfg: Recovery.Config, segs: seq<Bytes>) returns (db: Db, failed: bool)
    ensures fresh(db) && fresh(db.head) && db.wal != null && fresh(db.wal) && db.Valid()
    ensures db.head.hash == cfg.hash && db.head.maxSeries == cfg.maxSeries
    ensures db.wal.crc == cfg.crc && db.wal.maxSegSize == cfg.maxSegSize
    ensures Recovery.Db(db.head.State(), db.wal.OnDisk(), [], []) == Recovery.Reopened(cfg, segs)
    ensures failed == Replayed(cfg.crc, segs).failed
  {
    hide Consistent;
    hide Replayed;
    hide ApplyAll;
    var head := new Head.Store(cfg.hash, cfg.maxSeries);
    var repaired;
    repaired, failed := ReplayWal(cfg.crc, segs, head);
    var wal := new Wal(cfg.crc, cfg.maxSegSize, repaired);
    db := new Db.Make(head, wal);
  }

  /** Stages new series and samples; nothing reaches the log before Commit. */
  class Appender {
    const db: Db
    var newSeries: seq<NewSeries>
    var pending: seq<RefSample>

    constructor (db: Db)
      ensures this.db == db && newSeries == [] && pending == []
    {
      this.db, newSeries, pending := db, [], [];
    }

    ghost function Config(): Recovery.Config {
      db.Config()
    }

    ghost function View(): Recovery.Db
      reads this, db.head, db.wal
    {
      Recovery.Db(db.head.State(), db.OnDisk(), newSeries, pending)
    }

    method Append(ls: LabelList, t: Int64, v: Uint64) returns (ref: Uint64, ok: bool)
      requires db.Valid() && Canonical(ls) && db.head.lastRef + 1 < TWO_64
      modifies this, db.head
      ensures db.Valid()
      ensures ok == HeadSpec.Acquire(db.head.hash, old(db.head.State()), ls, db.head.maxSeries).ok
      ensures (ref, db.head.State(), newSeries, pending) ==
              var a := HeadSpec.Acquire(db.head.hash, old(db.head.State()), ls, db.head.maxSeries);
              (a.ref, a.head, if a.created then old(newSeries) + [NewSeries(a.ref, ls)] else old(newSeries),
               if a.ok then old(pending) + [RefSample(a.ref, t, v)] else old(pending))
      ensures View() == Recovery.Appended(Config(), old(View()), ls, t, v)
    {
      hide Consistent;
      hide Find;
      hide HeadSpec.Insert;
      var created;
      ref, created, ok := db.head.Acquire(ls);
      if !ok {
        return 0, false;
      }
      if created {
        newSeries := newSeries + [NewSeries(ref, ls)];
      }
      pending := pending + [RefSample(ref, t, v)];
    }

    /** Logs the new series and the samples, syncs, and only then applies the samples to the head. */
    method Commit()
      requires db.Valid()
      requires |pending| < TWO_63 && forall i :: 0 <= i < |newSeries| ==> Encodable(newSeries[i].labels)
      modifies this, db.head, db.wal
      ensures db.Valid()
      ensures newSeries == [] && pending == []
      ensures db.head.State() == AppendAll(old(db.head.State()), old(pending))
      ensures db.wal != null ==> View() == Recovery.Committed(Config(), old(View()))
    {
      hide Consistent;
      hide Encodable;
      hide AppendAll;
      hide WrittenAll;
      hide HeadSpec.Insert;
      if db.wal != null {
        WriteBatch(db.wal);
        db.wal.Sync();
      }
      AppendSamples(db.head, pending);
      newSeries := [];
      pending := [];
    }

    method WriteBatch(w: Wal)
      requires w == db.wal && w.Valid()
      requires |pending| < TWO_63 && forall i :: 0 <= i < |newSeries| ==> Encodable(newSeries[i].labels)
      modifies w
      ensures w.Valid()
      ensures w.OnDisk() == WrittenAll(w.crc, old(w.OnDisk()), w.maxSegSize, Recovery.BatchRecords(newSeries, pending))
    {
      hide Encodable;
      hide WrittenAll;
      ghost var d := w.OnDisk();
      var rs := Recovery.SeriesRecords(newSeries);
      WriteSeries(w);
      assert rs + [] == rs;
      if |pending| > 0 {
        var payload := EncodeSamples(pending);
        WriteOne(w, Record(REC_SAMPLES, payload), d, rs);
      }
    }

    method WriteSeries(w: Wal)
      requires w == db.wal && w.Valid()
      requires forall i :: 0 <= i < |newSeries| ==> Encodable(newSeries[i].labels)
      modifies w
      ensures w.Valid()
      ensures w.OnDisk() == WrittenAll(w.crc, old(w.OnDisk()), w.maxSegSize, Recovery.SeriesRecords(newSeries))
    {
      hide Encodable;
      hide WrittenAll;
      ghost var d := w.OnDisk();
      NothingWritten(w.crc, d, w.maxSegSize);
      for i := 0 to |newSeries|
        invariant w.Valid()
        invariant w.OnDisk() == WrittenAll(w.crc, d, w.maxSegSize, Recovery.SeriesRecords(newSeries[..i]))
      {
        var payload := EncodeSeries(newSeries[i].ref, newSeries[i].labels);
        WriteOne(w, Record(REC_SERIES, payload), d, Recovery.SeriesRecords(newSeries[..i]));
        SeriesRecordsNext(newSeries, i);
      }
      assert newSeries[..|newSeries|] == newSeries;
    }

    static lemma NothingWritten(crc: Checksum, d: Disk, max: int)
      ensures WrittenAll(crc, d, max, Recovery.SeriesRecords([])) == d
    {
    }

    static lemma SeriesRecordsNext(created: seq<NewSeries>, i: nat)
      requires i < |created| && forall k :: 0 <= k < |created| ==> Encodable(created[k].labels)
      ensures Recovery.SeriesRecords(created[..i + 1]) ==
              Recovery.SeriesRecords(created[..i]) + [Record(REC_SERIES, SeriesPayload(created[i].ref, created[i].labels))]
    {
      assert created[..i + 1][..i] == created[..i];
    }

    method WriteOne(w: Wal, r: Record, ghost d: Disk, ghost rs: seq<Record>)
      requires w.Valid() && w.OnDisk() == WrittenAll(w.crc, d, w.maxSegSize, rs)
      modifies w
      ensures w.Valid() && w.OnDisk() == WrittenAll(w.crc, d, w.maxSegSize, rs + [r])
    {
      assert (rs + [r])[..|rs|] == rs;
      w.WriteRecord(r);
    }

    /** Discards the batch and releases the series it created, if they are still empty. */
    method Rollback()
      requires db.Valid()
      modifies this, db.head
      ensures db.Valid()
      ensures newSeries == [] && pending == []
      ensures db.head.State() == ReclaimEach(db.head.hash, old(db.head.State()), old(newSeries))
      ensures View() == Recovery.RolledBack(Config(), old(View()))
    {
      hide Consistent;
      hide Reclaim;
      ghost var before := db.head.State();
      for i := 0 to |newSeries|
        invariant db.Valid()
        invariant newSeries == old(newSeries)
        invariant ReclaimEach(db.head.hash, before, newSeries) == ReclaimEach(db.head.hash, db.head.State(), newSeries[i..])
      {
        assert newSeries[i..][1..] == newSeries[i + 1..];
        db.head.ReclaimIfEmpty(newSeries[i].ref);
      }
      newSeries := [];
      pending := [];
    }
  }
}
