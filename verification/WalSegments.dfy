/** The segmented log on disk: writing with rolls and syncs, crashes, and replay over segments. */
module WalSegments {
  import opened Base
  import opened WalCodec
  import opened WalLog

  // ---- Replay over all segments ----

  /** The effects applied, the segment files as replay leaves them, and whether it reported corruption. */
  datatype Replay = Replay(ops: seq<Op>, segs: seq<Bytes>, failed: bool)

  /**
   * Segments in order. A torn tail is cut off and stops replay, keeping the later segments;
   * corruption is cut off too, and the later segments are removed.
   */
  function Replayed(crc: Checksum, segs: seq<Bytes>): (r: Replay)
    ensures |r.segs| <= |segs|
  {
    if segs == [] then Replay([], [], false)
    else
      var s := Scanned(crc, segs[0]);
      var repaired := segs[0][..s.valid];
      match s.stop
      case Corrupt => Replay(s.ops, [repaired], true)
      case Torn => Replay(s.ops, [repaired] + segs[1..], false)
      case Clean =>
        var rest := Replayed(crc, segs[1..]);
        Replay(s.ops + rest.ops, [repaired] + rest.segs, rest.failed)
  }

  /** The segments behind the first torn one: what the first replay left unread. */
  function Unread(crc: Checksum, segs: seq<Bytes>): seq<Bytes> {
    if segs == [] then []
    else
      match Scanned(crc, segs[0]).stop
      case Corrupt => []
      case Torn => segs[1..]
      case Clean => Unread(crc, segs[1..])
  }

  /** A second replay, on the files the first one repaired, goes on into what the first left unread. */
  lemma {:induction false} SecondReplay(crc: Checksum, segs: seq<Bytes>)
    ensures Replayed(crc, Replayed(crc, segs).segs).ops ==
            Replayed(crc, segs).ops + Replayed(crc, Unread(crc, segs)).ops
    ensures Replayed(crc, Replayed(crc, segs).segs).failed == Replayed(crc, Unread(crc, segs)).failed
  {
    hide Scanned;
    if segs != [] {
      var s, r := Scanned(crc, segs[0]), Replayed(crc, segs);
      RescanRepaired(crc, segs[0]);
      assert r.segs[0][..s.valid] == r.segs[0];
      match s.stop {
        case Corrupt =>
          assert r.segs[1..] == [];
        case Torn =>
          assert r.segs[1..] == segs[1..];
        case Clean =>
          SecondReplay(crc, segs[1..]);
          assert r.segs[1..] == Replayed(crc, segs[1..]).segs;
      }
    }
  }

  /** So recovery is stable across restarts exactly when nothing readable was left behind a torn segment. */
  lemma SecondReplaySameIff(crc: Checksum, segs: seq<Bytes>)
    ensures Replayed(crc, Replayed(crc, segs).segs).ops == Replayed(crc, segs).ops <==>
            Replayed(crc, Unread(crc, segs)).ops == []
  {
    SecondReplay(crc, segs);
    var a, b := Replayed(crc, segs).ops, Replayed(crc, Unread(crc, segs)).ops;
    assert |a + b| == |a| + |b|;
  }

  /** A failing input: one stray byte in the first segment hides all records of the second from the first replay only. */
  lemma TornSegmentHides(crc: Checksum, rs: seq<Record>)
    requires AllWritable(rs)
    ensures var segs := [[0 as byte], Frames(crc, rs)];
            var first := Replayed(crc, segs);
            && first.ops == [] && !first.failed
            && Unread(crc, segs) == [Frames(crc, rs)]
            && Replayed(crc, Unread(crc, segs)).ops == Ops(rs)
            && Replayed(crc, first.segs).ops == Ops(rs)
  {
    hide Decoded;
    var t, more := [0 as byte], Frames(crc, rs);
    var segs := [t, more];
    assert segs[1..] == [more] && [more][1..] == [];
    assert Scanned(crc, t) == Scan([], 0, Torn);
    ScanOfFrames(crc, rs);
    SecondReplay(crc, segs);
    hide Scanned;
    hide Frames;
    assert Replayed(crc, []) == Replay([], [], false);
  }

  // ---- The log on disk ----

  /** Closed segments are durable; of the current one, the first `synced` bytes are. */
  datatype Disk = Disk(closed: seq<Bytes>, cur: Bytes, synced: nat)

  /** Appends one framed record, first rolling (sync, close, new segment) when the current one is full. */
  function Written(d: Disk, maxSegSize: int, f: Bytes): Disk {
    if |d.cur| >= maxSegSize then Disk(d.closed + [d.cur], f, 0)
    else d.(cur := d.cur + f)
  }

  function Synced(d: Disk): Disk { d.(synced := |d.cur|) }

  function WrittenAll(crc: Checksum, d: Disk, maxSegSize: int, rs: seq<Record>): Disk {
    if rs == [] then d
    else Written(WrittenAll(crc, d, maxSegSize, rs[..|rs| - 1]), maxSegSize, Frame(crc, rs[|rs| - 1]))
  }

  /** Every segment consists of whole, correct records. */
  ghost predicate Intact(crc: Checksum, d: Disk) {
    && (forall i :: 0 <= i < |d.closed| ==> Scanned(crc, d.closed[i]).stop == Clean)
    && Scanned(crc, d.cur).stop == Clean
    && d.synced <= |d.cur|
  }

  ghost function FlatOps(crc: Checksum, segs: seq<Bytes>): seq<Op> {
    if segs == [] then [] else FlatOps(crc, segs[..|segs| - 1]) + Scanned(crc, segs[|segs| - 1]).ops
  }

  /** All effects in the log. */
  ghost function LogOps(crc: Checksum, d: Disk): seq<Op> {
    FlatOps(crc, d.closed) + Scanned(crc, d.cur).ops
  }

  /** The effects that no crash can take away. */
  ghost function DurableOps(crc: Checksum, d: Disk): seq<Op>
    requires d.synced <= |d.cur|
  {
    FlatOps(crc, d.closed) + Scanned(crc, d.cur[..d.synced]).ops
  }

  lemma FlatOpsSnoc(crc: Checksum, segs: seq<Bytes>, t: Bytes)
    ensures FlatOps(crc, segs + [t]) == FlatOps(crc, segs) + Scanned(crc, t).ops
  {
    assert (segs + [t])[..|segs|] == segs;
  }

  lemma {:induction false} FlatOpsCons(crc: Checksum, t: Bytes, segs: seq<Bytes>)
    ensures FlatOps(crc, [t] + segs) == Scanned(crc, t).ops + FlatOps(crc, segs)
  {
    hide Scanned;
    if segs == [] {
      assert ([t] + segs)[..0] == [];
    } else {
      var front := segs[..|segs| - 1];
      FlatOpsCons(crc, t, front);
      assert ([t] + segs)[..|segs|] == [t] + front;
    }
  }

  /** Replay over clean segments followed by one that has no bad record. */
  lemma {:induction false} ReplayOfClean(crc: Checksum, closed: seq<Bytes>, last: Bytes)
    requires forall i :: 0 <= i < |closed| ==> Scanned(crc, closed[i]).stop == Clean
    requires Scanned(crc, last).stop != Corrupt
    ensures Replayed(crc, closed + [last]) ==
            Replay(FlatOps(crc, closed) + Scanned(crc, last).ops, closed + [last[..Scanned(crc, last).valid]], false)
  {
    hide Scanned;
    hide FlatOps;
    var segs := closed + [last];
    if closed == [] {
      assert segs[1..] == [];
      assert FlatOps(crc, closed) == [] by {
        NoSegments(crc);
      }
      assert Replayed(crc, []) == Replay([], [], false);
    } else {
      assert segs[1..] == closed[1..] + [last];
      assert closed == [closed[0]] + closed[1..];
      FlatOpsCons(crc, closed[0], closed[1..]);
      ReplayOfClean(crc, closed[1..], last);
      assert closed[0][..Scanned(crc, closed[0]).valid] == closed[0];
    }
  }

  lemma NoSegments(crc: Checksum)
    ensures FlatOps(crc, []) == []
  {
  }

  ghost predicate StartsWith<T>(whole: seq<T>, start: seq<T>) {
    |start| <= |whole| && start == whole[..|start|]
  }

  lemma StartsWithTrans<T>(a: seq<T>, b: seq<T>, c: seq<T>)
    requires StartsWith(a, b) && StartsWith(b, c)
    ensures StartsWith(a, c)
  {
  }

  lemma ConcatStartsWith<T>(p: seq<T>, a: seq<T>, b: seq<T>)
    requires Prefix(b, a)
    ensures StartsWith(p + a, p + b)
  {
    assert (p + a)[..|p + b|] == p + a[..|b|];
  }

  /** Writing a record appends its effect to the log and endangers no durable effect. */
  lemma WrittenExact(crc: Checksum, d: Disk, maxSegSize: int, r: Record)
    requires Intact(crc, d) && Writable(r)
    ensures var e := Written(d, maxSegSize, Frame(crc, r));
            && Intact(crc, e)
            && LogOps(crc, e) == LogOps(crc, d) + [Decoded(r).value]
            && StartsWith(DurableOps(crc, e), DurableOps(crc, d))
  {
    hide Scanned;
    hide Frame;
    hide Decoded;
    var f := Frame(crc, r);
    var e := Written(d, maxSegSize, f);
    if |d.cur| >= maxSegSize {
      FlatOpsSnoc(crc, d.closed, d.cur);
      EmptyScan(crc);
      ScanOfAppend(crc, [], r);
      assert [] + f == f;
      ScanOfCut(crc, d.cur, d.synced);
      ConcatStartsWith(FlatOps(crc, d.closed), Scanned(crc, d.cur).ops, Scanned(crc, d.cur[..d.synced]).ops);
      assert e.cur[..0] == [];
    } else {
      ScanOfAppend(crc, d.cur, r);
      assert e.cur[..d.synced] == d.cur[..d.synced];
    }
  }

  lemma EmptyScan(crc: Checksum)
    ensures Scanned(crc, []) == Scan([], 0, Clean)
  {
  }

  lemma {:induction false} WrittenAllExact(crc: Checksum, d: Disk, maxSegSize: int, rs: seq<Record>)
    requires Intact(crc, d) && AllWritable(rs)
    ensures var e := WrittenAll(crc, d, maxSegSize, rs);
            && Intact(crc, e)
            && LogOps(crc, e) == LogOps(crc, d) + Ops(rs)
            && StartsWith(DurableOps(crc, e), DurableOps(crc, d))
  {
    hide Scanned;
    hide Frame;
    hide Decoded;
    hide Intact;
    hide LogOps;
    hide DurableOps;
    if rs != [] {
      var front, last := rs[..|rs| - 1], rs[|rs| - 1];
      WrittenAllExact(crc, d, maxSegSize, front);
      WrittenExact(crc, WrittenAll(crc, d, maxSegSize, front), maxSegSize, last);
      assert Ops(rs) == Ops(front) + [Decoded(last).value];
    }
  }

  /** A sync makes the whole log durable. */
  lemma SyncedExact(crc: Checksum, d: Disk)
    requires Intact(crc, d)
    ensures Intact(crc, Synced(d)) && LogOps(crc, Synced(d)) == LogOps(crc, d)
    ensures DurableOps(crc, Synced(d)) == LogOps(crc, d)
  {
    hide Scanned;
    assert d.cur[..|d.cur|] == d.cur;
  }

  // ---- Crash and reopen ----

  /** The files a crash leaves: of the current segment, any prefix that includes the synced bytes. */
  function CrashImage(d: Disk, k: nat): seq<Bytes>
    requires d.synced <= k <= |d.cur|
  {
    d.closed + [d.cur[..k]]
  }

  /** Opening the repaired files for appending; what was read from disk is durable. */
  function Opened(segs: seq<Bytes>): Disk {
    if segs == [] then Disk([], [], 0)
    else Disk(segs[..|segs| - 1], segs[|segs| - 1], |segs[|segs| - 1]|)
  }

  /** A crash at any byte keeps every durable effect, adds none, and leaves a clean log with what was recovered. */
  lemma CrashAndReopen(crc: Checksum, d: Disk, k: nat)
    requires Intact(crc, d) && d.synced <= k <= |d.cur|
    ensures var r := Replayed(crc, CrashImage(d, k));
            && !r.failed
            && StartsWith(LogOps(crc, d), r.ops)
            && StartsWith(r.ops, DurableOps(crc, d))
            && Intact(crc, Opened(r.segs))
            && LogOps(crc, Opened(r.segs)) == r.ops
            && Opened(r.segs).synced == |Opened(r.segs).cur|
  {
    hide Scanned;
    hide FlatOps;
    var t := d.cur[..k];
    ScanOfCut(crc, d.cur, k);
    ReplayOfClean(crc, d.closed, t);
    ScanOfCut(crc, t, d.synced);
    assert t[..d.synced] == d.cur[..d.synced];
    var flat := FlatOps(crc, d.closed);
    ConcatStartsWith(flat, Scanned(crc, d.cur).ops, Scanned(crc, t).ops);
    ConcatStartsWith(flat, Scanned(crc, t).ops, Scanned(crc, t[..d.synced]).ops);
    RescanRepaired(crc, t);
    var r := Replayed(crc, CrashImage(d, k));
    assert r.segs[..|r.segs| - 1] == d.closed;
  }

  // ---- The writer ----

  class Wal {
    const crc: Checksum
    const maxSegSize: int
    var closed: seq<Bytes>
    var cur: Bytes
    var curSize: nat
    var synced: nat

    /** Opens the last segment for appending, or creates the first one. */
    constructor (crc: Checksum, maxSegSize: int, segs: seq<Bytes>)
      ensures this.crc == crc && this.maxSegSize == maxSegSize
      ensures Valid() && OnDisk() == Opened(segs)
    {
      this.crc, this.maxSegSize := crc, maxSegSize;
      if segs == [] {
        closed, cur, curSize, synced := [], [], 0, 0;
      } else {
        var last := segs[|segs| - 1];
        closed, cur, curSize, synced := segs[..|segs| - 1], last, |last|, |last|;
      }
    }

    ghost predicate Valid()
      reads this
    {
      curSize == |cur| && synced <= |cur|
    }

    ghost function OnDisk(): Disk
      reads this
    {
      Disk(closed, cur, synced)
    }

    method WriteRecord(r: Record)
      requires Valid()
      modifies this
      ensures Valid() && OnDisk() == Written(old(OnDisk()), maxSegSize, Frame(crc, r))
    {
      hide BigEndian32;
      if curSize >= maxSegSize {
        RollLocked();
      }
      var header := [r.typ] + BigEndian32(|r.payload| % 0x1_0000_0000);
      ghost var before := cur;
      cur := cur + header;
      cur := cur + r.payload;
      cur := cur + BigEndian32(crc(r.payload));
      assert cur == before + Frame(crc, r);
      curSize := curSize + |header| + |r.payload| + 4;
      assert [] + Frame(crc, r) == Frame(crc, r);
    }

    /** The full segment is synced before it is closed, so only the current segment can lose bytes. */
    method RollLocked()
      requires Valid()
      modifies this
      ensures Valid() && OnDisk() == Disk(old(closed) + [old(cur)], [], 0)
    {
      Sync();
      closed := closed + [cur];
      cur, curSize, synced := [], 0, 0;
    }

    method Sync()
      requires Valid()
      modifies this`synced
      ensures Valid() && OnDisk() == Synced(old(OnDisk()))
    {
      synced := curSize;
    }
  }
}
