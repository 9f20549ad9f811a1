/** Framing of the write-ahead log, replay of its segments, and the log writer. */
module WalLog {
  import opened Base
  import opened Labels
  import opened WalCodec

  /** The checksum is uninterpreted: every result holds for any function in its place. */
  type Checksum = Bytes -> Uint32

  const REC_SERIES: byte := 1
  const REC_SAMPLES: byte := 2

  datatype Record = Record(typ: byte, payload: Bytes)

  /** What one record does to the head. */
  datatype Op =
    | AddSeries(ref: Uint64, labels: LabelList)
    | AddSamples(samples: seq<RefSample>)

  function BigEndian32(n: Uint32): (r: Bytes)
    ensures |r| == 4
  {
    [(n / 0x100_0000) as byte, (n / 0x1_0000 % 0x100) as byte, (n / 0x100 % 0x100) as byte, (n % 0x100) as byte]
  }

  function FromBigEndian32(b: Bytes): (r: Uint32)
    requires |b| == 4
  {
    0x100_0000 * (b[0] as int) + 0x1_0000 * (b[1] as int) + 0x100 * (b[2] as int) + (b[3] as int)
  }

  lemma BigEndian32RoundTrip(n: Uint32)
    ensures FromBigEndian32(BigEndian32(n)) == n
  {
    BytesOf(n);
  }

  lemma BytesOf(n: int)
    ensures 0x100_0000 * (n / 0x100_0000) + 0x1_0000 * (n / 0x1_0000 % 0x100) + 0x100 * (n / 0x100 % 0x100) + n % 0x100 == n
  {
    assert n / 0x1_0000 / 0x100 == n / 0x100_0000;
    assert n / 0x100 / 0x100 == n / 0x1_0000;
  }

  /** Type byte, 32-bit payload length, payload, checksum. The length is truncated to 32 bits. */
  function Frame(crc: Checksum, r: Record): (f: Bytes)
    ensures |f| == |r.payload| + 9
  {
    [r.typ] + BigEndian32(|r.payload| % 0x1_0000_0000) + r.payload + BigEndian32(crc(r.payload))
  }

  function Frames(crc: Checksum, rs: seq<Record>): Bytes {
    if rs == [] then [] else Frame(crc, rs[0]) + Frames(crc, rs[1..])
  }

  /** The effect of a record, or nothing when its type or payload is not understood. */
  function Decoded(r: Record): Option<Op> {
    if r.typ == REC_SERIES then
      match DecodedSeries(r.payload)
      case None => None
      case Some((ref, l)) => Some(AddSeries(ref, l))
    else if r.typ == REC_SAMPLES then
      match DecodedSamples(r.payload)
      case None => None
      case Some(ss) => Some(AddSamples(ss))
    else None
  }

  // ---- Replay of one segment ----

  /** Why a scan stopped: at the end, at an incomplete record, or at a record that fails its checks. */
  datatype Stop = Clean | Torn | Corrupt

  /** The effects of the records read, the offset behind the last of them, and why reading stopped. */
  datatype Scan = Scan(ops: seq<Op>, valid: nat, stop: Stop)

  /** Length of the first record, if the bytes hold all of it. */
  function RecordEnd(t: Bytes): (r: Option<nat>)
    ensures r.Some? ==> 9 <= r.value <= |t|
  {
    if |t| < 5 then None
    else
      var end := 9 + FromBigEndian32(t[1..5]);
      if end > |t| then None else Some(end)
  }

  /** The effect of the complete record at the front, unless its checksum or payload is wrong. */
  function FirstOp(crc: Checksum, t: Bytes): Option<Op>
    requires RecordEnd(t).Some?
  {
    var end := RecordEnd(t).value;
    var payload := t[5..end - 4];
    if crc(payload) != FromBigEndian32(t[end - 4..end]) then None else Decoded(Record(t[0], payload))
  }

  function Scanned(crc: Checksum, t: Bytes): (s: Scan)
    ensures s.valid <= |t|
    ensures s.stop == Clean <==> s.valid == |t|
    decreases |t|
  {
    if t == [] then Scan([], 0, Clean)
    else if RecordEnd(t).None? then Scan([], 0, Torn)
    else if FirstOp(crc, t).None? then Scan([], 0, Corrupt)
    else
      var end := RecordEnd(t).value;
      var s := Scanned(crc, t[end..]);
      Scan([FirstOp(crc, t).value] + s.ops, end + s.valid, s.stop)
  }

  // ---- Framing round trip on any cut ----

  ghost predicate Writable(r: Record) {
    |r.payload| < 0x1_0000_0000 && Decoded(r).Some?
  }

  ghost predicate AllWritable(rs: seq<Record>) {
    forall i :: 0 <= i < |rs| ==> Writable(rs[i])
  }

  ghost function Ops(rs: seq<Record>): (r: seq<Op>)
    requires AllWritable(rs)
    ensures |r| == |rs|
    ensures forall i :: 0 <= i < |rs| ==> r[i] == Decoded(rs[i]).value
  {
    seq(|rs|, i requires 0 <= i < |rs| => Decoded(rs[i]).value)
  }

  /** How many of the records lie wholly inside the first k bytes. */
  function WholeRecords(crc: Checksum, rs: seq<Record>, k: nat): (m: nat)
    ensures m <= |rs|
  {
    if rs == [] || k < |Frame(crc, rs[0])| then 0
    else 1 + WholeRecords(crc, rs[1..], k - |Frame(crc, rs[0])|)
  }

  lemma FrameReadBack(crc: Checksum, r: Record, rest: Bytes)
    requires Writable(r)
    ensures var t := Frame(crc, r) + rest;
            RecordEnd(t) == Some(|Frame(crc, r)|) && FirstOp(crc, t) == Decoded(r) && t[|Frame(crc, r)|..] == rest
  {
    hide BigEndian32;
    hide FromBigEndian32;
    hide Decoded;
    var n := |r.payload|;
    var t := Frame(crc, r) + rest;
    BigEndian32RoundTrip(n);
    BigEndian32RoundTrip(crc(r.payload));
    assert t[1..5] == BigEndian32(n);
    assert t[5..n + 5] == r.payload;
    assert t[n + 5..n + 9] == BigEndian32(crc(r.payload));
  }

  /** The length field holds 32 bits: a frame announces its own length exactly when its payload is shorter than 4 GiB. */
  lemma FrameLengthIff(crc: Checksum, r: Record, rest: Bytes)
    ensures RecordEnd(Frame(crc, r) + rest) == Some(|Frame(crc, r)|) <==> |r.payload| < 0x1_0000_0000
  {
    hide BigEndian32;
    hide FromBigEndian32;
    var n := |r.payload| % 0x1_0000_0000;
    BigEndian32RoundTrip(n);
    assert (Frame(crc, r) + rest)[1..5] == BigEndian32(n);
  }

  lemma FrameCutShort(crc: Checksum, r: Record, rest: Bytes, k: nat)
    requires Writable(r) && k < |Frame(crc, r)|
    ensures RecordEnd((Frame(crc, r) + rest)[..k]).None?
  {
    hide BigEndian32;
    hide FromBigEndian32;
    hide Decoded;
    var t := (Frame(crc, r) + rest)[..k];
    if k >= 5 {
      BigEndian32RoundTrip(|r.payload|);
      assert t[1..5] == BigEndian32(|r.payload|);
    }
  }

  /** Replaying any prefix applies the records wholly inside it, and ends on their boundary. */
  lemma {:induction false} ScanOfPrefix(crc: Checksum, rs: seq<Record>, k: nat)
    requires AllWritable(rs) && k <= |Frames(crc, rs)|
    ensures var m := WholeRecords(crc, rs, k);
            var s := Scanned(crc, Frames(crc, rs)[..k]);
            && s.ops == Ops(rs)[..m]
            && s.valid == |Frames(crc, rs[..m])|
            && Frames(crc, rs)[..s.valid] == Frames(crc, rs[..m])
            && s.stop == (if s.valid == k then Clean else Torn)
    decreases |rs|
  {
    hide Frame;
    hide RecordEnd;
    hide FirstOp;
    hide Decoded;
    if rs != [] {
      var f, rest := Frame(crc, rs[0]), Frames(crc, rs[1..]);
      var t := Frames(crc, rs)[..k];
      if k < |f| {
        FrameCutShort(crc, rs[0], rest, k);
      } else {
        var cut := rest[..k - |f|];
        assert t == f + cut;
        FrameReadBack(crc, rs[0], cut);
        ScanOfPrefix(crc, rs[1..], k - |f|);
        var m := WholeRecords(crc, rs[1..], k - |f|);
        assert rs[..m + 1][0] == rs[0] && rs[..m + 1][1..] == rs[1..][..m];
        assert Ops(rs)[..m + 1] == [Decoded(rs[0]).value] + Ops(rs[1..])[..m];
      }
    }
  }

  /** A whole segment replays to the effects of all its records. */
  lemma ScanOfFrames(crc: Checksum, rs: seq<Record>)
    requires AllWritable(rs)
    ensures Scanned(crc, Frames(crc, rs)) == Scan(Ops(rs), |Frames(crc, rs)|, Clean)
  {
    AllWhole(crc, rs);
    ScanOfPrefix(crc, rs, |Frames(crc, rs)|);
    assert Frames(crc, rs)[..|Frames(crc, rs)|] == Frames(crc, rs);
    assert rs[..|rs|] == rs && Ops(rs)[..|rs|] == Ops(rs);
  }

  lemma {:induction false} AllWhole(crc: Checksum, rs: seq<Record>)
    ensures WholeRecords(crc, rs, |Frames(crc, rs)|) == |rs|
  {
    if rs != [] {
      AllWhole(crc, rs[1..]);
    }
  }

  // ---- Arbitrary bytes ----

  ghost predicate Prefix<T>(a: seq<T>, b: seq<T>) {
    |a| <= |b| && a == b[..|a|]
  }

  /** Truncating to the last good record makes the segment clean, with the same effects. */
  lemma {:induction false} RescanRepaired(crc: Checksum, t: Bytes)
    ensures var s := Scanned(crc, t); Scanned(crc, t[..s.valid]) == Scan(s.ops, s.valid, Clean)
    decreases |t|
  {
    hide RecordEnd;
    hide FirstOp;
    if t != [] && RecordEnd(t).Some? && FirstOp(crc, t).Some? {
      var end := RecordEnd(t).value;
      var v := Scanned(crc, t).valid;
      RescanRepaired(crc, t[end..]);
      FrontOfCut(crc, t, v);
      assert t[..v][end..] == t[end..][..v - end];
    }
  }

  lemma FrontOfCut(crc: Checksum, t: Bytes, k: nat)
    requires k <= |t| && RecordEnd(t).Some? && RecordEnd(t).value <= k
    ensures RecordEnd(t[..k]) == RecordEnd(t) && FirstOp(crc, t[..k]) == FirstOp(crc, t)
  {
    var end := RecordEnd(t).value;
    assert t[..k][1..5] == t[1..5];
    assert t[..k][5..end - 4] == t[5..end - 4];
    assert t[..k][end - 4..end] == t[end - 4..end];
  }

  lemma EndOfCut(t: Bytes, k: nat)
    requires k <= |t| && RecordEnd(t[..k]).Some?
    ensures RecordEnd(t) == RecordEnd(t[..k])
  {
    assert t[..k][1..5] == t[1..5];
  }

  /** A cut of bytes without a bad record has no bad record, and replays to a prefix. */
  lemma {:induction false} ScanOfCut(crc: Checksum, t: Bytes, k: nat)
    requires k <= |t| && Scanned(crc, t).stop != Corrupt
    ensures Scanned(crc, t[..k]).stop != Corrupt
    ensures Prefix(Scanned(crc, t[..k]).ops, Scanned(crc, t).ops)
    decreases |t|
  {
    hide RecordEnd;
    hide FirstOp;
    if k > 0 {
      if RecordEnd(t[..k]).Some? {
        var end := RecordEnd(t[..k]).value;
        EndOfCut(t, k);
        FrontOfCut(crc, t, k);
        ScanOfCut(crc, t[end..], k - end);
        assert t[..k][end..] == t[end..][..k - end];
      }
    }
  }

  lemma FrontOfAppend(crc: Checksum, t: Bytes, more: Bytes)
    requires RecordEnd(t).Some?
    ensures RecordEnd(t + more) == RecordEnd(t) && FirstOp(crc, t + more) == FirstOp(crc, t)
  {
    assert (t + more)[..|t|] == t;
    assert (t + more)[1..5] == t[1..5];
    FrontOfCut(crc, t + more, |t|);
  }

  /** Appending a record to a clean segment appends its effect. */
  lemma {:induction false} ScanOfAppend(crc: Checksum, t: Bytes, r: Record)
    requires Scanned(crc, t).stop == Clean && Writable(r)
    ensures Scanned(crc, t + Frame(crc, r)) ==
            Scan(Scanned(crc, t).ops + [Decoded(r).value], |t| + |Frame(crc, r)|, Clean)
    decreases |t|
  {
    hide Frame;
    hide RecordEnd;
    hide FirstOp;
    hide Decoded;
    var f := Frame(crc, r);
    if t == [] {
      FrameReadBack(crc, r, []);
      assert t + f == f + [];
    } else {
      var end := RecordEnd(t).value;
      FrontOfAppend(crc, t, f);
      ScanOfAppend(crc, t[end..], r);
      assert (t + f)[end..] == t[end..] + f;
    }
  }
}
