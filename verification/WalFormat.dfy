/** The log byte by byte: how numbers and records are laid out, and which bytes stop a replay. */
module WalFormat {
  import opened Base
  import opened Labels
  import opened WalCodec
  import opened WalLog
  import opened WalSegments

  // ---- Numbers ----

  /** What the bytes of an unsigned varint add up to: seven bits each, least significant first. */
  function VarintValue(b: Bytes): nat {
    if b == [] then 0 else b[0] as nat % 0x80 + 0x80 * VarintValue(b[1..])
  }

  /** A varint spells its number in seven-bit bytes, all but the last with the high bit set, and without a leading zero. */
  lemma {:induction false} UvarintLooks(v: Uint64)
    ensures var b := PutUvarint(v);
            && b != [] && VarintValue(b) == v
            && (forall i :: 0 <= i < |b| ==> (b[i] >= 0x80 <==> i < |b| - 1))
            && (|b| > 1 ==> b[|b| - 1] > 0)
  {
    if v >= 0x80 {
      UvarintLooks(v / 0x80);
      var rest := PutUvarint(v / 0x80);
      assert PutUvarint(v)[1..] == rest;
    }
  }

  /** Signed numbers take the even places when they are not negative and the odd ones when they are. */
  lemma VarintLooks(x: Int64)
    ensures PutVarint(x) == PutUvarint(if x >= 0 then 2 * x else 2 * (-1 - x) + 1)
    ensures PutUvarint(300) == [0xAC, 0x02] && PutVarint(-1) == [1] && PutVarint(1) == [2] && PutVarint(-65) == [0x81, 0x01]
  {
    assert PutUvarint(2) == [2];
    assert PutUvarint(1) == [1];
  }

  /** Sixty-four bits are laid out least significant byte first. */
  lemma {:induction false} LittleEndianLooks(v: nat, n: nat, i: nat)
    requires i < n
    ensures LittleEndian(v, n)[i] as nat == v / Pow256(i) % 0x100
  {
    var rest := LittleEndian(v / 0x100, n - 1);
    assert LittleEndian(v, n)[1..] == rest;
    if i > 0 {
      LittleEndianLooks(v / 0x100, n - 1, i - 1);
      DivideTwice(v, Pow256(i - 1));
      assert LittleEndian(v, n)[i] == rest[i - 1];
    }
  }

  lemma DivideTwice(v: nat, p: nat)
    requires p > 0
    ensures v / 0x100 / p == v / (0x100 * p)
  {
    var q, r := v / 0x100, v % 0x100;
    var a, b := q / p, q % p;
    assert v == 0x100 * (a * p + b) + r;
    assert 0 <= 0x100 * b + r < 0x100 * p;
    assert v == (0x100 * p) * a + (0x100 * b + r);
    QuotientIs(v, 0x100 * p, a, 0x100 * b + r);
  }

  lemma QuotientIs(v: nat, d: nat, a: nat, r: nat)
    requires d > 0 && v == d * a + r && r < d
    ensures v / d == a
  {
    var q, s := v / d, v % d;
    assert v == d * q + s;
    assert d * (q - a) == r - s;
    if q > a {
      AtLeast(d, q - a);
    } else if q < a {
      assert d * (a - q) == s - r;
      AtLeast(d, a - q);
    }
  }

  lemma AtLeast(d: nat, k: int)
    requires k >= 1
    ensures d * k >= d
  {
    assert d * k == d + d * (k - 1);
  }

  // ---- Records ----

  /** Four bytes, most significant first. */
  function Number4(b: Bytes): (n: Uint32)
    requires |b| == 4
  {
    ((b[0] as int * 0x100 + b[1] as int) * 0x100 + b[2] as int) * 0x100 + b[3] as int
  }

  lemma Number4Is(b: Bytes)
    requires |b| == 4
    ensures Number4(b) == FromBigEndian32(b)
  {
  }

  /** A frame: the type, four bytes of payload length, the payload, four bytes of its checksum. */
  lemma FrameLooks(crc: Checksum, r: Record)
    ensures var f, n := Frame(crc, r), |r.payload|;
            && |f| == n + 9 && f[0] == r.typ && f[5..n + 5] == r.payload
            && Number4(f[1..5]) == n % 0x1_0000_0000 && Number4(f[n + 5..]) == crc(r.payload)
  {
    hide BigEndian32;
    hide FromBigEndian32;
    hide Number4;
    var f, n := Frame(crc, r), |r.payload|;
    BigEndian32RoundTrip(n % 0x1_0000_0000);
    BigEndian32RoundTrip(crc(r.payload));
    assert f[1..5] == BigEndian32(n % 0x1_0000_0000);
    assert f[n + 5..] == BigEndian32(crc(r.payload));
    Number4Is(f[1..5]);
    Number4Is(f[n + 5..]);
  }

  /** The bytes of a record, its length and checksum fields being anything. */
  function Bytewise(typ: byte, length: Bytes, payload: Bytes, sum: Bytes): Bytes {
    [typ] + length + payload + sum
  }

  /** Records are of two types, and a payload must be one of its type. */
  lemma TypesKnown(typ: byte, payload: Bytes)
    ensures Decoded(Record(typ, payload)).Some? <==>
            (typ == 1 && DecodedSeries(payload).Some?) || (typ == 2 && DecodedSamples(payload).Some?)
    ensures typ == 1 && DecodedSeries(payload).Some? ==>
              Decoded(Record(typ, payload)) == Some(AddSeries(DecodedSeries(payload).value.0, DecodedSeries(payload).value.1))
    ensures typ == 2 && DecodedSamples(payload).Some? ==>
              Decoded(Record(typ, payload)) == Some(AddSamples(DecodedSamples(payload).value))
  {
    hide DecodedSeries;
    hide DecodedSamples;
  }

  /** A record is read as what its type and payload say, if its checksum is that of the payload, and not otherwise. */
  lemma RecordRead(crc: Checksum, typ: byte, length: Bytes, payload: Bytes, sum: Bytes, more: Bytes)
    requires |length| == 4 && |sum| == 4 && Number4(length) == |payload|
    ensures var t := Bytewise(typ, length, payload, sum) + more;
            && RecordEnd(t) == Some(|payload| + 9)
            && FirstOp(crc, t) == (if Number4(sum) == crc(payload) then Decoded(Record(typ, payload)) else None)
            && t[|payload| + 9..] == more
  {
    hide Decoded;
    hide FromBigEndian32;
    hide Number4;
    var t, n := Bytewise(typ, length, payload, sum) + more, |payload|;
    Number4Is(length);
    Number4Is(sum);
    assert t[1..5] == length;
    assert t[5..n + 5] == payload;
    assert t[n + 5..n + 9] == sum;
  }

  /** Whether a record fails its checks. */
  ghost predicate IsBad(crc: Checksum, typ: byte, payload: Bytes, sum: Bytes)
    requires |sum| == 4
  {
    || Number4(sum) != crc(payload)
    || !((typ == 1 && DecodedSeries(payload).Some?) || (typ == 2 && DecodedSamples(payload).Some?))
  }

  /** Bytes that end inside a record: not even a length field, or less than it announces. */
  ghost predicate IsPartial(t: Bytes) {
    t != [] && (|t| < 5 || |t| < 9 + Number4(t[1..5]))
  }

  lemma ScanFirst(crc: Checksum, r: Record, rest: Bytes)
    requires Writable(r)
    ensures var s := Scanned(crc, rest);
            Scanned(crc, Frame(crc, r) + rest) == Scan([Decoded(r).value] + s.ops, |Frame(crc, r)| + s.valid, s.stop)
  {
    FrameReadBack(crc, r, rest);
    hide Frame;
    hide RecordEnd;
    hide FirstOp;
    hide Decoded;
  }

  lemma {:induction false} ScanBehind(crc: Checksum, good: seq<Record>, t: Bytes)
    requires AllWritable(good)
    ensures var s := Scanned(crc, t);
            Scanned(crc, Frames(crc, good) + t) == Scan(Ops(good) + s.ops, |Frames(crc, good)| + s.valid, s.stop)
  {
    hide Frame;
    hide Scanned;
    hide Decoded;
    if good == [] {
      assert Frames(crc, good) + t == t;
      assert Ops(good) + Scanned(crc, t).ops == Scanned(crc, t).ops;
    } else {
      var rest := Frames(crc, good[1..]) + t;
      assert Frames(crc, good) + t == Frame(crc, good[0]) + rest;
      ScanFirst(crc, good[0], rest);
      ScanBehind(crc, good[1..], t);
      assert Ops(good) == [Decoded(good[0]).value] + Ops(good[1..]);
    }
  }

  /** Behind whole records a bad one stops the scan as corrupt, whatever follows, and a partial one as torn. */
  lemma BadRecordStops(crc: Checksum, good: seq<Record>, typ: byte, length: Bytes, payload: Bytes, sum: Bytes, more: Bytes)
    requires AllWritable(good)
    requires |length| == 4 && |sum| == 4 && Number4(length) == |payload| && IsBad(crc, typ, payload, sum)
    ensures Scanned(crc, Frames(crc, good) + (Bytewise(typ, length, payload, sum) + more)) ==
            Scan(Ops(good), |Frames(crc, good)|, Corrupt)
  {
    RecordRead(crc, typ, length, payload, sum, more);
    TypesKnown(typ, payload);
    ScanBehind(crc, good, Bytewise(typ, length, payload, sum) + more);
    hide Decoded;
    hide RecordEnd;
    hide FirstOp;
    hide Frames;
    assert Ops(good) + [] == Ops(good);
  }

  lemma PartialRecordStops(crc: Checksum, good: seq<Record>, t: Bytes)
    requires AllWritable(good) && IsPartial(t)
    ensures Scanned(crc, Frames(crc, good) + t) == Scan(Ops(good), |Frames(crc, good)|, Torn)
  {
    if |t| >= 5 {
      Number4Is(t[1..5]);
    }
    ScanBehind(crc, good, t);
    hide Decoded;
    hide FirstOp;
    hide Frames;
    assert Ops(good) + [] == Ops(good);
  }

  // ---- Whole replays ----

  lemma {:induction false} ReplayBehind(crc: Checksum, clean: seq<Bytes>, rest: seq<Bytes>)
    requires forall i :: 0 <= i < |clean| ==> Scanned(crc, clean[i]).stop == Clean
    ensures var r := Replayed(crc, rest);
            Replayed(crc, clean + rest) == Replay(FlatOps(crc, clean) + r.ops, clean + r.segs, r.failed)
  {
    hide Scanned;
    hide FlatOps;
    if clean == [] {
      NoSegments(crc);
      assert clean + rest == rest;
    } else {
      assert (clean + rest)[1..] == clean[1..] + rest;
      ReplayBehind(crc, clean[1..], rest);
      FlatOpsCons(crc, clean[0], clean[1..]);
      assert clean == [clean[0]] + clean[1..];
      assert clean[0][..Scanned(crc, clean[0]).valid] == clean[0];
    }
  }

  /**
   * A bad record, anywhere, ends the replay with an error: what stands before it is applied, its segment is cut
   * off in front of it, and every later segment is removed.
   */
  lemma CorruptionRemovesLater(crc: Checksum, clean: seq<Bytes>, good: seq<Record>, typ: byte, length: Bytes, payload: Bytes,
                               sum: Bytes, more: Bytes, later: seq<Bytes>)
    requires (forall i :: 0 <= i < |clean| ==> Scanned(crc, clean[i]).stop == Clean) && AllWritable(good)
    requires |length| == 4 && |sum| == 4 && Number4(length) == |payload| && IsBad(crc, typ, payload, sum)
    ensures Replayed(crc, clean + ([Frames(crc, good) + (Bytewise(typ, length, payload, sum) + more)] + later)) ==
            Replay(FlatOps(crc, clean) + Ops(good), clean + [Frames(crc, good)], true)
  {
    BadRecordStops(crc, good, typ, length, payload, sum, more);
    var seg := Frames(crc, good) + (Bytewise(typ, length, payload, sum) + more);
    hide Scanned;
    hide Frames;
    ReplayBehind(crc, clean, [seg] + later);
    assert seg[..|Frames(crc, good)|] == Frames(crc, good);
    assert ([seg] + later)[0] == seg;
  }

  /** A partial record ends the replay without an error: its segment is cut off in front of it, later ones are kept unread. */
  lemma TornTailKeepsLater(crc: Checksum, clean: seq<Bytes>, good: seq<Record>, t: Bytes, later: seq<Bytes>)
    requires (forall i :: 0 <= i < |clean| ==> Scanned(crc, clean[i]).stop == Clean) && AllWritable(good) && IsPartial(t)
    ensures Replayed(crc, clean + ([Frames(crc, good) + t] + later)) ==
            Replay(FlatOps(crc, clean) + Ops(good), clean + ([Frames(crc, good)] + later), false)
  {
    PartialRecordStops(crc, good, t);
    var seg := Frames(crc, good) + t;
    hide Scanned;
    hide Frames;
    hide IsPartial;
    ReplayBehind(crc, clean, [seg] + later);
    assert seg[..|Frames(crc, good)|] == Frames(crc, good);
    assert ([seg] + later)[0] == seg && ([seg] + later)[1..] == later;
  }

  // ---- Segment sizes ----

  /** Closed segments have reached the segment size, the current one had not before its last record. */
  ghost predicate Sized(d: Disk, maxSegSize: int, longest: nat) {
    && (forall i :: 0 <= i < |d.closed| ==> |d.closed[i]| >= maxSegSize)
    && (|d.cur| < maxSegSize + longest || |d.cur| <= longest)
  }

  /** Whatever is written, records of at most some length keep it so. */
  lemma {:induction false} SegmentsStaySized(crc: Checksum, d: Disk, maxSegSize: int, longest: nat, rs: seq<Record>)
    requires Sized(d, maxSegSize, longest)
    requires forall i :: 0 <= i < |rs| ==> |rs[i].payload| + 9 <= longest
    ensures Sized(WrittenAll(crc, d, maxSegSize, rs), maxSegSize, longest)
  {
    hide Frame;
    if rs != [] {
      SegmentsStaySized(crc, d, maxSegSize, longest, rs[..|rs| - 1]);
    }
  }
}
