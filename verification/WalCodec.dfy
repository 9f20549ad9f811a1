/** Payload encoding of write-ahead-log records: series and sample batches. */
module WalCodec {
  import opened Base
  import opened Labels

  /** A sample tagged with its series; the value is the bit pattern of the float64. */
  datatype RefSample = RefSample(ref: Uint64, t: Int64, v: Uint64)

  // ---- encoding/binary ----

  function PutUvarint(v: Uint64): Bytes {
    if v < 0x80 then [v as byte] else [(v % 0x80 + 0x80) as byte] + PutUvarint(v / 0x80)
  }

  /** One past the largest value whose encoding may start at byte k of a varint. */
  function Limit(k: nat): (r: nat)
    requires k <= 9
    ensures r >= 2
    decreases 9 - k
  {
    if k == 9 then 2 else 0x80 * Limit(k + 1)
  }

  lemma LimitIs64Bit()
    ensures Limit(0) == TWO_64
  {
    assert Limit(6) == 2 * 0x80 * 0x80 * 0x80;
    assert Limit(3) == 0x80 * 0x80 * 0x80 * Limit(6);
    assert Limit(0) == 0x80 * 0x80 * 0x80 * Limit(3);
  }

  /** Reads the bytes of a varint from its k-th on: a tenth byte above 1 or an eleventh byte overflows. */
  function UvarintFrom(t: Bytes, k: nat): (r: Option<(nat, Bytes)>)
    requires k <= 10
    ensures r.Some? ==> k <= 9 && r.value.0 < Limit(k) && |r.value.1| < |t|
    decreases 10 - k
  {
    if k == 10 || t == [] then None
    else if t[0] < 0x80 then
      if k == 9 && t[0] > 1 then None
      else assert k < 9 ==> Limit(k) >= 0x100; Some((t[0] as nat, t[1..]))
    else
      match UvarintFrom(t[1..], k + 1)
      case None => None
      case Some((hi, rest)) => Some((t[0] as nat - 0x80 + 0x80 * hi, rest))
  }

  function ReadUvarint(t: Bytes): (r: Option<(Uint64, Bytes)>)
    ensures r.Some? ==> |r.value.1| < |t|
  {
    LimitIs64Bit();
    match UvarintFrom(t, 0)
    case None => None
    case Some((v, rest)) => Some((v, rest))
  }

  function ZigZag(x: Int64): Uint64 { if x >= 0 then 2 * x else -2 * x - 1 }

  function UnZigZag(u: Uint64): Int64 { if u % 2 == 0 then u / 2 else -(u / 2) - 1 }

  function PutVarint(x: Int64): Bytes { PutUvarint(ZigZag(x)) }

  function ReadVarint(t: Bytes): (r: Option<(Int64, Bytes)>)
    ensures r.Some? ==> |r.value.1| < |t|
  {
    match ReadUvarint(t)
    case None => None
    case Some((u, rest)) => Some((UnZigZag(u), rest))
  }

  /** n bytes, least significant first. */
  function LittleEndian(v: nat, n: nat): (r: Bytes)
    ensures |r| == n
  {
    if n == 0 then [] else [(v % 0x100) as byte] + LittleEndian(v / 0x100, n - 1)
  }

  function FromLittleEndian(b: Bytes): nat {
    if b == [] then 0 else b[0] as nat + 0x100 * FromLittleEndian(b[1..])
  }

  function Pow256(n: nat): (r: nat)
    ensures r > 0
  {
    if n == 0 then 1 else 0x100 * Pow256(n - 1)
  }

  lemma {:induction false} FromLittleEndianBound(b: Bytes)
    ensures FromLittleEndian(b) < Pow256(|b|)
  {
    if b != [] {
      FromLittleEndianBound(b[1..]);
    }
  }

  lemma Pow256Of8()
    ensures Pow256(8) == TWO_64 && Pow256(4) == 0x1_0000_0000
  {
    assert Pow256(4) == 0x100 * 0x100 * Pow256(2);
    assert Pow256(6) == 0x100 * 0x100 * Pow256(4);
    assert Pow256(8) == 0x100 * 0x100 * Pow256(6);
  }

  function ReadFixed64(t: Bytes): (r: Option<(Uint64, Bytes)>)
    ensures r.Some? ==> |r.value.1| < |t|
  {
    if |t| < 8 then None
    else
      FromLittleEndianBound(t[..8]);
      Pow256Of8();
      Some((FromLittleEndian(t[..8]), t[8..]))
  }

  /** Conversion of uint64 to int. */
  function Signed(u: Uint64): Int64 { if u < TWO_63 then u else u - TWO_64 }

  function PutString(s: Bytes): Bytes
    requires |s| < TWO_64
  {
    PutUvarint(|s|) + s
  }

  function ReadString(t: Bytes): (r: Option<(Bytes, Bytes)>)
    ensures r.Some? ==> |r.value.1| < |t|
  {
    match ReadUvarint(t)
    case None => None
    case Some((u, rest)) =>
      var n := Signed(u);
      if n < 0 || n > |rest| then None else Some((rest[..n], rest[n..]))
  }

  // ---- Reading undoes writing ----

  lemma {:induction false} UvarintRoundTrip(v: Uint64, k: nat, rest: Bytes)
    requires k <= 9 && v < Limit(k)
    ensures UvarintFrom(PutUvarint(v) + rest, k) == Some((v, rest))
    decreases 9 - k
  {
    var t := PutUvarint(v) + rest;
    if v < 0x80 {
      assert t[1..] == rest;
    } else {
      UvarintRoundTrip(v / 0x80, k + 1, rest);
      assert t[1..] == PutUvarint(v / 0x80) + rest;
    }
  }

  lemma ReadPutUvarint(v: Uint64, rest: Bytes)
    ensures ReadUvarint(PutUvarint(v) + rest) == Some((v, rest))
  {
    LimitIs64Bit();
    UvarintRoundTrip(v, 0, rest);
  }

  lemma ReadPutVarint(x: Int64, rest: Bytes)
    ensures ReadVarint(PutVarint(x) + rest) == Some((x, rest))
  {
    ReadPutUvarint(ZigZag(x), rest);
  }

  lemma {:induction false} LittleEndianRoundTrip(v: nat, n: nat)
    requires v < Pow256(n)
    ensures FromLittleEndian(LittleEndian(v, n)) == v
  {
    if n > 0 {
      assert v / 0x100 < Pow256(n - 1);
      LittleEndianRoundTrip(v / 0x100, n - 1);
      assert LittleEndian(v, n)[1..] == LittleEndian(v / 0x100, n - 1);
    }
  }

  lemma ReadPutFixed64(v: Uint64, rest: Bytes)
    ensures ReadFixed64(LittleEndian(v, 8) + rest) == Some((v, rest))
  {
    Pow256Of8();
    LittleEndianRoundTrip(v, 8);
    assert (LittleEndian(v, 8) + rest)[..8] == LittleEndian(v, 8);
    assert (LittleEndian(v, 8) + rest)[8..] == rest;
  }

  lemma ReadPutString(s: Bytes, rest: Bytes)
    requires |s| < TWO_63
    ensures ReadString(PutString(s) + rest) == Some((s, rest))
  {
    assert PutString(s) + rest == PutUvarint(|s|) + (s + rest);
    ReadPutUvarint(|s|, s + rest);
    assert (s + rest)[..|s|] == s && (s + rest)[|s|..] == rest;
  }

  // ---- Series records ----

  /** Lengths that survive the conversion to int. */
  ghost predicate Encodable(ls: LabelList) {
    |ls| < TWO_63 && forall i :: 0 <= i < |ls| ==> |ls[i].name| < TWO_63 && |ls[i].value| < TWO_63
  }

  function PutLabels(ls: LabelList): Bytes
    requires Encodable(ls)
  {
    if ls == [] then [] else PutString(ls[0].name) + PutString(ls[0].value) + PutLabels(ls[1..])
  }

  function SeriesPayload(ref: Uint64, ls: LabelList): Bytes
    requires Encodable(ls)
  {
    PutUvarint(ref) + PutUvarint(|ls|) + PutLabels(ls)
  }

  function ReadLabel(t: Bytes): (r: Option<(Label, Bytes)>)
    ensures r.Some? ==> |r.value.1| < |t|
  {
    match ReadString(t)
    case None => None
    case Some((name, rest)) =>
      match ReadString(rest)
      case None => None
      case Some((val, rest)) => Some((Label(name, val), rest))
  }

  function ReadLabels(t: Bytes, n: nat): Option<LabelList>
    decreases n
  {
    if n == 0 then Some([])
    else
      match ReadLabel(t)
      case None => None
      case Some((l, rest)) =>
        match ReadLabels(rest, n - 1)
        case None => None
        case Some(ls) => Some([l] + ls)
  }

  function DecodedSeries(b: Bytes): Option<(Uint64, LabelList)> {
    match ReadUvarint(b)
    case None => None
    case Some((ref, rest)) =>
      match ReadUvarint(rest)
      case None => None
      case Some((u, rest)) =>
        var n := Signed(u);
        if n < 0 || n > |b| then None
        else
          match ReadLabels(rest, n)
          case None => None
          case Some(ls) => Some((ref, Normalized(ls)))
  }

  lemma ReadPutLabel(l: Label, more: Bytes)
    requires |l.name| < TWO_63 && |l.value| < TWO_63
    ensures ReadLabel(PutString(l.name) + (PutString(l.value) + more)) == Some((l, more))
  {
    hide ReadString;
    hide PutString;
    ReadPutString(l.name, PutString(l.value) + more);
    ReadPutString(l.value, more);
  }

  lemma {:induction false} ReadPutLabels(ls: LabelList, rest: Bytes)
    requires Encodable(ls)
    ensures ReadLabels(PutLabels(ls) + rest, |ls|) == Some(ls)
  {
    hide ReadLabel;
    hide PutString;
    if ls != [] {
      var l := ls[0];
      var more := PutLabels(ls[1..]) + rest;
      assert PutLabels(ls) + rest == PutString(l.name) + (PutString(l.value) + more);
      ReadPutLabel(l, more);
      ReadPutLabels(ls[1..], rest);
      assert ls == [l] + ls[1..];
    }
  }

  lemma PutUvarintNonEmpty(v: Uint64)
    ensures |PutUvarint(v)| >= 1
  {
  }

  lemma {:induction false} PutLabelsLength(ls: LabelList)
    requires Encodable(ls)
    ensures |PutLabels(ls)| >= 2 * |ls|
    ensures forall i :: 0 <= i < |ls| ==> |ls[i].name| + |ls[i].value| <= |PutLabels(ls)|
  {
    if ls != [] {
      PutUvarintNonEmpty(|ls[0].name|);
      PutUvarintNonEmpty(|ls[0].value|);
      PutLabelsLength(ls[1..]);
      forall i | 0 <= i < |ls| ensures |ls[i].name| + |ls[i].value| <= |PutLabels(ls)| {
        if i > 0 {
          assert ls[i] == ls[1..][i - 1];
        }
      }
    }
  }

  /** Decoding an encoded series gives back its ref and labels. */
  lemma SeriesRoundTrip(ref: Uint64, ls: LabelList)
    requires Encodable(ls) && Canonical(ls)
    ensures DecodedSeries(SeriesPayload(ref, ls)) == Some((ref, ls))
  {
    var b := SeriesPayload(ref, ls);
    assert b == PutUvarint(ref) + (PutUvarint(|ls|) + PutLabels(ls));
    ReadPutUvarint(ref, PutUvarint(|ls|) + PutLabels(ls));
    ReadPutUvarint(|ls|, PutLabels(ls));
    PutLabelsLength(ls);
    assert PutLabels(ls) + [] == PutLabels(ls);
    ReadPutLabels(ls, []);
    NormalizedFixed(ls);
  }

  // ---- Sample records ----

  function PutSample(s: RefSample): Bytes {
    PutUvarint(s.ref) + PutVarint(s.t) + LittleEndian(s.v, 8)
  }

  function PutSamples(samples: seq<RefSample>): Bytes {
    if samples == [] then [] else PutSample(samples[0]) + PutSamples(samples[1..])
  }

  function SamplesPayload(samples: seq<RefSample>): Bytes
    requires |samples| < TWO_63
  {
    PutUvarint(|samples|) + PutSamples(samples)
  }

  function ReadSample(t: Bytes): (r: Option<(RefSample, Bytes)>)
    ensures r.Some? ==> |r.value.1| < |t|
  {
    match ReadUvarint(t)
    case None => None
    case Some((ref, rest)) =>
      match ReadVarint(rest)
      case None => None
      case Some((ts, rest)) =>
        match ReadFixed64(rest)
        case None => None
        case Some((v, rest)) => Some((RefSample(ref, ts, v), rest))
  }

  function ReadSamples(t: Bytes, n: nat): Option<seq<RefSample>>
    decreases n
  {
    if n == 0 then Some([])
    else
      match ReadSample(t)
      case None => None
      case Some((s, rest)) =>
        match ReadSamples(rest, n - 1)
        case None => None
        case Some(ss) => Some([s] + ss)
  }

  function DecodedSamples(b: Bytes): Option<seq<RefSample>> {
    match ReadUvarint(b)
    case None => None
    case Some((u, rest)) => if Signed(u) < 0 then None else ReadSamples(rest, Signed(u))
  }

  lemma ReadPutSample(s: RefSample, rest: Bytes)
    ensures ReadSample(PutSample(s) + rest) == Some((s, rest))
  {
    hide ReadUvarint;
    hide ReadVarint;
    hide ReadFixed64;
    hide PutUvarint;
    var fixed := LittleEndian(s.v, 8) + rest;
    assert PutSample(s) + rest == PutUvarint(s.ref) + (PutVarint(s.t) + fixed);
    ReadPutUvarint(s.ref, PutVarint(s.t) + fixed);
    ReadPutVarint(s.t, fixed);
    ReadPutFixed64(s.v, rest);
  }

  lemma {:induction false} ReadPutSamples(samples: seq<RefSample>, rest: Bytes)
    ensures ReadSamples(PutSamples(samples) + rest, |samples|) == Some(samples)
  {
    hide ReadSample;
    hide PutSample;
    if samples != [] {
      var more := PutSamples(samples[1..]) + rest;
      assert PutSamples(samples) + rest == PutSample(samples[0]) + more;
      ReadPutSample(samples[0], more);
      ReadPutSamples(samples[1..], rest);
      assert samples == [samples[0]] + samples[1..];
    }
  }

  /** Decoding an encoded batch gives back its samples in order. */
  lemma SamplesRoundTrip(samples: seq<RefSample>)
    requires |samples| < TWO_63
    ensures DecodedSamples(SamplesPayload(samples)) == Some(samples)
  {
    ReadPutUvarint(|samples|, PutSamples(samples));
    assert PutSamples(samples) + [] == PutSamples(samples);
    ReadPutSamples(samples, []);
  }

  // ---- Writing, one value after the other ----

  lemma {:induction false} PutLabelsSnoc(ls: LabelList, l: Label)
    requires Encodable(ls + [l])
    requires Encodable(ls) && |l.name| < TWO_63 && |l.value| < TWO_63
    ensures PutLabels(ls + [l]) == PutLabels(ls) + (PutString(l.name) + PutString(l.value))
  {
    if ls != [] {
      assert (ls + [l])[1..] == ls[1..] + [l];
      PutLabelsSnoc(ls[1..], l);
    }
  }

  method EncodeSeries(ref: Uint64, ls: LabelList) returns (buf: Bytes)
    requires Encodable(ls)
    ensures buf == SeriesPayload(ref, ls)
  {
    buf := PutUvarint(ref) + PutUvarint(|ls|);
    ghost var header := buf;
    for i := 0 to |ls|
      invariant buf == header + PutLabels(ls[..i])
    {
      assert ls[..i + 1] == ls[..i] + [ls[i]];
      PutLabelsSnoc(ls[..i], ls[i]);
      buf := buf + (PutString(ls[i].name) + PutString(ls[i].value));
    }
    assert ls[..|ls|] == ls;
  }

  lemma {:induction false} PutSamplesSnoc(samples: seq<RefSample>, s: RefSample)
    ensures PutSamples(samples + [s]) == PutSamples(samples) + PutSample(s)
  {
    if samples != [] {
      assert (samples + [s])[1..] == samples[1..] + [s];
      PutSamplesSnoc(samples[1..], s);
    }
  }

  method EncodeSamples(samples: seq<RefSample>) returns (buf: Bytes)
    requires |samples| < TWO_63
    ensures buf == SamplesPayload(samples)
  {
    buf := PutUvarint(|samples|);
    ghost var header := buf;
    for i := 0 to |samples|
      invariant buf == header + PutSamples(samples[..i])
    {
      assert samples[..i + 1] == samples[..i] + [samples[i]];
      PutSamplesSnoc(samples[..i], samples[i]);
      var s := samples[i];
      buf := buf + (PutUvarint(s.ref) + PutVarint(s.t) + LittleEndian(s.v, 8));
    }
    assert samples[..|samples|] == samples;
  }

  // ---- The decoder: a cursor that remembers its first error ----

  /** One read applied to what is left, unless an earlier read failed; a failure yields `zero`. */
  ghost function Step<T>(left: Option<Bytes>, read: Bytes -> Option<(T, Bytes)>, zero: T): (T, Option<Bytes>) {
    match left
    case None => (zero, None)
    case Some(t) =>
      match read(t)
      case None => (zero, None)
      case Some((v, rest)) => (v, Some(rest))
  }

  class Decoder {
    const b: Bytes
    var i: nat
    var err: bool

    constructor (payload: Bytes)
      ensures b == payload && Valid() && Left() == Some(payload)
    {
      b, i, err := payload, 0, false;
      new;
      assert b[0..] == b;
    }

    ghost predicate Valid()
      reads this
    {
      i <= |b|
    }

    /** What is left to read; nothing once a read has failed. */
    ghost function Left(): Option<Bytes>
      reads this
      requires Valid()
    {
      if err then None else Some(b[i..])
    }

    method Uvarint() returns (v: Uint64)
      requires Valid()
      modifies this
      ensures Valid() && (v, Left()) == Step(old(Left()), ReadUvarint, 0)
    {
      hide UvarintFrom;
      if err {
        return 0;
      }
      match ReadUvarint(b[i..]) {
        case None =>
          err := true;
          v := 0;
        case Some((x, rest)) =>
          UvarintIsSuffix(b[i..], 0);
          i := |b| - |rest|;
          v := x;
      }
    }

    method Varint() returns (v: Int64)
      requires Valid()
      modifies this
      ensures Valid() && (v, Left()) == Step(old(Left()), ReadVarint, 0)
    {
      hide UvarintFrom;
      if err {
        return 0;
      }
      match ReadVarint(b[i..]) {
        case None =>
          err := true;
          v := 0;
        case Some((x, rest)) =>
          UvarintIsSuffix(b[i..], 0);
          i := |b| - |rest|;
          v := x;
      }
    }

    method Fixed64() returns (v: Uint64)
      requires Valid()
      modifies this
      ensures Valid() && (v, Left()) == Step(old(Left()), ReadFixed64, 0)
    {
      if err {
        return 0;
      }
      if i + 8 > |b| {
        err := true;
        return 0;
      }
      FromLittleEndianBound(b[i..i + 8]);
      Pow256Of8();
      assert b[i..][..8] == b[i..i + 8] && b[i..][8..] == b[i + 8..];
      v := FromLittleEndian(b[i..i + 8]);
      i := i + 8;
    }

    method Str() returns (s: Bytes)
      requires Valid()
      modifies this
      ensures Valid() && (s, Left()) == Step(old(Left()), ReadString, [])
    {
      var u := Uvarint();
      if err {
        return [];
      }
      var n := Signed(u);
      if n < 0 || i + n > |b| {
        err := true;
        return [];
      }
      assert b[i..][..n] == b[i..i + n] && b[i..][n..] == b[i + n..];
      s := b[i..i + n];
      i := i + n;
    }
  }

  lemma {:induction false} UvarintIsSuffix(t: Bytes, k: nat)
    requires k <= 10
    ensures match UvarintFrom(t, k)
            case None => true
            case Some((_, rest)) => |rest| <= |t| && rest == t[|t| - |rest|..]
    decreases 10 - k
  {
    if k < 10 && t != [] && t[0] >= 0x80 {
      UvarintIsSuffix(t[1..], k + 1);
    }
  }

  /** The label loop of decodeSeries from its i-th round on. */
  ghost function LabelsFrom(left: Option<Bytes>, done: LabelList, n: nat): (r: Option<LabelList>)
    ensures done == [] && left.Some? ==> r == ReadLabels(left.value, n)
  {
    match left
    case None => None
    case Some(t) =>
      match ReadLabels(t, n)
      case None => None
      case Some(ls) => assert done == [] ==> done + ls == ls; Some(done + ls)
  }

  /** Decoding a series payload read by read. */
  lemma SeriesBySteps(payload: Bytes)
    ensures var (ref, afterRef) := Step(Some(payload), ReadUvarint, 0);
            var (u, left) := Step(afterRef, ReadUvarint, 0);
            DecodedSeries(payload) ==
            if left.None? || Signed(u) < 0 || Signed(u) > |payload| then None
            else
              match LabelsFrom(left, [], Signed(u))
              case None => None
              case Some(ls) => Some((ref, Normalized(ls)))
  {
    hide ReadUvarint;
    hide ReadLabels;
    hide Normalized;
    hide Signed;
  }

  method DecodeSeries(payload: Bytes) returns (r: Option<(Uint64, LabelList)>)
    ensures r == DecodedSeries(payload)
  {
    hide ReadUvarint;
    hide Normalized;
    hide DecodedSeries;
    hide Step;
    hide LabelsFrom;
    hide Signed;
    SeriesBySteps(payload);
    var d := new Decoder(payload);
    assert payload[0..] == payload;
    var ref := d.Uvarint();
    var u := d.Uvarint();
    var n := Signed(u);
    if d.err || n < 0 || n > |payload| {
      return None;
    }
    var pairs := ReadAllLabels(d, n);
    if d.err {
      return None;
    }
    return Some((ref, Normalized(pairs)));
  }

  method ReadAllLabels(d: Decoder, n: nat) returns (pairs: LabelList)
    requires d.Valid() && !d.err
    modifies d
    ensures d.Valid()
    ensures LabelsFrom(old(d.Left()), [], n) == if d.err then None else Some(pairs)
  {
    hide ReadString;
    pairs := [];
    ghost var all := LabelsFrom(d.Left(), [], n);
    for i := 0 to n
      invariant d.Valid()
      invariant all == LabelsFrom(d.Left(), pairs, n - i)
    {
      ghost var left, before := d.Left(), pairs;
      var name := d.Str();
      var val := d.Str();
      pairs := pairs + [Label(name, val)];
      LabelsFromStep(left, before, n - i);
    }
    assert pairs + [] == pairs;
  }

  lemma LabelsFromStep(left: Option<Bytes>, done: LabelList, n: nat)
    requires n > 0
    ensures var (name, mid) := Step(left, ReadString, []);
            var (val, rest) := Step(mid, ReadString, []);
            LabelsFrom(left, done, n) == LabelsFrom(rest, done + [Label(name, val)], n - 1)
  {
    hide ReadString;
    var (name, mid) := Step(left, ReadString, []);
    var (val, rest) := Step(mid, ReadString, []);
    if rest.Some? && ReadLabels(rest.value, n - 1).Some? {
      var ls := ReadLabels(rest.value, n - 1).value;
      assert done + ([Label(name, val)] + ls) == done + [Label(name, val)] + ls;
    }
  }

  /** Decoding a samples payload read by read. */
  lemma SamplesBySteps(payload: Bytes)
    ensures var (u, left) := Step(Some(payload), ReadUvarint, 0);
            DecodedSamples(payload) ==
            if left.None? || Signed(u) < 0 then None else SamplesFrom(left, [], Signed(u))
  {
    hide ReadUvarint;
    hide ReadSamples;
    hide Signed;
  }

  lemma SamplesFromEnd(left: Bytes, done: seq<RefSample>)
    ensures SamplesFrom(Some(left), done, 0) == Some(done)
  {
    assert done + [] == done;
  }

  /** One sample, read by read. */
  ghost function SampleStep(left: Option<Bytes>): (RefSample, Option<Bytes>) {
    var (ref, l1) := Step(left, ReadUvarint, 0);
    var (t, l2) := Step(l1, ReadVarint, 0);
    var (v, l3) := Step(l2, ReadFixed64, 0);
    (RefSample(ref, t, v), l3)
  }

  method NextSample(d: Decoder) returns (s: RefSample)
    requires d.Valid()
    modifies d
    ensures d.Valid() && (s, d.Left()) == SampleStep(old(d.Left()))
    ensures d.err <==> d.Left().None?
  {
    hide Step;
    hide ReadUvarint;
    hide ReadVarint;
    hide ReadFixed64;
    var ref := d.Uvarint();
    var t := d.Varint();
    var bits := d.Fixed64();
    s := RefSample(ref, t, bits);
  }

  method DecodeSamples(payload: Bytes) returns (r: Option<seq<RefSample>>)
    ensures r == DecodedSamples(payload)
  {
    hide ReadUvarint;
    hide DecodedSamples;
    hide SamplesFrom;
    hide Step;
    hide Signed;
    SamplesBySteps(payload);
    var d := new Decoder(payload);
    assert payload[0..] == payload;
    var u := d.Uvarint();
    var n := Signed(u);
    if d.err || n < 0 {
      return None;
    }
    r := ReadAllSamples(d, n);
  }

  /** The loop: n samples, or nothing at the first that cannot be read. */
  method ReadAllSamples(d: Decoder, n: nat) returns (r: Option<seq<RefSample>>)
    requires d.Valid() && !d.err
    modifies d
    ensures r == SamplesFrom(old(d.Left()), [], n)
  {
    assert d.Left().Some?;
    hide *;
    var out: seq<RefSample> := [];
    ghost var left := d.Left();
    ghost var all := SamplesFrom(left, out, n);
    for i := 0 to n
      invariant d.Valid() && d.Left() == left && left.Some?
      invariant all == SamplesFrom(left, out, n - i)
    {
      SamplesFromStep(left, out, n - i);
      var s := NextSample(d);
      left := d.Left();
      if d.err {
        return None;
      }
      out := out + [s];
    }
    SamplesFromEnd(left.value, out);
    return Some(out);
  }

  ghost function SamplesFrom(left: Option<Bytes>, done: seq<RefSample>, n: nat): (r: Option<seq<RefSample>>)
    ensures done == [] && left.Some? ==> r == ReadSamples(left.value, n)
  {
    match left
    case None => None
    case Some(t) =>
      match ReadSamples(t, n)
      case None => None
      case Some(ss) => assert done == [] ==> done + ss == ss; Some(done + ss)
  }

  lemma SamplesFromStep(left: Option<Bytes>, done: seq<RefSample>, n: nat)
    requires n > 0
    ensures var (x, rest) := SampleStep(left);
            && SamplesFrom(left, done, n) == SamplesFrom(rest, done + [x], n - 1)
            && (rest.None? ==> SamplesFrom(left, done, n) == None)
  {
    hide ReadUvarint;
    hide ReadVarint;
    hide ReadFixed64;
    var (ref, l1) := Step(left, ReadUvarint, 0);
    var (t, l2) := Step(l1, ReadVarint, 0);
    var (v, l3) := Step(l2, ReadFixed64, 0);
    if l3.Some? && ReadSamples(l3.value, n - 1).Some? {
      var ss := ReadSamples(l3.value, n - 1).value;
      assert done + ([RefSample(ref, t, v)] + ss) == done + [RefSample(ref, t, v)] + ss;
    }
  }
}
