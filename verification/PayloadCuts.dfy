/** A payload that was cut short is refused, wherever the cut is. */
module PayloadCuts {
  import opened Base
  import opened Labels
  import opened WalCodec

  /** Cutting s + rest before s ends leaves a part of s, and behind its end all of s and a part of rest. */
  lemma CutParts(s: Bytes, rest: Bytes, k: nat)
    requires k <= |s + rest|
    ensures k <= |s| ==> (s + rest)[..k] == s[..k]
    ensures k >= |s| ==> (s + rest)[..k] == s + rest[..k - |s|]
  {
  }

  lemma {:induction false} UvarintCutFrom(v: Uint64, j: nat, k: nat)
    requires j <= 10 && k < |PutUvarint(v)|
    ensures UvarintFrom(PutUvarint(v)[..k], j) == None
    decreases v
  {
    if k > 0 && j < 10 {
      var t, rest := PutUvarint(v)[..k], PutUvarint(v / 0x80);
      assert t[1..] == rest[..k - 1];
      UvarintCutFrom(v / 0x80, j + 1, k - 1);
    }
  }

  lemma UvarintCut(v: Uint64, rest: Bytes, k: nat)
    requires k <= |PutUvarint(v) + rest|
    ensures var n, r := |PutUvarint(v)|, ReadUvarint((PutUvarint(v) + rest)[..k]);
            if k < n then r == None else r == Some((v, rest[..k - n]))
  {
    CutParts(PutUvarint(v), rest, k);
    if k < |PutUvarint(v)| {
      UvarintCutFrom(v, 0, k);
    } else {
      ReadPutUvarint(v, rest[..k - |PutUvarint(v)|]);
    }
  }

  lemma StringCut(s: Bytes, rest: Bytes, k: nat)
    requires |s| < TWO_63 && k <= |PutString(s) + rest|
    ensures var n, r := |PutString(s)|, ReadString((PutString(s) + rest)[..k]);
            if k < n then r == None else r == Some((s, rest[..k - n]))
  {
    var head := PutUvarint(|s|);
    assert PutString(s) + rest == head + (s + rest);
    UvarintCut(|s|, s + rest, k);
    hide ReadUvarint;
    if k >= |head| {
      var m := k - |head|;
      CutParts(s, rest, m);
      if m >= |s| {
        var t := s + rest[..m - |s|];
        assert t[..|s|] == s && t[|s|..] == rest[..m - |s|];
      }
    }
  }

  lemma LabelCut(l: Label, rest: Bytes, k: nat)
    requires |l.name| < TWO_63 && |l.value| < TWO_63
    requires k <= |PutString(l.name) + (PutString(l.value) + rest)|
    ensures var n := |PutString(l.name) + PutString(l.value)|;
            var r := ReadLabel((PutString(l.name) + (PutString(l.value) + rest))[..k]);
            if k < n then r == None else r == Some((l, rest[..k - n]))
  {
    hide ReadString;
    hide PutString;
    var more := PutString(l.value) + rest;
    StringCut(l.name, more, k);
    if k >= |PutString(l.name)| {
      StringCut(l.value, rest, k - |PutString(l.name)|);
    }
  }

  lemma {:induction false} LabelsCut(ls: LabelList, k: nat)
    requires Encodable(ls) && k < |PutLabels(ls)|
    ensures ReadLabels(PutLabels(ls)[..k], |ls|) == None
  {
    hide ReadLabel;
    hide PutString;
    var l, rest := ls[0], PutLabels(ls[1..]);
    var n := |PutString(l.name) + PutString(l.value)|;
    assert PutLabels(ls) == PutString(l.name) + (PutString(l.value) + rest);
    LabelCut(l, rest, k);
    if k >= n {
      LabelsCut(ls[1..], k - n);
    }
  }

  /** A series payload cut anywhere is refused. */
  lemma SeriesCut(ref: Uint64, ls: LabelList, k: nat)
    requires Encodable(ls) && k < |SeriesPayload(ref, ls)|
    ensures DecodedSeries(SeriesPayload(ref, ls)[..k]) == None
  {
    var a, b, c := PutUvarint(ref), PutUvarint(|ls|), PutLabels(ls);
    assert SeriesPayload(ref, ls) == a + (b + c);
    UvarintCut(ref, b + c, k);
    if k >= |a| {
      UvarintCut(|ls|, c, k - |a|);
      if k >= |a| + |b| {
        LabelsCut(ls, k - |a| - |b|);
      }
    }
    hide ReadUvarint;
    hide PutUvarint;
    hide ReadLabels;
    hide PutLabels;
  }

  lemma VarintCut(x: Int64, rest: Bytes, k: nat)
    requires k <= |PutVarint(x) + rest|
    ensures var n, r := |PutVarint(x)|, ReadVarint((PutVarint(x) + rest)[..k]);
            if k < n then r == None else r == Some((x, rest[..k - n]))
  {
    UvarintCut(ZigZag(x), rest, k);
    hide ReadUvarint;
  }

  lemma FixedCut(v: Uint64, rest: Bytes, k: nat)
    requires k <= |LittleEndian(v, 8) + rest|
    ensures var r := ReadFixed64((LittleEndian(v, 8) + rest)[..k]);
            if k < 8 then r == None else r == Some((v, rest[..k - 8]))
  {
    CutParts(LittleEndian(v, 8), rest, k);
    if k >= 8 {
      ReadPutFixed64(v, rest[..k - 8]);
    }
  }

  lemma SampleParts(s: RefSample, rest: Bytes)
    ensures var a, b, c := PutUvarint(s.ref), PutVarint(s.t), LittleEndian(s.v, 8);
            PutSample(s) + rest == a + (b + (c + rest)) && |PutSample(s)| == |a| + |b| + 8
  {
    hide PutUvarint;
    hide PutVarint;
    hide LittleEndian;
  }

  lemma SampleCut(s: RefSample, rest: Bytes, k: nat)
    requires k <= |PutSample(s) + rest|
    ensures var n, r := |PutSample(s)|, ReadSample((PutSample(s) + rest)[..k]);
            if k < n then r == None else r == Some((s, rest[..k - n]))
  {
    hide ReadUvarint;
    hide ReadVarint;
    hide ReadFixed64;
    hide PutUvarint;
    hide PutVarint;
    hide LittleEndian;
    var a, b, c := PutUvarint(s.ref), PutVarint(s.t), LittleEndian(s.v, 8);
    SampleParts(s, rest);
    hide PutSample;
    UvarintCut(s.ref, b + (c + rest), k);
    if k >= |a| {
      VarintCut(s.t, c + rest, k - |a|);
      if k >= |a| + |b| {
        FixedCut(s.v, rest, k - |a| - |b|);
      }
    }
  }

  lemma {:induction false} SamplesCutFrom(ss: seq<RefSample>, k: nat)
    requires k < |PutSamples(ss)|
    ensures ReadSamples(PutSamples(ss)[..k], |ss|) == None
  {
    hide ReadSample;
    hide PutSample;
    SampleCut(ss[0], PutSamples(ss[1..]), k);
    if k >= |PutSample(ss[0])| {
      SamplesCutFrom(ss[1..], k - |PutSample(ss[0])|);
    }
  }

  /** A samples payload cut anywhere is refused. */
  lemma SamplesCut(ss: seq<RefSample>, k: nat)
    requires |ss| < TWO_63 && k < |SamplesPayload(ss)|
    ensures DecodedSamples(SamplesPayload(ss)[..k]) == None
  {
    var a, b := PutUvarint(|ss|), PutSamples(ss);
    UvarintCut(|ss|, b, k);
    if k >= |a| {
      SamplesCutFrom(ss, k - |a|);
    }
    hide ReadUvarint;
    hide PutUvarint;
    hide ReadSamples;
    hide PutSamples;
  }
}
