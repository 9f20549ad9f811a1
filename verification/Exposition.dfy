/** The sample-line parser of the text exposition format, and its inverse, Labels.Text. */
module Exposition {
  import opened Base
  import opened Labels

  datatype Series = Series(labels: LabelList, value: Uint64, timestamp: Option<Int64>)

  /** The number conversions of the standard library, on the bytes of one token. */
  datatype Numbers = Numbers(parseFloat: Bytes -> Option<Uint64>, parseInt: Bytes -> Option<Int64>)

  const SPACE: byte := 32
  const TAB: byte := 9

  predicate IsBlank(b: byte) { b == SPACE || b == TAB }

  /** The ASCII white space that strings.TrimSpace removes. */
  predicate IsTrimmed(b: byte) { b == SPACE || 9 <= b <= 13 }

  predicate AllTrimmed(t: Bytes) { forall i :: 0 <= i < |t| ==> IsTrimmed(t[i]) }

  predicate IsLabelNameStart(b: byte) { b == 95 || 97 <= b <= 122 || 65 <= b <= 90 }

  predicate IsLabelNameCont(b: byte) { IsLabelNameStart(b) || 48 <= b <= 57 }

  predicate IsNameStart(b: byte) { b == 58 || IsLabelNameStart(b) }

  predicate IsNameCont(b: byte) { IsNameStart(b) || 48 <= b <= 57 }

  predicate ValidLabelName(n: Bytes) {
    n != [] && IsLabelNameStart(n[0]) && forall i :: 1 <= i < |n| ==> IsLabelNameCont(n[i])
  }

  predicate ValidMetricName(n: Bytes) {
    n != [] && IsNameStart(n[0]) && forall i :: 1 <= i < |n| ==> IsNameCont(n[i])
  }

  // ---- What each cursor operation reads from the text that is left ----

  /** Length of the longest prefix whose bytes satisfy p. */
  function Span(p: byte -> bool, t: Bytes): (n: nat)
    ensures n <= |t|
    ensures forall i :: 0 <= i < n ==> p(t[i])
    ensures n < |t| ==> !p(t[n])
  {
    if t == [] || !p(t[0]) then 0 else 1 + Span(p, t[1..])
  }

  function AfterBlanks(t: Bytes): (r: Bytes)
    ensures |r| <= |t|
  {
    t[Span(IsBlank, t)..]
  }

  function TokenLength(t: Bytes): (n: nat)
    ensures n <= |t|
  {
    Span(b => !IsBlank(b), t)
  }

  predicate StartsWith(t: Bytes, b: byte) { t != [] && t[0] == b }

  function Unescaped(b: byte): byte { if b == LOWER_N then NEWLINE else b }

  /** The value up to the closing quote, and what follows the quote. */
  function Unquote(t: Bytes): (r: Option<(Bytes, Bytes)>)
    ensures r.Some? ==> |r.value.1| < |t|
  {
    if t == [] then None
    else if t[0] == QUOTE then Some(([], t[1..]))
    else if t[0] == BACKSLASH then
      if |t| < 2 then None
      else PutFront(Unescaped(t[1]), Unquote(t[2..]))
    else PutFront(t[0], Unquote(t[1..]))
  }

  function PutFront(b: byte, r: Option<(Bytes, Bytes)>): Option<(Bytes, Bytes)> {
    match r
    case None => None
    case Some((v, rest)) => Some(([b] + v, rest))
  }

  function ReadLabelName(t: Bytes): (r: Option<(Bytes, Bytes)>)
    ensures r.Some? ==> |r.value.1| < |t|
  {
    if t == [] || !IsLabelNameStart(t[0]) then None
    else
      var n := 1 + Span(IsLabelNameCont, t[1..]);
      Some((t[..n], t[n..]))
  }

  /** Blanks, a given byte, blanks. */
  function ReadByte(b: byte, t: Bytes): (r: Option<Bytes>)
    ensures r.Some? ==> |r.value| < |t|
  {
    var t := AfterBlanks(t);
    if StartsWith(t, b) then Some(AfterBlanks(t[1..])) else None
  }

  function ReadQuoted(t: Bytes): (r: Option<(Bytes, Bytes)>)
    ensures r.Some? ==> |r.value.1| < |t|
  {
    if StartsWith(t, QUOTE) then Unquote(t[1..]) else None
  }

  /** One name="value" pair and what follows it. */
  function ReadPair(t: Bytes): (r: Option<(Label, Bytes)>)
    ensures r.Some? ==> |r.value.1| < |t|
  {
    match ReadLabelName(t)
    case None => None
    case Some((name, rest)) =>
      match ReadByte(EQUALS, rest)
      case None => None
      case Some(afterEquals) =>
        match ReadQuoted(afterEquals)
        case None => None
        case Some((v, rest)) => Some((Label(name, v), rest))
  }

  /** The pairs up to the closing brace, and what follows the brace. */
  function ReadPairs(t: Bytes): (r: Option<(LabelList, Bytes)>)
    decreases |t|
  {
    var t := AfterBlanks(t);
    if StartsWith(t, CLOSE_BRACE) then Some(([], t[1..]))
    else
      match ReadPair(t)
      case None => None
      case Some((l, rest)) =>
        var rest := AfterBlanks(rest);
        if StartsWith(rest, CLOSE_BRACE) then Some(([l], rest[1..]))
        else if StartsWith(rest, COMMA) then
          match ReadPairs(rest[1..])
          case None => None
          case Some((ls, end)) => Some(([l] + ls, end))
        else None
  }

  /** A metric name and what follows it. */
  function ReadMetric(t: Bytes): Option<(Bytes, Bytes)> {
    var t := AfterBlanks(t);
    if t == [] || !IsNameStart(t[0]) then None
    else
      var n := 1 + Span(IsNameCont, t[1..]);
      Some((t[..n], t[n..]))
  }

  function ReadOptionalPairs(t: Bytes): Option<(LabelList, Bytes)> {
    if StartsWith(t, OPEN_BRACE) then
      match ReadPairs(t[1..])
      case None => None
      case Some((ls, rest)) => Some((ls, AfterBlanks(rest)))
    else Some(([], t))
  }

  /** A whole line: name{labels} value [timestamp]. */
  function ReadSample(numbers: Numbers, line: Bytes): Option<Series> {
    match ReadMetric(line)
    case None => None
    case Some((name, afterName)) =>
      match ReadOptionalPairs(AfterBlanks(afterName))
      case None => None
      case Some((pairs, rest)) => ReadNumbers(numbers, Normalized([Label(METRIC_NAME, name)] + Without(pairs, METRIC_NAME)), rest)
  }

  function ReadNumbers(numbers: Numbers, labels: LabelList, t: Bytes): Option<Series> {
    var t := AfterBlanks(t);
    var n := TokenLength(t);
    if n == 0 || numbers.parseFloat(t[..n]).None? then None
    else
      var value := numbers.parseFloat(t[..n]).value;
      var u := AfterBlanks(t[n..]);
      var k := TokenLength(u);
      if k == 0 then Some(Series(labels, value, None))
      else if numbers.parseInt(u[..k]).None? then None
      else if !AllTrimmed(u[k..]) then None
      else Some(Series(labels, value, Some(numbers.parseInt(u[..k]).value)))
  }

  // ---- Parsing undoes Labels.Text ----

  lemma {:induction false} SpanOf(p: byte -> bool, n: Bytes, rest: Bytes)
    requires forall i :: 0 <= i < |n| ==> p(n[i])
    requires rest == [] || !p(rest[0])
    ensures Span(p, n + rest) == |n|
  {
    if n == [] {
      assert n + rest == rest;
    } else {
      SpanOf(p, n[1..], rest);
      assert (n + rest)[1..] == n[1..] + rest;
    }
  }

  /** Reading one escaped byte gives that byte. */
  lemma UnquoteByte(c: byte, u: Bytes)
    ensures Unquote(EscapeByte(c) + u) == PutFront(c, Unquote(u))
  {
    var e := EscapeByte(c);
    assert (e + u)[|e|..] == u;
  }

  lemma {:induction false} UnquoteEscaped(v: Bytes, rest: Bytes)
    ensures Unquote(Escaped(v) + [QUOTE] + rest) == Some((v, rest))
  {
    if v == [] {
      assert ([QUOTE] + rest)[1..] == rest;
      assert Escaped(v) + [QUOTE] + rest == [QUOTE] + rest;
    } else {
      hide Unquote;
      hide EscapeByte;
      UnquoteEscaped(v[1..], rest);
      var u := Escaped(v[1..]) + [QUOTE] + rest;
      assert Escaped(v) + [QUOTE] + rest == EscapeByte(v[0]) + u;
      UnquoteByte(v[0], u);
      assert v == [v[0]] + v[1..];
    }
  }

  lemma ReadLabelNameOf(n: Bytes, rest: Bytes)
    requires ValidLabelName(n)
    requires rest == [] || !IsLabelNameCont(rest[0])
    ensures ReadLabelName(n + rest) == Some((n, rest))
  {
    SpanOf(IsLabelNameCont, n[1..], rest);
    assert (n + rest)[1..] == n[1..] + rest;
  }

  lemma ByteRead(b: byte, v: Bytes)
    requires !IsBlank(b) && (v == [] || !IsBlank(v[0]))
    ensures ReadByte(b, [b] + v) == Some(v)
  {
    assert ([b] + v)[1..] == v;
  }

  lemma {:induction false} ReadPairRendered(l: Label, rest: Bytes)
    requires ValidLabelName(l.name)
    ensures ReadPair(RenderPair(l) + rest) == Some((l, rest))
  {
    hide ReadLabelName;
    hide ValidLabelName;
    hide Unquote;
    hide Escaped;
    hide Span;
    var v := [QUOTE] + (Escaped(l.value) + [QUOTE] + rest);
    assert RenderPair(l) + rest == l.name + ([EQUALS] + v);
    ReadLabelNameOf(l.name, [EQUALS] + v);
    assert ReadByte(EQUALS, [EQUALS] + v) == Some(v) by { ByteRead(EQUALS, v); }
    UnquoteEscaped(l.value, rest);
    assert v[1..] == Escaped(l.value) + [QUOTE] + rest;
  }

  ghost predicate NamesValid(ls: LabelList) {
    forall i :: 0 <= i < |ls| ==> ValidLabelName(ls[i].name)
  }

  lemma {:induction false} ReadPairsRendered(ls: LabelList, rest: Bytes)
    requires NamesValid(ls)
    ensures ReadPairs(RenderPairs(ls) + [CLOSE_BRACE] + rest) == Some((ls, rest))
  {
    hide ReadPair;
    hide RenderPair;
    hide AfterBlanks;
    hide ValidLabelName;
    var t := RenderPairs(ls) + [CLOSE_BRACE] + rest;
    if ls == [] {
      NoBlanks(t);
      assert t[1..] == rest;
    } else {
      var more := if |ls| == 1 then [CLOSE_BRACE] + rest
                  else [COMMA] + (RenderPairs(ls[1..]) + [CLOSE_BRACE] + rest);
      assert t == RenderPair(ls[0]) + more;
      StartsWithName(ls[0], more);
      ReadPairRendered(ls[0], more);
      NoBlanks(more);
      if |ls| == 1 {
        assert more[1..] == rest && ls == [ls[0]];
      } else {
        ReadPairsRendered(ls[1..], rest);
        assert more[1..] == RenderPairs(ls[1..]) + [CLOSE_BRACE] + rest;
        assert ls == [ls[0]] + ls[1..];
      }
    }
  }

  lemma StartsWithName(l: Label, rest: Bytes)
    requires ValidLabelName(l.name)
    ensures var t := RenderPair(l) + rest; AfterBlanks(t) == t && !StartsWith(t, CLOSE_BRACE)
  {
    assert (RenderPair(l) + rest)[0] == l.name[0];
  }

  lemma {:induction false} WithoutKeepsNames(ls: LabelList, name: Bytes)
    requires NamesValid(ls)
    ensures NamesValid(Without(ls, name))
  {
    if ls != [] {
      WithoutKeepsNames(ls[1..], name);
    }
  }

  /** A normal label set with a metric name is that name put before the rest and normalised. */
  lemma Reassembled(ls: LabelList)
    requires Canonical(ls) && Get(ls, METRIC_NAME) != []
    ensures Normalized([Label(METRIC_NAME, Get(ls, METRIC_NAME))] + Without(ls, METRIC_NAME)) == ls
  {
    var m, w := Get(ls, METRIC_NAME), Without(ls, METRIC_NAME);
    GetIsLookup(ls, METRIC_NAME);
    HeadOfLastWins(Label(METRIC_NAME, m), w);
    WithoutLastWins(ls, METRIC_NAME);
    assert LastWins([Label(METRIC_NAME, m)] + w) == LastWins(ls);
    NormalizedOfSameMap([Label(METRIC_NAME, m)] + w, ls);
    NormalizedFixed(ls);
  }

  lemma {:induction false} WithoutTwice(ls: LabelList, name: Bytes)
    ensures Without(Without(ls, name), name) == Without(ls, name)
  {
    if ls != [] {
      WithoutTwice(ls[1..], name);
      var w := Without(ls[1..], name);
      assert ([ls[0]] + w)[1..] == w;
    }
  }

  /** Parsing the text of a label set followed by a value yields that label set and value. */
  lemma ReadSampleOfText(numbers: Numbers, ls: LabelList, tok: Bytes)
    requires Canonical(ls) && NamesValid(ls) && ValidMetricName(Get(ls, METRIC_NAME))
    requires tok != [] && (forall i :: 0 <= i < |tok| ==> !IsBlank(tok[i]))
    requires numbers.parseFloat(tok).Some?
    ensures ReadSample(numbers, Text(ls) + [SPACE] + tok) ==
            Some(Series(ls, numbers.parseFloat(tok).value, None))
  {
    hide RenderPairs;
    hide Normalized;
    hide ReadPairs;
    hide Without;
    hide Get;
    var m, w, end := Get(ls, METRIC_NAME), Without(ls, METRIC_NAME), [SPACE] + tok;
    var line := Text(ls) + end;
    assert line == Text(ls) + [SPACE] + tok;
    var inner := RenderPairs(w) + [CLOSE_BRACE] + end;
    assert line == m + ([OPEN_BRACE] + inner);
    MetricThenBrace(m, inner);
    WithoutKeepsNames(ls, METRIC_NAME);
    ReadPairsRendered(w, end);
    assert ([OPEN_BRACE] + inner)[1..] == inner;
    ValueOnly(numbers, ls, tok);
    Reassembled(ls);
    WithoutTwice(ls, METRIC_NAME);
  }

  lemma NoBlanks(t: Bytes)
    requires t != [] && !IsBlank(t[0])
    ensures AfterBlanks(t) == t
  {
  }

  lemma MetricThenBrace(m: Bytes, inner: Bytes)
    requires ValidMetricName(m)
    ensures ReadMetric(m + ([OPEN_BRACE] + inner)) == Some((m, [OPEN_BRACE] + inner))
    ensures AfterBlanks([OPEN_BRACE] + inner) == [OPEN_BRACE] + inner
  {
    var braces := [OPEN_BRACE] + inner;
    SpanOf(IsNameCont, m[1..], braces);
    NoBlanks(m + braces);
    NoBlanks(braces);
    hide Span;
    hide AfterBlanks;
    assert (m + braces)[1..] == m[1..] + braces;
    assert (m + braces)[0] == m[0];
  }

  lemma ValueOnly(numbers: Numbers, ls: LabelList, tok: Bytes)
    requires tok != [] && (forall i :: 0 <= i < |tok| ==> !IsBlank(tok[i]))
    requires numbers.parseFloat(tok).Some?
    ensures AfterBlanks([SPACE] + tok) == tok
    ensures ReadNumbers(numbers, ls, tok) == Some(Series(ls, numbers.parseFloat(tok).value, None))
  {
    SpanOf(IsBlank, [SPACE], tok);
    SpanOf(b => !IsBlank(b), tok, []);
    assert tok + [] == tok;
    assert tok[..|tok|] == tok;
  }

  // ---- The cursor ----

  /** A cursor over one line. */
  class Parser {
    const s: Bytes
    var i: nat

    constructor (line: Bytes)
      ensures s == line && i == 0
    {
      s, i := line, 0;
    }

    predicate Valid()
      reads this
    {
      i <= |s|
    }

    function Rest(): Bytes
      reads this
      requires Valid()
    {
      s[i..]
    }

    predicate At(b: byte)
      reads this
    {
      i < |s| && s[i] == b
    }

    method Skip(p: byte -> bool)
      requires Valid()
      modifies this`i
      ensures Valid() && i == old(i) + Span(p, old(Rest()))
      ensures s[old(i)..i] == old(Rest())[..Span(p, old(Rest()))]
      ensures Rest() == old(Rest())[Span(p, old(Rest()))..]
    {
      ghost var start := i;
      while i < |s| && p(s[i])
        invariant start <= i <= |s|
        invariant Span(p, s[start..]) == i - start + Span(p, s[i..])
      {
        assert s[i..][1..] == s[i + 1..];
        i := i + 1;
      }
      Slices(s, start, i);
    }

    method SkipSpaces()
      requires Valid()
      modifies this`i
      ensures Valid() && Rest() == AfterBlanks(old(Rest()))
    {
      Skip(IsBlank);
    }

    method Token() returns (tok: Bytes)
      requires Valid()
      modifies this`i
      ensures Valid()
      ensures var t := AfterBlanks(old(Rest())); tok == t[..TokenLength(t)] && Rest() == t[TokenLength(t)..]
    {
      SkipSpaces();
      var start := i;
      Skip(b => !IsBlank(b));
      tok := s[start..i];
    }

    method MetricName() returns (r: Option<Bytes>)
      requires Valid()
      modifies this`i
      ensures Valid()
      ensures match ReadMetric(old(Rest()))
              case None => r.None?
              case Some((name, rest)) => r == Some(name) && Rest() == rest
    {
      SkipSpaces();
      if i >= |s| || !IsNameStart(s[i]) {
        return None;
      }
      var start := i;
      i := i + 1;
      Skip(IsNameCont);
      Slices(s, start, start + 1);
      Slices(s, start, i);
      r := Some(s[start..i]);
    }

    method QuotedValue() returns (r: Option<Bytes>)
      requires Valid()
      modifies this`i
      ensures Valid()
      ensures match ReadQuoted(old(Rest()))
              case None => r.None?
              case Some((v, rest)) => r == Some(v) && Rest() == rest
    {
      hide Unquote;
      if !At(QUOTE) {
        return None;
      }
      i := i + 1;
      var b: Bytes := [];
      ghost var all := Unquote(s[i..]);
      while i < |s|
        invariant i <= |s|
        invariant all == PutAllFront(b, Unquote(s[i..]))
      {
        var c := s[i];
        UnquoteAt(s, i);
        if c == QUOTE {
          i := i + 1;
          assert b + [] == b;
          return Some(b);
        } else if c == BACKSLASH {
          if i + 1 >= |s| {
            return None;
          }
          PutAllFrontSnoc(b, Unescaped(s[i + 1]), Unquote(s[i + 2..]));
          b := b + [if s[i + 1] == LOWER_N then NEWLINE else s[i + 1]];
          i := i + 2;
        } else {
          PutAllFrontSnoc(b, c, Unquote(s[i + 1..]));
          b := b + [c];
          i := i + 1;
        }
      }
      UnquoteAt(s, i);
      return None;
    }

    method ParseLabels() returns (r: Option<LabelList>)
      requires Valid()
      modifies this`i
      ensures Valid()
      ensures if !StartsWith(old(Rest()), OPEN_BRACE) then r.None?
              else match ReadPairs(old(Rest())[1..])
                case None => r.None?
                case Some((ls, rest)) => r == Some(ls) && Rest() == rest
    {
      hide ReadPairs;
      if !At(OPEN_BRACE) {
        return None;
      }
      Slices(s, i, i + 1);
      i := i + 1;
      r := PairsLoop();
    }

    /** The label loop, up to and including the closing brace. */
    method PairsLoop() returns (r: Option<LabelList>)
      requires Valid()
      modifies this`i
      ensures Valid()
      ensures match ReadPairs(old(Rest()))
              case None => r.None?
              case Some((ls, rest)) => r == Some(ls) && Rest() == rest
    {
      hide ReadPair;
      hide AfterBlanks;
      var out: LabelList := [];
      ghost var all := ReadPairs(s[i..]);
      while true
        invariant Valid()
        invariant all == PutPairsFront(out, ReadPairs(s[i..]))
        decreases |s| - i
      {
        ghost var before := s[i..];
        SkipSpaces();
        if At(CLOSE_BRACE) {
          Slices(s, i, i + 1);
          i := i + 1;
          assert out + [] == out;
          return Some(out);
        }
        var pair := OnePair();
        if pair.None? {
          return None;
        }
        ghost var soFar := out;
        out := out + [pair.value];
        SkipSpaces();
        if At(COMMA) {
          Slices(s, i, i + 1);
          i := i + 1;
          PutPairsFrontSnoc(soFar, pair.value, ReadPairs(s[i..]));
        } else if At(CLOSE_BRACE) {
          Slices(s, i, i + 1);
          i := i + 1;
          return Some(out);
        } else {
          return None;
        }
      }
    }

    method LabelName() returns (r: Option<Bytes>)
      requires Valid()
      modifies this`i
      ensures Valid()
      ensures match ReadLabelName(old(Rest()))
              case None => r.None?
              case Some((name, rest)) => r == Some(name) && Rest() == rest
    {
      if i >= |s| || !IsLabelNameStart(s[i]) {
        return None;
      }
      var start := i;
      i := i + 1;
      Skip(IsLabelNameCont);
      Slices(s, start, start + 1);
      Slices(s, start, i);
      return Some(s[start..i]);
    }

    method SkipByte(b: byte) returns (ok: bool)
      requires Valid()
      modifies this`i
      ensures Valid()
      ensures match ReadByte(b, old(Rest()))
              case None => !ok
              case Some(rest) => ok && Rest() == rest
    {
      hide Span;
      SkipSpaces();
      if !At(b) {
        return false;
      }
      Slices(s, i, i + 1);
      i := i + 1;
      SkipSpaces();
      return true;
    }

    /** The part of the label loop that reads name, '=' and the quoted value. */
    method OnePair() returns (r: Option<Label>)
      requires Valid()
      modifies this`i
      ensures Valid()
      ensures match ReadPair(old(Rest()))
              case None => r.None?
              case Some((l, rest)) => r == Some(l) && Rest() == rest
    {
      hide ReadLabelName;
      hide ReadByte;
      hide ReadQuoted;
      var name := LabelName();
      if name.None? {
        return None;
      }
      var ok := SkipByte(EQUALS);
      if !ok {
        return None;
      }
      var val := QuotedValue();
      if val.None? {
        return None;
      }
      return Some(Label(name.value, val.value));
    }
  }

  /** Parses one "name{labels} value [timestamp]" line. */
  method ParseSample(numbers: Numbers, line: Bytes) returns (r: Option<Series>)
    ensures r == ReadSample(numbers, line)
  {
    hide ReadMetric;
    hide ReadPairs;
    hide Normalized;
    hide Without;
    hide AfterBlanks;
    hide ReadNumbers;
    var p := new Parser(line);
    assert line[0..] == line;
    var name := p.MetricName();
    if name.None? {
      return None;
    }
    p.SkipSpaces();
    var pairs: LabelList := [];
    if p.At(OPEN_BRACE) {
      var labelPairs := p.ParseLabels();
      if labelPairs.None? {
        return None;
      }
      pairs := labelPairs.value;
      p.SkipSpaces();
    }
    var kept := DropMetric(pairs);
    r := ParseNumbers(p, numbers, Normalized([Label(METRIC_NAME, name.value)] + kept));
  }

  /** An explicit metric-name label is dropped: it cannot override the positional name. */
  method DropMetric(pairs: LabelList) returns (kept: LabelList)
    ensures kept == Without(pairs, METRIC_NAME)
  {
    kept := [];
    for i := 0 to |pairs|
      invariant kept == Without(pairs[..i], METRIC_NAME)
    {
      assert pairs[..i + 1] == pairs[..i] + [pairs[i]];
      WithoutSnoc(pairs[..i], pairs[i], METRIC_NAME);
      if pairs[i].name != METRIC_NAME {
        kept := kept + [pairs[i]];
      }
    }
    assert pairs[..|pairs|] == pairs;
  }

  method ParseNumbers(p: Parser, numbers: Numbers, labels: LabelList) returns (r: Option<Series>)
    requires p.Valid()
    modifies p
    ensures r == ReadNumbers(numbers, labels, old(p.Rest()))
  {
    hide Span;
    hide AfterBlanks;
    var valTok := p.Token();
    if valTok == [] {
      return None;
    }
    var value := numbers.parseFloat(valTok);
    if value.None? {
      return None;
    }
    var tsTok := p.Token();
    if tsTok == [] {
      return Some(Series(labels, value.value, None));
    }
    var ts := numbers.parseInt(tsTok);
    if ts.None? {
      return None;
    }
    if !AllTrimmed(p.Rest()) {
      return None;
    }
    return Some(Series(labels, value.value, Some(ts.value)));
  }

  lemma Slices(s: Bytes, a: nat, b: nat)
    requires a <= b <= |s|
    ensures s[a..][..b - a] == s[a..b]
    ensures s[a..][b - a..] == s[b..]
  {
  }

  /** Unquote from a position, in terms of the bytes there. */
  lemma UnquoteAt(s: Bytes, i: nat)
    requires i <= |s|
    ensures Unquote(s[i..]) ==
            if i == |s| then None
            else if s[i] == QUOTE then Some(([], s[i + 1..]))
            else if s[i] != BACKSLASH then PutFront(s[i], Unquote(s[i + 1..]))
            else if i + 1 == |s| then None
            else PutFront(Unescaped(s[i + 1]), Unquote(s[i + 2..]))
  {
    Slices(s, i, i);
    if i < |s| {
      assert s[i..][1..] == s[i + 1..];
    }
    if i + 1 < |s| {
      assert s[i..][2..] == s[i + 2..];
    }
  }

  ghost function PutAllFront(b: Bytes, r: Option<(Bytes, Bytes)>): (p: Option<(Bytes, Bytes)>)
    ensures b == [] ==> p == r
  {
    match r
    case None => None
    case Some((v, rest)) => assert b == [] ==> b + v == v; Some((b + v, rest))
  }

  lemma PutAllFrontSnoc(b: Bytes, c: byte, r: Option<(Bytes, Bytes)>)
    ensures PutAllFront(b, PutFront(c, r)) == PutAllFront(b + [c], r)
  {
    if r.Some? {
      assert b + ([c] + r.value.0) == b + [c] + r.value.0;
    }
  }

  ghost function PutPairsFront(out: LabelList, r: Option<(LabelList, Bytes)>): (p: Option<(LabelList, Bytes)>)
    ensures out == [] ==> p == r
  {
    match r
    case None => None
    case Some((ls, rest)) => assert out == [] ==> out + ls == ls; Some((out + ls, rest))
  }

  lemma PutPairsFrontSnoc(out: LabelList, l: Label, r: Option<(LabelList, Bytes)>)
    ensures PutPairsFront(out, PutPairsFront([l], r)) == PutPairsFront(out + [l], r)
  {
    if r.Some? {
      assert out + ([l] + r.value.0) == out + [l] + r.value.0;
    }
  }
}
