/** What sample lines and label texts look like, and whole lines read back: labels, value and timestamp. */
module ExpositionLaws {
  import opened Base
  import opened Labels
  import opened Exposition

  /** The bytes of an ASCII text. */
  function Ascii(s: string): (r: Bytes)
    ensures |r| == |s|
  {
    seq(|s|, i requires 0 <= i < |s| => if s[i] < 128 as char then s[i] as int as byte else 0)
  }

  // ---- Looks ----

  lemma EscapeSigns()
    ensures Ascii("\\") == [BACKSLASH] && Ascii("\"") == [QUOTE] && Ascii("\n") == [NEWLINE]
    ensures Ascii("\\\\") == [BACKSLASH, BACKSLASH] && Ascii("\\\"") == [BACKSLASH, QUOTE] && Ascii("\\n") == [BACKSLASH, LOWER_N]
    ensures Ascii("\\\"\n") == [BACKSLASH, QUOTE, NEWLINE]
  {
  }

  /** Backslash, quote and newline are written \\, \" and \n, anything else as it is. */
  lemma EscapesLook(v: Bytes, w: Bytes, c: byte)
    ensures Escaped(Ascii("\\")) == Ascii("\\\\") && Escaped(Ascii("\"")) == Ascii("\\\"") && Escaped(Ascii("\n")) == Ascii("\\n")
    ensures c !in Ascii("\\\"\n") ==> Escaped([c]) == [c]
    ensures Escaped([]) == [] && Escaped(v + w) == Escaped(v) + Escaped(w)
  {
    EscapeSigns();
    hide Ascii;
    EscapedConcat(v, w);
  }

  lemma EscapedOnce(c: byte, u: Bytes)
    ensures Escaped([c] + u) == EscapeByte(c) + Escaped(u)
  {
    hide EscapeByte;
    assert ([c] + u)[1..] == u;
  }

  lemma Associated(a: Bytes, b: Bytes, c: Bytes)
    ensures (a + b) + c == a + (b + c)
  {
  }

  lemma {:induction false} EscapedConcat(v: Bytes, w: Bytes)
    ensures Escaped(v + w) == Escaped(v) + Escaped(w)
  {
    if v == [] {
      assert v + w == w;
      assert Escaped(v) == [];
      assert [] + Escaped(w) == Escaped(w);
    } else {
      hide *;
      var rest := v[1..];
      assert v == [v[0]] + rest;
      Associated([v[0]], rest, w);
      EscapedOnce(v[0], rest);
      EscapedOnce(v[0], rest + w);
      EscapedConcat(rest, w);
      Associated(EscapeByte(v[0]), Escaped(rest), Escaped(w));
    }
  }

  /** One pair: name="value", the value escaped. */
  function PairText(name: Bytes, value: Bytes): Bytes {
    name + Ascii("=\"") + Escaped(value) + Ascii("\"")
  }

  lemma TextSigns()
    ensures METRIC_NAME == Ascii("__name__")
    ensures Ascii("{") == [OPEN_BRACE] && Ascii("}") == [CLOSE_BRACE] && Ascii(",") == [COMMA]
  {
  }

  lemma PairLooks(name: Bytes, value: Bytes)
    ensures RenderPair(Label(name, value)) == PairText(name, value)
  {
    hide Escaped;
    assert Ascii("=\"") == [EQUALS, QUOTE] && Ascii("\"") == [QUOTE];
    hide Ascii;
  }

  /** The text of a metric name and labels: name{a="v",b="w"}. */
  lemma TextLooks(metric: Bytes, a: Bytes, v: Bytes, b: Bytes, w: Bytes)
    requires a != METRIC_NAME && b != METRIC_NAME
    ensures METRIC_NAME == Ascii("__name__")
    ensures Text([Label(METRIC_NAME, metric)]) == metric + Ascii("{") + [] + Ascii("}")
    ensures Text([Label(METRIC_NAME, metric), Label(a, v), Label(b, w)]) ==
            metric + Ascii("{") + (PairText(a, v) + Ascii(",") + PairText(b, w)) + Ascii("}")
  {
    TextSigns();
    PairLooks(a, v);
    PairLooks(b, w);
    TwoPairs(a, v, b, w);
    OnlyPairs(metric, a, v, b, w);
    NoPairs();
    hide Without;
    hide RenderPairs;
    hide RenderPair;
    hide PairText;
    hide Ascii;
  }

  lemma TwoPairs(a: Bytes, v: Bytes, b: Bytes, w: Bytes)
    ensures RenderPairs([Label(a, v), Label(b, w)]) == RenderPair(Label(a, v)) + [COMMA] + RenderPair(Label(b, w))
  {
    hide RenderPair;
    assert [Label(a, v), Label(b, w)][1..] == [Label(b, w)];
  }

  lemma NoPairs()
    ensures RenderPairs([]) == []
  {
  }

  lemma OnlyPairs(metric: Bytes, a: Bytes, v: Bytes, b: Bytes, w: Bytes)
    requires a != METRIC_NAME && b != METRIC_NAME
    ensures Without([Label(METRIC_NAME, metric)], METRIC_NAME) == []
    ensures Without([Label(METRIC_NAME, metric), Label(a, v), Label(b, w)], METRIC_NAME) == [Label(a, v), Label(b, w)]
  {
    var ls := [Label(METRIC_NAME, metric), Label(a, v), Label(b, w)];
    assert ls[1..] == [Label(a, v), Label(b, w)] && ls[1..][1..] == [Label(b, w)];
    assert Without([Label(b, w)], METRIC_NAME) == [Label(b, w)];
    assert Without(ls[1..], METRIC_NAME) == [Label(a, v)] + [Label(b, w)];
  }

  // ---- Whole lines ----

  predicate IsWord(tok: Bytes) { tok != [] && forall i :: 0 <= i < |tok| ==> !IsBlank(tok[i]) }

  lemma WordRead(tok: Bytes, rest: Bytes)
    requires IsWord(tok) && (rest == [] || IsBlank(rest[0]))
    ensures AfterBlanks([SPACE] + tok + rest) == tok + rest && AfterBlanks(tok + rest) == tok + rest
    ensures TokenLength(tok + rest) == |tok| && (tok + rest)[..|tok|] == tok && (tok + rest)[|tok|..] == rest
  {
    SpanOf(IsBlank, [SPACE], tok + rest);
    assert [SPACE] + tok + rest == [SPACE] + (tok + rest);
    NoBlanks(tok + rest);
    SpanOf(b => !IsBlank(b), tok, rest);
  }

  /** Behind the labels: a value alone, or a value and a timestamp. */
  lemma NumbersRead(numbers: Numbers, ls: LabelList, tok: Bytes, stamp: Bytes)
    requires IsWord(tok) && numbers.parseFloat(tok).Some? && IsWord(stamp)
    ensures ReadNumbers(numbers, ls, [SPACE] + tok + ([SPACE] + stamp)) ==
            match numbers.parseInt(stamp)
            case None => None
            case Some(t) => Some(Series(ls, numbers.parseFloat(tok).value, Some(t)))
  {
    var rest := [SPACE] + stamp;
    WordRead(tok, rest);
    WordRead(stamp, []);
    assert [SPACE] + stamp + [] == rest && stamp + [] == stamp;
    hide AfterBlanks;
    hide TokenLength;
    assert stamp[..|stamp|] == stamp && stamp[|stamp|..] == [];
  }

  /**
   * A line of a metric name, any pairs, a value and a timestamp. The name before the brace is the metric name whatever
   * pairs say otherwise, and of pairs with one name the last counts; a bad timestamp refuses the line.
   */
  lemma LineRead(numbers: Numbers, metric: Bytes, pairs: LabelList, tok: Bytes, stamp: Bytes) returns (labels: LabelList)
    requires ValidMetricName(metric) && NamesValid(pairs)
    requires IsWord(tok) && numbers.parseFloat(tok).Some? && IsWord(stamp)
    ensures Canonical(labels)
    ensures forall n :: Get(labels, n) == if n == METRIC_NAME then metric else if n in LastWins(pairs) then LastWins(pairs)[n] else []
    ensures LastWins(labels).Keys == LastWins(pairs).Keys + {METRIC_NAME}
    ensures ReadSample(numbers, metric + ([OPEN_BRACE] + (RenderPairs(pairs) + [CLOSE_BRACE] + ([SPACE] + tok + ([SPACE] + stamp))))) ==
            match numbers.parseInt(stamp)
            case None => None
            case Some(t) => Some(Series(labels, numbers.parseFloat(tok).value, Some(t)))
  {
    labels := Normalized([Label(METRIC_NAME, metric)] + Without(pairs, METRIC_NAME));
    PositionalWins(metric, pairs);
    LineNumbers(numbers, metric, pairs, tok, stamp);
    hide *;
  }

  lemma LineNumbers(numbers: Numbers, metric: Bytes, pairs: LabelList, tok: Bytes, stamp: Bytes)
    requires ValidMetricName(metric) && NamesValid(pairs)
    requires IsWord(tok) && numbers.parseFloat(tok).Some? && IsWord(stamp)
    ensures ReadSample(numbers, metric + ([OPEN_BRACE] + (RenderPairs(pairs) + [CLOSE_BRACE] + ([SPACE] + tok + ([SPACE] + stamp))))) ==
            match numbers.parseInt(stamp)
            case None => None
            case Some(t) =>
              Some(Series(Normalized([Label(METRIC_NAME, metric)] + Without(pairs, METRIC_NAME)), numbers.parseFloat(tok).value, Some(t)))
  {
    var labels := Normalized([Label(METRIC_NAME, metric)] + Without(pairs, METRIC_NAME));
    var end := [SPACE] + tok + ([SPACE] + stamp);
    var inner := RenderPairs(pairs) + [CLOSE_BRACE] + end;
    MetricThenBrace(metric, inner);
    ReadPairsRendered(pairs, end);
    hide *;
    BracedLine(numbers, metric, pairs, inner, end);
    NumbersRead(numbers, labels, tok, stamp);
    BlanksAgain(numbers, labels, end);
  }

  /** What follows the braces is read behind blanks. */
  lemma BracedLine(numbers: Numbers, metric: Bytes, pairs: LabelList, inner: Bytes, end: Bytes)
    requires ReadMetric(metric + ([OPEN_BRACE] + inner)) == Some((metric, [OPEN_BRACE] + inner))
    requires AfterBlanks([OPEN_BRACE] + inner) == [OPEN_BRACE] + inner
    requires ReadPairs(inner) == Some((pairs, end))
    ensures ReadSample(numbers, metric + ([OPEN_BRACE] + inner)) ==
            ReadNumbers(numbers, Normalized([Label(METRIC_NAME, metric)] + Without(pairs, METRIC_NAME)), AfterBlanks(end))
  {
    hide ReadMetric;
    hide AfterBlanks;
    hide ReadPairs;
    hide ReadNumbers;
    hide Normalized;
    hide Without;
    assert ([OPEN_BRACE] + inner)[1..] == inner;
  }

  /** Skipping blanks twice is skipping them once. */
  lemma BlanksAgain(numbers: Numbers, labels: LabelList, t: Bytes)
    ensures ReadNumbers(numbers, labels, AfterBlanks(t)) == ReadNumbers(numbers, labels, t)
  {
    assert AfterBlanks(AfterBlanks(t)) == AfterBlanks(t) by {
      if AfterBlanks(t) != [] {
        NoBlanks(AfterBlanks(t));
      }
    }
    hide AfterBlanks;
    hide TokenLength;
  }

  lemma PositionalWins(metric: Bytes, pairs: LabelList)
    ensures var labels := Normalized([Label(METRIC_NAME, metric)] + Without(pairs, METRIC_NAME));
            && Canonical(labels)
            && (forall n :: Get(labels, n) == if n == METRIC_NAME then metric else if n in LastWins(pairs) then LastWins(pairs)[n] else [])
            && LastWins(labels).Keys == LastWins(pairs).Keys + {METRIC_NAME}
  {
    var all := [Label(METRIC_NAME, metric)] + Without(pairs, METRIC_NAME);
    NormalizedIsCanonical(all);
    HeadOfLastWins(Label(METRIC_NAME, metric), Without(pairs, METRIC_NAME));
    WithoutLastWins(pairs, METRIC_NAME);
    hide LastWins;
    hide Normalized;
    hide Get;
    forall n ensures Get(Normalized(all), n) ==
                     if n == METRIC_NAME then metric else if n in LastWins(pairs) then LastWins(pairs)[n] else []
    {
      GetIsLookup(Normalized(all), n);
    }
  }

  /** The text of a label set, a value and a timestamp read back as all three. */
  lemma SampleRoundTrip(numbers: Numbers, ls: LabelList, tok: Bytes, stamp: Bytes)
    requires Canonical(ls) && NamesValid(ls) && ValidMetricName(Get(ls, METRIC_NAME))
    requires IsWord(tok) && numbers.parseFloat(tok).Some? && IsWord(stamp) && numbers.parseInt(stamp).Some?
    ensures ReadSample(numbers, Text(ls) + ([SPACE] + tok + ([SPACE] + stamp))) ==
            Some(Series(ls, numbers.parseFloat(tok).value, Some(numbers.parseInt(stamp).value)))
  {
    var m, w, end := Get(ls, METRIC_NAME), Without(ls, METRIC_NAME), [SPACE] + tok + ([SPACE] + stamp);
    TextThen(ls, end);
    WithoutKeepsNames(ls, METRIC_NAME);
    Reassembled(ls);
    WithoutTwice(ls, METRIC_NAME);
    hide *;
    LineNumbers(numbers, m, w, tok, stamp);
  }

  lemma TextThen(ls: LabelList, end: Bytes)
    ensures Text(ls) + end ==
            Get(ls, METRIC_NAME) + ([OPEN_BRACE] + (RenderPairs(Without(ls, METRIC_NAME)) + [CLOSE_BRACE] + end))
  {
    hide RenderPairs;
    hide Get;
    hide Without;
  }
}
