/** When the text of a label set can stand for it: what two label sets with one text have in common. */
module LabelText {
  import opened Base
  import opened Labels
  import opened Exposition

  /** A name that cannot be taken for the punctuation around it; every valid label name is one. */
  predicate PlainName(n: Bytes) {
    forall i :: 0 <= i < |n| ==> n[i] != QUOTE && n[i] != BACKSLASH && n[i] != OPEN_BRACE && n[i] != EQUALS
  }

  ghost predicate NamesPlain(ls: LabelList) {
    forall i :: 0 <= i < |ls| ==> PlainName(ls[i].name)
  }

  lemma ValidNamesArePlain(ls: LabelList)
    requires NamesValid(ls)
    ensures NamesPlain(ls)
  {
    forall i, j | 0 <= i < |ls| && 0 <= j < |ls[i].name|
      ensures IsLabelNameCont(ls[i].name[j])
    {
      assert ValidLabelName(ls[i].name);
    }
  }

  lemma {:induction false} WithoutPlain(ls: LabelList, name: Bytes)
    requires NamesPlain(ls)
    ensures NamesPlain(Without(ls, name))
  {
    if ls != [] {
      assert forall i :: 0 <= i < |ls[1..]| ==> ls[1..][i] == ls[i + 1];
      WithoutPlain(ls[1..], name);
    }
  }

  // ---- The pairs can be read off their text ----

  function AfterPair(ls: LabelList): Bytes
    requires ls != []
  {
    if |ls| == 1 then [] else [COMMA] + RenderPairs(ls[1..])
  }

  lemma PairsSplit(ls: LabelList)
    requires ls != []
    ensures RenderPairs(ls) == ls[0].name + ([EQUALS, QUOTE] + (Escaped(ls[0].value) + [QUOTE] + AfterPair(ls)))
  {
    hide Escaped;
  }

  /** Up to the first equals sign stands the name, then the quoted value. */
  lemma FirstPair(ls: LabelList)
    requires NamesPlain(ls) && ls != []
    ensures var t := RenderPairs(ls);
            var n := Span(b => b != EQUALS, t);
            && n == |ls[0].name| && |t| >= n + 2 && t[..n] == ls[0].name
            && Unquote(t[n + 2..]) == Some((ls[0].value, AfterPair(ls)))
  {
    hide Unquote;
    hide Escaped;
    hide Span;
    hide RenderPairs;
    hide AfterPair;
    var n, v := ls[0].name, Escaped(ls[0].value) + [QUOTE] + AfterPair(ls);
    PairsSplit(ls);
    assert PlainName(n);
    SpanOf(b => b != EQUALS, n, [EQUALS, QUOTE] + v);
    var t := n + ([EQUALS, QUOTE] + v);
    assert t[|n| + 2..] == v;
    UnquoteEscaped(ls[0].value, AfterPair(ls));
  }

  lemma {:induction false} PairsInjective(a: LabelList, b: LabelList)
    requires NamesPlain(a) && NamesPlain(b)
    requires RenderPairs(a) == RenderPairs(b)
    ensures a == b
  {
    hide Unquote;
    hide Span;
    hide PlainName;
    if a == [] || b == [] {
      if a != [] {
        FirstPair(a);
      }
      if b != [] {
        FirstPair(b);
      }
    } else {
      FirstPair(a);
      FirstPair(b);
      hide RenderPairs;
      assert a[0] == b[0] && AfterPair(a) == AfterPair(b);
      if |a| == 1 || |b| == 1 {
        assert |a| == |b| == 1;
      } else {
        assert ([COMMA] + RenderPairs(a[1..]))[1..] == RenderPairs(a[1..]);
        assert ([COMMA] + RenderPairs(b[1..]))[1..] == RenderPairs(b[1..]);
        PairsInjective(a[1..], b[1..]);
        assert a == [a[0]] + a[1..] && b == [b[0]] + b[1..];
      }
    }
  }

  // ---- Quotes tell a brace of a value from the brace that ends the metric name ----

  datatype Quoting = Outside | Inside | Escape | Dead

  function Advance(q: Quoting, b: byte): Quoting {
    match q
    case Outside => if b == QUOTE then Inside else if b == BACKSLASH || b == OPEN_BRACE then Dead else Outside
    case Inside => if b == QUOTE then Outside else if b == BACKSLASH then Escape else Inside
    case Escape => if b == OPEN_BRACE then Dead else Inside
    case Dead => Dead
  }

  function After(q: Quoting, t: Bytes): Quoting
    decreases t
  {
    if t == [] then q else After(Advance(q, t[0]), t[1..])
  }

  lemma {:induction false} AfterConcat(q: Quoting, s: Bytes, t: Bytes)
    ensures After(q, s + t) == After(After(q, s), t)
    decreases s
  {
    if s == [] {
      assert s + t == t;
    } else {
      assert (s + t)[1..] == s[1..] + t;
      AfterConcat(Advance(q, s[0]), s[1..], t);
    }
  }

  lemma {:induction false} DeadStays(t: Bytes)
    ensures After(Dead, t) == Dead
  {
    if t != [] {
      DeadStays(t[1..]);
    }
  }

  lemma {:induction false} AfterPlain(n: Bytes)
    requires PlainName(n)
    ensures After(Outside, n) == Outside
  {
    if n != [] {
      AfterPlain(n[1..]);
    }
  }

  lemma AfterOne(q: Quoting, b: byte)
    ensures After(q, [b]) == Advance(q, b)
  {
    assert [b][1..] == [];
  }

  lemma AfterByte(c: byte)
    ensures After(Inside, EscapeByte(c)) == Inside
  {
    var e := EscapeByte(c);
    AfterOne(Inside, e[0]);
    if |e| == 2 {
      assert e == [e[0]] + [e[1]];
      AfterConcat(Inside, [e[0]], [e[1]]);
      AfterOne(Escape, e[1]);
    }
  }

  lemma {:induction false} AfterEscaped(v: Bytes)
    ensures After(Inside, Escaped(v)) == Inside
  {
    if v != [] {
      var e := EscapeByte(v[0]);
      AfterByte(v[0]);
      AfterConcat(Inside, e, Escaped(v[1..]));
      AfterEscaped(v[1..]);
    }
  }

  lemma {:induction false} AfterPairs(ls: LabelList)
    requires NamesPlain(ls)
    ensures After(Outside, RenderPairs(ls)) == Outside
  {
    hide After;
    hide PlainName;
    hide RenderPair;
    if ls == [] {
      AfterNone(Outside);
    } else {
      AfterRendered(ls[0]);
      if |ls| > 1 {
        AfterConcat(Outside, RenderPair(ls[0]), [COMMA]);
        AfterOne(Outside, COMMA);
        AfterConcat(Outside, RenderPair(ls[0]) + [COMMA], RenderPairs(ls[1..]));
        AfterPairs(ls[1..]);
      }
    }
  }

  lemma AfterNone(q: Quoting)
    ensures After(q, []) == q
  {
  }

  lemma AfterRendered(l: Label)
    requires PlainName(l.name)
    ensures After(Outside, RenderPair(l)) == Outside
  {
    hide After;
    hide Escaped;
    AfterPlain(l.name);
    AfterEscaped(l.value);
    AfterConcat(Outside, l.name, [EQUALS, QUOTE]);
    assert [EQUALS, QUOTE] == [EQUALS] + [QUOTE];
    AfterConcat(Outside, [EQUALS], [QUOTE]);
    AfterOne(Outside, EQUALS);
    AfterOne(Outside, QUOTE);
    AfterConcat(Outside, l.name + [EQUALS, QUOTE], Escaped(l.value));
    AfterConcat(Outside, l.name + [EQUALS, QUOTE] + Escaped(l.value), [QUOTE]);
    AfterOne(Inside, QUOTE);
  }

  /** One text cannot end outside quotes both when read from outside and when read from inside. */
  lemma {:induction false} ParityDiffers(p: Quoting, q: Quoting, t: Bytes)
    requires {p, q} == {Outside, Inside}
    ensures !(After(p, t).Outside? && After(q, t).Outside?)
    decreases t
  {
    if t == [] {
      assert p in {p, q} && q in {p, q} && Inside in {p, q};
    } else {
      var x, y := Advance(p, t[0]), Advance(q, t[0]);
      assert p in {Outside, Inside} && q in {Outside, Inside} && p != q by {
        assert p in {p, q} && q in {p, q};
        assert Inside in {p, q} && Outside in {p, q};
      }
      if x.Dead? || y.Dead? {
        DeadStays(t[1..]);
      } else {
        assert {x, y} == {Outside, Inside};
        ParityDiffers(x, y, t[1..]);
      }
    }
  }

  /** The pairs of one label set are not the tail, behind a brace, of the pairs of another. */
  lemma NoBraceBetween(x: Bytes, pairs: LabelList, outer: LabelList)
    requires NamesPlain(pairs) && NamesPlain(outer)
    ensures RenderPairs(outer) != x + [OPEN_BRACE] + RenderPairs(pairs)
  {
    hide RenderPairs;
    hide After;
    AfterPairs(outer);
    AfterPairs(pairs);
    AfterConcat(Outside, x + [OPEN_BRACE], RenderPairs(pairs));
    AfterConcat(Outside, x, [OPEN_BRACE]);
    AfterOne(After(Outside, x), OPEN_BRACE);
    if After(Outside, x).Inside? {
      ParityDiffers(Outside, Inside, RenderPairs(pairs));
    } else {
      DeadStays(RenderPairs(pairs));
    }
  }

  // ---- Equal texts ----

  /** What follows the brace of the shorter metric name runs through the brace of the longer one. */
  lemma BraceInside(ma: Bytes, ra: Bytes, mb: Bytes, rb: Bytes)
    requires |ma| < |mb|
    requires ma + ([OPEN_BRACE] + ra + [CLOSE_BRACE]) == mb + ([OPEN_BRACE] + rb + [CLOSE_BRACE])
    ensures ra == mb[|ma| + 1..] + [OPEN_BRACE] + rb
  {
    var x, t := mb[|ma| + 1..], ma + ([OPEN_BRACE] + ra + [CLOSE_BRACE]);
    var u := t[|ma| + 1..];
    assert u == ra + [CLOSE_BRACE];
    assert u == x + [OPEN_BRACE] + rb + [CLOSE_BRACE];
    assert u[..|u| - 1] == ra;
    assert u[..|u| - 1] == x + [OPEN_BRACE] + rb;
  }

  lemma MetricNotShorter(a: LabelList, b: LabelList)
    requires NamesPlain(a) && NamesPlain(b)
    requires Text(a) == Text(b)
    ensures |Get(a, METRIC_NAME)| >= |Get(b, METRIC_NAME)|
  {
    hide RenderPairs;
    hide NamesPlain;
    hide Get;
    hide Without;
    var ma, mb, wa, wb := Get(a, METRIC_NAME), Get(b, METRIC_NAME), Without(a, METRIC_NAME), Without(b, METRIC_NAME);
    if |ma| < |mb| {
      WithoutPlain(a, METRIC_NAME);
      WithoutPlain(b, METRIC_NAME);
      var ra, rb := RenderPairs(wa), RenderPairs(wb);
      assert Text(a) == ma + ([OPEN_BRACE] + ra + [CLOSE_BRACE]);
      assert Text(b) == mb + ([OPEN_BRACE] + rb + [CLOSE_BRACE]);
      BraceInside(ma, ra, mb, rb);
      NoBraceBetween(mb[|ma| + 1..], wb, wa);
    }
  }

  /** Two label sets have one text exactly when metric name and other labels agree; "" is as good as no metric name. */
  lemma TextEqualIff(a: LabelList, b: LabelList)
    requires NamesPlain(a) && NamesPlain(b)
    ensures Text(a) == Text(b) <==>
            Get(a, METRIC_NAME) == Get(b, METRIC_NAME) && Without(a, METRIC_NAME) == Without(b, METRIC_NAME)
  {
    hide RenderPairs;
    if Text(a) == Text(b) {
      MetricNotShorter(a, b);
      MetricNotShorter(b, a);
      var wa, wb := Without(a, METRIC_NAME), Without(b, METRIC_NAME);
      var ra, rb := RenderPairs(wa), RenderPairs(wb);
      assert Text(a) == Get(a, METRIC_NAME) + ([OPEN_BRACE] + ra + [CLOSE_BRACE]);
      assert Text(b) == Get(b, METRIC_NAME) + ([OPEN_BRACE] + rb + [CLOSE_BRACE]);
      Cancel(Get(a, METRIC_NAME), [OPEN_BRACE] + ra + [CLOSE_BRACE], Get(b, METRIC_NAME), [OPEN_BRACE] + rb + [CLOSE_BRACE]);
      assert ra == ([OPEN_BRACE] + ra + [CLOSE_BRACE])[1..|ra| + 1];
      assert rb == ([OPEN_BRACE] + rb + [CLOSE_BRACE])[1..|rb| + 1];
      WithoutPlain(a, METRIC_NAME);
      WithoutPlain(b, METRIC_NAME);
      PairsInjective(wa, wb);
    }
  }

  lemma Cancel(p: Bytes, x: Bytes, q: Bytes, y: Bytes)
    requires |p| == |q|
    requires p + x == q + y
    ensures p == q && x == y
  {
    assert p == (p + x)[..|p|] && q == (q + y)[..|q|];
    assert x == (p + x)[|p|..] && y == (q + y)[|q|..];
  }

  /** Whether the set has a metric name label, with nothing in it. */
  predicate EmptyMetric(ls: LabelList) {
    HasPair(ls, METRIC_NAME, [])
  }

  /** The map of a label set as its text shows it. */
  ghost function Shown(m: map<Bytes, Bytes>): map<Bytes, Bytes> {
    if METRIC_NAME in m && m[METRIC_NAME] == [] then m - {METRIC_NAME} else m
  }

  lemma EmptyMetricLookup(ls: LabelList)
    requires Canonical(ls)
    ensures EmptyMetric(ls) <==> METRIC_NAME in LastWins(ls) && LastWins(ls)[METRIC_NAME] == []
  {
    GetIsLookup(ls, METRIC_NAME);
    if EmptyMetric(ls) {
      var i :| 0 <= i < |ls| && ls[i] == Label(METRIC_NAME, []);
      NameIsKey(ls, i);
      PairDeterminesGet(ls, METRIC_NAME, []);
    } else if METRIC_NAME in LastWins(ls) && LastWins(ls)[METRIC_NAME] == [] {
      var i := IndexOfKey(ls, METRIC_NAME);
      PairDeterminesGet(ls, METRIC_NAME, ls[i].value);
    }
  }

  /** For normal label sets: one text, one map as shown. */
  lemma TextIsShownMap(a: LabelList, b: LabelList)
    requires Canonical(a) && Canonical(b) && NamesPlain(a) && NamesPlain(b)
    ensures Text(a) == Text(b) <==> Shown(LastWins(a)) == Shown(LastWins(b))
  {
    hide Text;
    hide LastWins;
    TextEqualIff(a, b);
    var x, y := LastWins(a), LastWins(b);
    GetIsLookup(a, METRIC_NAME);
    GetIsLookup(b, METRIC_NAME);
    WithoutLastWins(a, METRIC_NAME);
    WithoutLastWins(b, METRIC_NAME);
    WithoutCanonical(a, METRIC_NAME);
    WithoutCanonical(b, METRIC_NAME);
    if Shown(x) == Shown(y) {
      assert x - {METRIC_NAME} == Shown(x) - {METRIC_NAME} == Shown(y) - {METRIC_NAME} == y - {METRIC_NAME};
      CanonicalUnique(Without(a, METRIC_NAME), Without(b, METRIC_NAME));
    }
    if Text(a) == Text(b) {
      forall n ensures n in Shown(x) <==> n in Shown(y) {
        assert n in x - {METRIC_NAME} <==> n in y - {METRIC_NAME};
      }
      forall n | n in Shown(x) ensures Shown(x)[n] == Shown(y)[n] {
        assert n != METRIC_NAME ==> (x - {METRIC_NAME})[n] == (y - {METRIC_NAME})[n];
      }
    }
  }

  lemma {:induction false} WithoutCanonical(ls: LabelList, name: Bytes)
    requires Canonical(ls)
    ensures Canonical(Without(ls, name))
    ensures forall l :: l in Without(ls, name) ==> l in ls
  {
    hide LexLess;
    if ls != [] {
      WithoutCanonical(ls[1..], name);
      var w := Without(ls[1..], name);
      forall j | 0 <= j < |w| ensures LexLess(ls[0].name, w[j].name) {
        assert w[j] in ls[1..];
        var i :| 0 <= i < |ls[1..]| && ls[1..][i] == w[j];
        assert ls[i + 1] == w[j];
      }
    }
  }

  /** Normal label sets are equal exactly when their texts are and both or neither have an empty metric name. */
  lemma TextInjective(a: LabelList, b: LabelList)
    requires Canonical(a) && Canonical(b) && NamesPlain(a) && NamesPlain(b)
    ensures a == b <==> Text(a) == Text(b) && (EmptyMetric(a) <==> EmptyMetric(b))
  {
    hide Text;
    hide LastWins;
    if Text(a) == Text(b) && (EmptyMetric(a) <==> EmptyMetric(b)) {
      TextIsShownMap(a, b);
      EmptyMetricLookup(a);
      EmptyMetricLookup(b);
      var x, y := LastWins(a), LastWins(b);
      forall n ensures (n in x <==> n in y) && (n in x ==> x[n] == y[n]) {
        assert n in Shown(x) <==> n in Shown(y);
      }
      assert x == y;
      CanonicalUnique(a, b);
    }
  }

  /** The label set with the empty metric name taken away, or put in. */
  ghost function Toggled(ls: LabelList): LabelList {
    if EmptyMetric(ls) then Without(ls, METRIC_NAME) else Normalized([Label(METRIC_NAME, [])] + ls)
  }

  /** A text belongs to more than one normal label set exactly when it shows no metric name. */
  lemma SharedTextIff(a: LabelList)
    requires Canonical(a) && NamesPlain(a)
    ensures (exists b :: Canonical(b) && NamesPlain(b) && b != a && Text(b) == Text(a)) <==> Get(a, METRIC_NAME) == []
  {
    hide Text;
    hide Normalized;
    if b :| Canonical(b) && NamesPlain(b) && b != a && Text(b) == Text(a) {
      TextInjective(a, b);
      TextEqualIff(a, b);
      if EmptyMetric(a) {
        PairDeterminesGet(a, METRIC_NAME, []);
      } else {
        PairDeterminesGet(b, METRIC_NAME, []);
      }
    }
    if Get(a, METRIC_NAME) == [] {
      var b := Toggled(a);
      ToggledSharesText(a);
      assert Canonical(b) && NamesPlain(b) && b != a && Text(b) == Text(a);
    }
  }

  /** A name of one label set that is a name of another is plain there as well, and the metric name is plain. */
  lemma NamesFrom(a: LabelList, b: LabelList)
    requires NamesPlain(a)
    requires forall n :: n in LastWins(b) ==> n == METRIC_NAME || n in LastWins(a)
    ensures NamesPlain(b)
  {
    assert PlainName(METRIC_NAME);
    hide LastWins;
    hide PlainName;
    forall i | 0 <= i < |b| ensures PlainName(b[i].name) {
      NameIsKey(b, i);
      if b[i].name != METRIC_NAME {
        var j := IndexOfKey(a, b[i].name);
        assert PlainName(a[j].name);
      }
    }
  }

  lemma ToggledMap(a: LabelList)
    requires Canonical(a) && Get(a, METRIC_NAME) == []
    ensures var b := Toggled(a);
            Canonical(b) && LastWins(b) == if EmptyMetric(a) then LastWins(a) - {METRIC_NAME} else LastWins(a)[METRIC_NAME := []]
  {
    hide Normalized;
    hide LastWins;
    if EmptyMetric(a) {
      WithoutCanonical(a, METRIC_NAME);
      WithoutLastWins(a, METRIC_NAME);
    } else {
      EmptyMetricLookup(a);
      GetIsLookup(a, METRIC_NAME);
      NormalizedIsCanonical([Label(METRIC_NAME, [])] + a);
      HeadOfLastWins(Label(METRIC_NAME, []), a);
      assert map[METRIC_NAME := []] + LastWins(a) == LastWins(a)[METRIC_NAME := []];
    }
  }

  lemma ToggledSharesText(a: LabelList)
    requires Canonical(a) && NamesPlain(a) && Get(a, METRIC_NAME) == []
    ensures var b := Toggled(a); Canonical(b) && NamesPlain(b) && b != a && Text(b) == Text(a)
  {
    hide Text;
    hide LastWins;
    hide NamesPlain;
    hide Toggled;
    hide EmptyMetric;
    var b := Toggled(a);
    ToggledMap(a);
    EmptyMetricLookup(a);
    GetIsLookup(a, METRIC_NAME);
    NamesFrom(a, b);
    TextIsShownMap(a, b);
    EmptyMetricLookup(b);
  }

  /** The smallest such pair: a label set with an empty metric name, and none at all. */
  lemma EmptyMetricNameCollides()
    ensures Canonical([Label(METRIC_NAME, [])]) && NamesValid([Label(METRIC_NAME, [])])
    ensures Text([Label(METRIC_NAME, [])]) == Text([])
  {
    var ls := [Label(METRIC_NAME, [])];
    assert ls[1..] == [];
    assert Without(ls, METRIC_NAME) == [];
  }
}
