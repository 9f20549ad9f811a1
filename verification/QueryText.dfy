/** From text to tree and back: lexing and parsing undo printing. */
module QueryText {
  import opened Base
  import opened Syntax
  import opened Grammar
  import opened Lexer
  import opened Rendering
  import Accepted
  import Parser

  /** Parsing a text: tokens, then a tree. */
  function ParsedText(lx: Lexicon, s: string): Option<Expr> {
    match Lexed(s, 0)
    case None => None
    case Some(ts) => Parsed(lx, ts)
  }

  method ParseText(lx: Lexicon, s: string) returns (r: Option<Expr>)
    ensures r == ParsedText(lx, s)
  {
    hide Parsed;
    hide Lexed;
    var toks := Lex(s);
    if toks.None? {
      return None;
    }
    r := Parser.Parse(lx, toks.value);
  }

  // ---- Trees whose names and numbers can be spelled ----

  ghost predicate AllIdents(names: seq<string>) {
    forall i :: 0 <= i < |names| ==> IsIdentText(names[i])
  }

  ghost predicate SelectorSpelled(name: string, ms: seq<Matcher>) {
    (name != "" ==> IsIdentText(name)) && forall i :: 0 <= i < |ms| ==> IsIdentText(ms[i].name)
  }

  ghost predicate ModifiersSpelled(mods: Modifiers) {
    && (mods.offset.Some? ==> IsDurationText(mods.offset.value.duration))
    && (mods.at.Some? && mods.at.value.AtTime? ==> IsNumberText(mods.at.value.number))
  }

  ghost predicate MatchingSpelled(m: Matching) {
    (m.clause.Some? ==> AllIdents(m.clause.value.labels)) && AllIdents(m.included)
  }

  /** Names are identifiers, numbers and durations are what the lexer takes for them. */
  ghost predicate Spelled(e: Expr) {
    match e
    case NumberLiteral(text) => IsNumberText(text)
    case StringLiteral(_) => true
    case VectorSelector(name, ms, mods) => SelectorSpelled(name, ms) && ModifiersSpelled(mods)
    case MatrixSelector(name, ms, range, mods) => SelectorSpelled(name, ms) && IsDurationText(range) && ModifiersSpelled(mods)
    case SubqueryExpr(inner, range, step, mods) =>
      Spelled(inner) && IsDurationText(range) && (step.Some? ==> IsDurationText(step.value)) && ModifiersSpelled(mods)
    case Call(f, args) => IsIdentText(f) && ArgsSpelled(args)
    case AggregateExpr(name, grouping, param, inner) =>
      && IsIdentText(name) && (grouping.Some? ==> AllIdents(grouping.value.labels))
      && (param.Some? ==> Spelled(param.value)) && Spelled(inner)
    case BinaryExpr(_, l, r, _, matching) => Spelled(l) && Spelled(r) && (matching.Some? ==> MatchingSpelled(matching.value))
    case UnaryExpr(inner) => Spelled(inner)
    case ParenExpr(inner) => Spelled(inner)
  }

  ghost predicate ArgsSpelled(args: Args) {
    args.Arg? ==> Spelled(args.first) && ArgsSpelled(args.more)
  }

  // ---- The printed tokens of such a tree can be lexed ----

  lemma {:induction false} LabelsLexable(ls: seq<string>, k: Toks)
    requires AllIdents(ls) && Lexable(k, 0)
    ensures Lexable(RenderLabels(ls, k), 0)
    decreases |ls|
  {
    hide IsIdentText;
    if |ls| > 1 {
      LabelsLexable(ls[1..], k);
    }
  }

  lemma {:induction false} MatchersLexable(ms: seq<Matcher>, k: Toks)
    requires (forall i :: 0 <= i < |ms| ==> IsIdentText(ms[i].name)) && Lexable(k, 0)
    ensures Lexable(RenderMatchers(ms, k), 0)
    decreases |ms|
  {
    hide IsIdentText;
    if ms != [] {
      var end := if |ms| == 1 then Tok(RBrace, k) else Tok(Comma, RenderMatchers(ms[1..], k));
      if |ms| > 1 {
        MatchersLexable(ms[1..], k);
      }
      assert Lexable(Tok(Str(ms[0].value), end), 0);
      assert Lexable(Tok(MatchToken(ms[0].typ), Tok(Str(ms[0].value), end)), 0);
    }
  }

  lemma SelectorLexable(name: string, ms: seq<Matcher>, k: Toks)
    requires SelectorSpelled(name, ms) && Lexable(k, 0)
    ensures Lexable(RenderSelector(name, ms, k), 0)
  {
    hide IsIdentText;
    hide RenderMatchers;
    if ms != [] {
      MatchersLexable(ms, k);
    }
  }

  lemma OffsetLexable(off: Option<OffsetMod>, k: Toks)
    requires (off.Some? ==> IsDurationText(off.value.duration)) && Lexable(k, 0)
    ensures Lexable(RenderOffset(off, k), 0)
  {
    hide IsDurationText;
    assert IsIdentText("offset");
    hide IsIdentText;
    if off.Some? {
      var d := Tok(Duration(off.value.duration), k);
      assert Lexable(if off.value.neg then Tok(Sub, d) else d, 0);
    }
  }

  lemma AtLexable(at: Option<AtMod>, k: Toks)
    requires (at.Some? && at.value.AtTime? ==> IsNumberText(at.value.number)) && Lexable(k, 0)
    ensures Lexable(RenderAt(at, k), 0)
  {
    hide IsNumberText;
    assert IsIdentText("start") && IsIdentText("end");
    hide IsIdentText;
    if at.Some? && !at.value.AtTime? {
      var close := Tok(LParen, Tok(RParen, k));
      assert Lexable(close, 0);
      assert Lexable(Tok(Ident(if at.value.AtStart? then "start" else "end"), close), 0);
    } else if at.Some? {
      var n := Tok(Number(at.value.number), k);
      assert Lexable(if at.value.neg then Tok(Sub, n) else n, 0);
    }
  }

  lemma ModifiersLexable(mods: Modifiers, k: Toks)
    requires ModifiersSpelled(mods) && Lexable(k, 0)
    ensures Lexable(RenderModifiers(mods, k), 0)
  {
    hide RenderOffset;
    hide RenderAt;
    hide IsDurationText;
    hide IsNumberText;
    AtLexable(mods.at, k);
    OffsetLexable(mods.offset, RenderAt(mods.at, k));
  }

  /** A range is lexed at depth one, and its bracket closes again. */
  lemma RangeLexable(range: string, k: Toks)
    requires IsDurationText(range) && Lexable(k, 0)
    ensures Lexable(RenderRange(range, Tok(RBracket, k)), 0)
  {
    hide IsDurationText;
    var inner := Tok(Duration(range), Tok(RBracket, k));
    assert Lexable(Tok(RBracket, k), 1);
    assert Lexable(inner, 1);
  }

  lemma SubqueryLexable(range: string, step: Option<string>, k: Toks)
    requires IsDurationText(range) && (step.Some? ==> IsDurationText(step.value)) && Lexable(k, 0)
    ensures Lexable(RenderRange(range, RenderStep(step, k)), 0)
  {
    hide IsDurationText;
    var close := Tok(RBracket, k);
    assert Lexable(close, 1);
    var afterColon := if step.Some? then Tok(Duration(step.value), close) else close;
    assert Lexable(afterColon, 1);
    assert Lexable(Tok(Colon, afterColon), 1);
    assert Lexable(Tok(Duration(range), Tok(Colon, afterColon)), 1);
  }

  lemma ListLexable(word: string, ls: seq<string>, k: Toks)
    requires IsIdentText(word) && AllIdents(ls) && Lexable(k, 0)
    ensures Lexable(Tok(Ident(word), Tok(LParen, RenderLabels(ls, k))), 0)
  {
    hide IsIdentText;
    hide RenderLabels;
    LabelsLexable(ls, k);
    assert Lexable(Tok(LParen, RenderLabels(ls, k)), 0);
  }

  lemma GroupingLexable(g: Option<Grouping>, k: Toks)
    requires (g.Some? ==> AllIdents(g.value.labels)) && Lexable(k, 0)
    ensures Lexable(RenderGrouping(g, k), 0)
  {
    if g.Some? {
      assert IsIdentText("without") && IsIdentText("by");
      ListLexable(if g.value.without then "without" else "by", g.value.labels, k);
    }
  }

  lemma MatchingLexable(m: Option<Matching>, k: Toks)
    requires (m.Some? ==> MatchingSpelled(m.value)) && Lexable(k, 0)
    ensures Lexable(RenderMatching(m, k), 0)
  {
    if m.Some? {
      var group := RenderGroup(m.value.card, m.value.included, k);
      if m.value.card != OneToOne {
        assert IsIdentText("group_left") && IsIdentText("group_right");
        ListLexable(if m.value.card == ManyToOne then "group_left" else "group_right", m.value.included, k);
      }
      if m.value.clause.Some? {
        assert IsIdentText("on") && IsIdentText("ignoring");
        ListLexable(if m.value.clause.value.on then "on" else "ignoring", m.value.clause.value.labels, group);
      }
    }
  }

  lemma OperatorLexable(op: Op, returnBool: bool, k: Toks)
    requires Lexable(k, 0)
    ensures Lexable(Tok(OpToken(op), if returnBool then Tok(Ident("bool"), k) else k), 0)
  {
    assert IsIdentText("or") && IsIdentText("and") && IsIdentText("unless") && IsIdentText("bool");
    hide IsIdentText;
    assert Lexable(if returnBool then Tok(Ident("bool"), k) else k, 0);
  }

  /** Printing a spelled tree in front of lexable tokens gives lexable tokens. */
  lemma {:induction false} RenderLexable(e: Expr, k: Toks)
    requires Spelled(e) && Lexable(k, 0)
    ensures Lexable(Render(e, k), 0)
    decreases e
  {
    hide IsIdentText;
    hide IsNumberText;
    hide IsDurationText;
    hide RenderSelector;
    hide RenderModifiers;
    hide RenderRange;
    hide RenderStep;
    hide RenderGrouping;
    hide RenderMatching;
    hide SelectorSpelled;
    hide ModifiersSpelled;
    hide MatchingSpelled;
    match e
    case NumberLiteral(_) =>
    case StringLiteral(_) =>
    case VectorSelector(name, ms, mods) =>
      ModifiersLexable(mods, k);
      SelectorLexable(name, ms, RenderModifiers(mods, k));
    case MatrixSelector(name, ms, range, mods) =>
      ModifiersLexable(mods, k);
      RangeLexable(range, RenderModifiers(mods, k));
      SelectorLexable(name, ms, RenderRange(range, Tok(RBracket, RenderModifiers(mods, k))));
    case SubqueryExpr(inner, range, step, mods) =>
      ModifiersLexable(mods, k);
      SubqueryLexable(range, step, RenderModifiers(mods, k));
      RenderLexable(inner, RenderRange(range, RenderStep(step, RenderModifiers(mods, k))));
    case Call(f, args) =>
      ArgsLexable(args, Tok(RParen, k));
    case AggregateExpr(name, grouping, param, inner) =>
      RenderLexable(inner, Tok(RParen, k));
      var body := Render(inner, Tok(RParen, k));
      if param.Some? {
        RenderLexable(param.value, Tok(Comma, body));
      }
      GroupingLexable(grouping, Tok(LParen, match param case None => body case Some(p) => Render(p, Tok(Comma, body))));
    case BinaryExpr(op, l, r, returnBool, matching) =>
      RenderLexable(r, k);
      var right := RenderMatching(matching, Guarded(Render(r, k)));
      MatchingLexable(matching, Guarded(Render(r, k)));
      OperatorLexable(op, returnBool, right);
      RenderLexable(l, Tok(OpToken(op), if returnBool then Tok(Ident("bool"), right) else right));
    case UnaryExpr(inner) =>
      RenderLexable(inner, k);
    case ParenExpr(inner) =>
      RenderLexable(inner, Tok(RParen, k));
  }

  lemma {:induction false} ArgsLexable(args: Args, k: Toks)
    requires ArgsSpelled(args) && Lexable(k, 0)
    ensures Lexable(RenderArgs(args, k), 0)
    decreases args
  {
    hide Render;
    match args
    case NoArgs =>
    case Arg(e, more) =>
      if more.NoArgs? {
        RenderLexable(e, k);
      } else {
        ArgsLexable(more, k);
        RenderLexable(e, Tok(Comma, RenderArgs(more, k)));
      }
  }

  // ---- The round trip ----

  function PrintedText(e: Expr): string { Printed(Render(e, End)) }

  /** Parsing the printed text of a tree yields that tree. */
  lemma TextRoundTrip(lx: Lexicon, e: Expr)
    requires WellFormed(lx, e) && Spelled(e)
    ensures ParsedText(lx, PrintedText(e)) == Some(e)
  {
    hide Spelled;
    hide WellFormed;
    hide Parsed;
    hide Lexed;
    hide Printed;
    RenderLexable(e, End);
    LexOfPrinted(Render(e, End), 0);
    ParseOfRender(lx, e);
  }

  /** Different trees have different texts. */
  lemma TextInjective(lx: Lexicon, a: Expr, b: Expr)
    requires WellFormed(lx, a) && Spelled(a) && WellFormed(lx, b) && Spelled(b)
    requires PrintedText(a) == PrintedText(b)
    ensures a == b
  {
    hide Spelled;
    hide WellFormed;
    hide PrintedText;
    hide ParsedText;
    TextRoundTrip(lx, a);
    TextRoundTrip(lx, b);
  }
}
