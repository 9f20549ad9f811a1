/** The converse at the level of text: what a text parses to can be spelled, so printing it gives a text again. */
module TextAccepted {
  import opened Base
  import opened Syntax
  import opened Grammar
  import opened Lexer
  import opened Rendering
  import opened QueryText
  import Accepted

  /** Tokens whose texts the lexer can give, at whatever depth. */
  ghost predicate Given(ts: Toks) {
    match ts
    case End => true
    case Tok(t, rest) => GivenToken(t) && Given(rest)
  }

  ghost predicate GivenToken(t: Token) {
    match t
    case Ident(v) => IsIdentText(v)
    case Number(v) => IsNumberText(v)
    case Duration(v) => IsDurationText(v)
    case _ => true
  }

  lemma {:induction false} LexableIsGiven(ts: Toks, depth: nat)
    requires Lexable(ts, depth)
    ensures Given(ts)
    decreases ts
  {
    hide IsIdentText;
    hide IsNumberText;
    hide IsDurationText;
    if ts.Tok? {
      TokenOkIsGiven(ts.head, depth);
      LexableIsGiven(ts.rest, DepthAfter(ts.head, depth));
    }
  }

  lemma TokenOkIsGiven(t: Token, depth: nat)
    requires TokenOk(t, depth)
    ensures GivenToken(t)
  {
  }

  // ---- Names ----

  lemma IdentsCons(name: string, names: seq<string>)
    requires IsIdentText(name) && AllIdents(names)
    ensures AllIdents([name] + names)
  {
  }

  lemma {:induction false} LabelsSpelled(ts: Toks)
    requires Given(ts)
    ensures var r := ReadLabels(ts); r.Some? ==> AllIdents(r.value.0) && Given(r.value.1)
    decreases Size(ts)
  {
    hide IsIdentText;
    hide IsNumberText;
    hide IsDurationText;
    if !At(ts, RParen) && AtIdent(ts) && (At(ts.rest, Comma) || At(ts.rest, RParen)) {
      var next := if At(ts.rest, Comma) then ts.rest.rest else ts.rest;
      LabelsSpelled(next);
      if ReadLabels(next).Some? {
        IdentsCons(ts.head.val, ReadLabels(next).value.0);
      }
    }
  }

  lemma LabelListSpelled(ts: Toks)
    requires Given(ts)
    ensures var r := ReadLabelList(ts); r.Some? ==> AllIdents(r.value.0) && Given(r.value.1)
  {
    hide IsIdentText;
    hide IsNumberText;
    hide IsDurationText;
    hide ReadLabels;
    if At(ts, LParen) {
      LabelsSpelled(ts.rest);
    }
  }

  ghost predicate MatchersSpelled(ms: seq<Matcher>) {
    forall i :: 0 <= i < |ms| ==> IsIdentText(ms[i].name)
  }

  lemma MatchersCons(m: Matcher, ms: seq<Matcher>)
    requires IsIdentText(m.name) && MatchersSpelled(ms)
    ensures MatchersSpelled([m] + ms)
  {
  }

  lemma MatcherSpelled(lx: Lexicon, ts: Toks)
    requires Given(ts)
    ensures var r := ReadMatcher(lx, ts); r.Some? ==> IsIdentText(r.value.0.name) && Given(r.value.1)
  {
    hide IsIdentText;
    hide IsNumberText;
    hide IsDurationText;
    hide MatcherOk;
    if ReadMatcher(lx, ts).Some? {
      assert Given(ts.rest) && Given(ts.rest.rest) && Given(ts.rest.rest.rest);
    }
  }

  lemma {:induction false} MatcherListSpelled(lx: Lexicon, ts: Toks)
    requires Given(ts)
    ensures var r := ReadMatchers(lx, ts); r.Some? ==> MatchersSpelled(r.value.0) && Given(r.value.1)
    decreases Size(ts)
  {
    hide IsIdentText;
    hide GivenToken;
    hide ReadMatcher;
    MatcherSpelled(lx, ts);
    if !At(ts, RBrace) && ReadMatcher(lx, ts).Some? {
      var (m, rest) := ReadMatcher(lx, ts).value;
      if At(rest, Comma) || At(rest, RBrace) {
        var next := if At(rest, Comma) then rest.rest else rest;
        MatcherListSpelled(lx, next);
        if ReadMatchers(lx, next).Some? {
          MatchersCons(m, ReadMatchers(lx, next).value.0);
        }
      }
    }
  }

  lemma ClauseSpelled(ts: Toks)
    requires Given(ts)
    ensures var r := ReadClause(ts);
            r.Some? ==> (r.value.0.Some? ==> AllIdents(r.value.0.value.labels)) && Given(r.value.1)
  {
    hide GivenToken;
    hide ReadLabelList;
    hide AllIdents;
    if At(ts, Ident("on")) || At(ts, Ident("ignoring")) {
      LabelListSpelled(ts.rest);
    }
  }

  lemma GroupSpelled(ts: Toks)
    requires Given(ts)
    ensures var r := ReadGroup(ts); r.Some? ==> AllIdents(r.value.0.1) && Given(r.value.1)
  {
    hide GivenToken;
    hide ReadLabelList;
    assert AllIdents([]);
    hide AllIdents;
    if (At(ts, Ident("group_left")) || At(ts, Ident("group_right"))) && At(ts.rest, LParen) {
      LabelListSpelled(ts.rest);
    }
  }

  lemma MatchingIsSpelled(ts: Toks)
    requires Given(ts)
    ensures var r := ReadMatching(ts); r.Some? ==> (r.value.0.Some? ==> MatchingSpelled(r.value.0.value)) && Given(r.value.1)
  {
    hide ReadClause;
    hide ReadGroup;
    hide AllIdents;
    hide Given;
    ClauseSpelled(ts);
    if ReadClause(ts).Some? {
      GroupSpelled(ReadClause(ts).value.1);
    }
  }

  lemma GroupingSpelled(ts: Toks)
    requires Given(ts)
    ensures var r := ReadGrouping(ts);
            r.Some? ==> (r.value.0.Some? ==> AllIdents(r.value.0.value.labels)) && Given(r.value.1)
  {
    hide GivenToken;
    hide ReadLabelList;
    hide AllIdents;
    if At(ts, Ident("by")) || At(ts, Ident("without")) {
      LabelListSpelled(ts.rest);
    }
  }

  // ---- Selectors, ranges and modifiers ----

  /** What a reader of expressions may return on given tokens. */
  ghost predicate Kept(r: Option<(Expr, Toks)>) {
    r.Some? ==> Spelled(r.value.0) && Given(r.value.1)
  }

  lemma SelectorKept(lx: Lexicon, name: string, ts: Toks)
    requires Given(ts) && (name != "" ==> IsIdentText(name))
    ensures Kept(ReadSelector(lx, name, ts))
  {
    hide IsIdentText;
    hide GivenToken;
    hide ReadMatchers;
    if At(ts, LBrace) {
      MatcherListSpelled(lx, ts.rest);
    }
  }

  lemma OffsetSpelled(ts: Toks)
    requires Given(ts)
    ensures var r := ReadOffset(ts); r.Some? ==> IsDurationText(r.value.0.duration) && Given(r.value.1)
  {
    hide IsDurationText;
    hide IsIdentText;
    hide IsNumberText;
    hide DurationOk;
  }

  lemma AtSpelled(lx: Lexicon, ts: Toks)
    requires Given(ts)
    ensures var r := ReadAt(lx, ts);
            r.Some? ==> (r.value.0.AtTime? ==> IsNumberText(r.value.0.number)) && Given(r.value.1)
  {
    hide IsDurationText;
    hide IsIdentText;
    hide IsNumberText;
    if ts.Tok? && ts.rest.Tok? && ts.rest.rest.Tok? {
      assert Given(ts.rest) && GivenToken(ts.rest.head);
      assert Given(ts.rest.rest);
      assert Given(ts.rest.rest.rest);
    }
  }

  lemma OffsetTaken(e: Expr, off: OffsetMod)
    requires Spelled(e) && TakesModifiers(e) && IsDurationText(off.duration)
    ensures Spelled(WithModifiers(e, e.mods.(offset := Some(off))))
  {
    hide IsDurationText;
    hide IsIdentText;
    hide IsNumberText;
  }

  lemma AtTaken(e: Expr, at: AtMod)
    requires Spelled(e) && TakesModifiers(e) && (at.AtTime? ==> IsNumberText(at.number))
    ensures Spelled(WithModifiers(e, e.mods.(at := Some(at))))
  {
    hide IsDurationText;
    hide IsIdentText;
    hide IsNumberText;
  }

  lemma {:induction false} ModifiersKept(lx: Lexicon, e: Expr, ts: Toks)
    requires Spelled(e) && Given(ts)
    ensures Kept(ReadModifiers(lx, e, ts))
    decreases Size(ts)
  {
    hide Spelled;
    hide GivenToken;
    hide ReadOffset;
    hide ReadAt;
    hide IsDurationText;
    hide IsNumberText;
    hide WithModifiers;
    if TakesModifiers(e) {
      if At(ts, Ident("offset")) {
        OffsetSpelled(ts.rest);
        if ReadOffset(ts.rest).Some? {
          var (off, rest) := ReadOffset(ts.rest).value;
          OffsetTaken(e, off);
          ModifiersKept(lx, WithModifiers(e, e.mods.(offset := Some(off))), rest);
        }
      } else if At(ts, AtSign) {
        AtSpelled(lx, ts.rest);
        if ReadAt(lx, ts.rest).Some? {
          var (at, rest) := ReadAt(lx, ts.rest).value;
          AtTaken(e, at);
          ModifiersKept(lx, WithModifiers(e, e.mods.(at := Some(at))), rest);
        }
      }
    }
  }

  lemma RangeKept(e: Expr, ts: Toks)
    requires Spelled(e) && Given(ts)
    ensures Kept(ReadRange(e, ts))
  {
    hide IsDurationText;
    hide IsIdentText;
    hide IsNumberText;
    hide DurationOk;
    if At(ts, LBracket) && ts.rest.Tok? {
      var rest := ts.rest.rest;
      assert Given(ts.rest);
      assert GivenToken(ts.rest.head) && Given(rest);
      if rest.Tok? && rest.rest.Tok? {
        assert Given(rest.rest);
        assert GivenToken(rest.rest.head) && Given(rest.rest.rest);
      }
    }
  }

  lemma PostfixKept(lx: Lexicon, e: Expr, ts: Toks)
    requires Spelled(e) && Given(ts)
    ensures Kept(ReadPostfix(lx, e, ts))
  {
    hide Spelled;
    hide Given;
    hide ReadRange;
    hide ReadModifiers;
    RangeKept(e, ts);
    if ReadRange(e, ts).Some? {
      ModifiersKept(lx, ReadRange(e, ts).value.0, ReadRange(e, ts).value.1);
    }
  }

  // ---- Expressions ----

  lemma {:induction false} ExprKept(lx: Lexicon, ts: Toks, min: nat)
    requires Given(ts)
    ensures Kept(ReadExpr(lx, ts, min))
    decreases Size(ts), 4
  {
    hide Spelled;
    hide Given;
    UnaryKept(lx, ts);
    if ReadUnary(lx, ts).Some? {
      RestKept(lx, min, ReadUnary(lx, ts).value.0, ReadUnary(lx, ts).value.1);
    }
  }

  lemma BinarySpelled(op: Op, l: Expr, r: Expr, returnBool: bool, m: Option<Matching>)
    requires Spelled(l) && Spelled(r) && (m.Some? ==> MatchingSpelled(m.value))
    ensures Spelled(BinaryExpr(op, l, r, returnBool, m))
  {
  }

  lemma BoolKept(ts: Toks)
    requires Given(ts)
    ensures Given(ReadBool(ts).1)
  {
  }

  lemma {:induction false} RestKept(lx: Lexicon, min: nat, left: Expr, ts: Toks)
    requires Spelled(left) && Given(ts)
    ensures Kept(ReadRest(lx, min, left, ts))
    decreases Size(ts), 5
  {
    hide Spelled;
    hide GivenToken;
    hide TokenOp;
    hide MatchingSpelled;
    hide ReadMatching;
    hide ReadBool;
    if OpAt(ts).Some? && Prec(OpAt(ts).value) >= min {
      var op := OpAt(ts).value;
      var (returnBool, afterBool) := ReadBool(ts.rest);
      BoolKept(ts.rest);
      MatchingIsSpelled(afterBool);
      if ReadMatching(afterBool).Some? {
        var (matching, rest) := ReadMatching(afterBool).value;
        ExprKept(lx, rest, NextMin(op));
        if ReadExpr(lx, rest, NextMin(op)).Some? {
          var (right, end) := ReadExpr(lx, rest, NextMin(op)).value;
          BinarySpelled(op, left, right, returnBool, matching);
          RestKept(lx, min, BinaryExpr(op, left, right, returnBool, matching), end);
        }
      }
    }
  }

  lemma {:induction false} UnaryKept(lx: Lexicon, ts: Toks)
    requires Given(ts)
    ensures Kept(ReadUnary(lx, ts))
    decreases Size(ts), 3
  {
    hide GivenToken;
    if At(ts, Sub) {
      ExprKept(lx, ts.rest, POW_PREC);
    } else if At(ts, Add) {
      UnaryKept(lx, ts.rest);
    } else {
      PrimaryKept(lx, ts);
    }
  }

  lemma {:induction false} PrimaryKept(lx: Lexicon, ts: Toks)
    requires Given(ts)
    ensures Kept(ReadPrimary(lx, ts))
    decreases Size(ts), 2
  {
    hide Spelled;
    hide Given;
    hide ReadPostfix;
    BaseKept(lx, ts);
    if ReadBase(lx, ts).Some? {
      PostfixKept(lx, ReadBase(lx, ts).value.0, ReadBase(lx, ts).value.1);
    }
  }

  lemma {:induction false} BaseKept(lx: Lexicon, ts: Toks)
    requires Given(ts)
    ensures Kept(ReadBase(lx, ts))
    decreases Size(ts), 1
  {
    hide IsIdentText;
    hide IsNumberText;
    hide IsDurationText;
    hide IsAggregator;
    hide IsFunction;
    hide ReadSelector;
    if ts.Tok? {
      match ts.head {
        case LParen => ExprKept(lx, ts.rest, 0);
        case LBrace => SelectorKept(lx, "", ts);
        case Ident(name) =>
          if IsAggregator(name) {
            AggregateKept(lx, name, ts.rest);
          } else if IsFunction(name) {
            CallKept(lx, name, ts.rest);
          } else {
            SelectorKept(lx, name, ts.rest);
          }
        case _ =>
      }
    }
  }

  lemma CallSpelled(name: string, args: Args)
    requires IsIdentText(name) && ArgsSpelled(args)
    ensures Spelled(Call(name, args))
  {
  }

  lemma {:induction false} CallKept(lx: Lexicon, name: string, ts: Toks)
    requires Given(ts) && IsIdentText(name)
    ensures Kept(ReadCall(lx, name, ts))
    decreases Size(ts), 0
  {
    hide IsIdentText;
    hide GivenToken;
    if At(ts, LParen) {
      assert Given(ts.rest);
      if At(ts.rest, RParen) {
        CallSpelled(name, NoArgs);
        assert Given(ts.rest.rest);
      } else {
        ArgsKept(lx, ts.rest);
        if ReadArgs(lx, ts.rest).Some? {
          CallSpelled(name, ReadArgs(lx, ts.rest).value.0);
        }
      }
      hide Spelled;
    }
  }

  lemma {:induction false} ArgsKept(lx: Lexicon, ts: Toks)
    requires Given(ts)
    ensures var r := ReadArgs(lx, ts); r.Some? ==> ArgsSpelled(r.value.0) && Given(r.value.1)
    decreases Size(ts), 5
  {
    hide GivenToken;
    hide Spelled;
    ExprKept(lx, ts, 0);
    if ReadExpr(lx, ts, 0).Some? && At(ReadExpr(lx, ts, 0).value.1, Comma) {
      ArgsKept(lx, ReadExpr(lx, ts, 0).value.1.rest);
    }
  }

  lemma {:induction false} ParamKept(lx: Lexicon, name: string, ts: Toks)
    requires Given(ts)
    ensures var r := ReadParam(lx, name, ts); r.Some? ==> (r.value.0.Some? ==> Spelled(r.value.0.value)) && Given(r.value.1)
    decreases Size(ts), 5
  {
    hide GivenToken;
    hide Spelled;
    hide TakesParam;
    if TakesParam(name) {
      ExprKept(lx, ts, 0);
    }
  }

  lemma AggregateSpelled(name: string, g: Option<Grouping>, param: Option<Expr>, e: Expr)
    requires IsIdentText(name) && (g.Some? ==> AllIdents(g.value.labels)) && (param.Some? ==> Spelled(param.value)) && Spelled(e)
    ensures Spelled(AggregateExpr(name, g, param, e))
  {
  }

  lemma {:induction false} AggregateKept(lx: Lexicon, name: string, ts: Toks)
    requires Given(ts) && IsIdentText(name)
    ensures Kept(ReadAggregate(lx, name, ts))
    decreases Size(ts), 0
  {
    hide IsIdentText;
    hide AllIdents;
    hide GivenToken;
    hide Spelled;
    hide ReadGrouping;
    hide ReadParam;
    GroupingSpelled(ts);
    if ReadGrouping(ts).Some? {
      var (before, rest) := ReadGrouping(ts).value;
      if At(rest, LParen) {
        ParamKept(lx, name, rest.rest);
        if ReadParam(lx, name, rest.rest).Some? {
          var (param, inner) := ReadParam(lx, name, rest.rest).value;
          ExprKept(lx, inner, 0);
          if ReadExpr(lx, inner, 0).Some? && At(ReadExpr(lx, inner, 0).value.1, RParen) {
            var (e, close) := ReadExpr(lx, inner, 0).value;
            GroupingSpelled(close.rest);
            AggregateSpelled(name, before, param, e);
            if ReadGrouping(close.rest).Some? {
              AggregateSpelled(name, ReadGrouping(close.rest).value.0, param, e);
            }
          }
        }
      }
    }
  }

  // ---- Exactness ----

  /** A tree is well formed and can be spelled exactly when some text parses to it. */
  lemma SpelledIffText(lx: Lexicon, e: Expr)
    ensures WellFormed(lx, e) && Spelled(e) <==> exists s :: ParsedText(lx, s) == Some(e)
  {
    hide Spelled;
    hide WellFormed;
    hide PrintedText;
    hide Lexed;
    hide Lexable;
    if WellFormed(lx, e) && Spelled(e) {
      TextRoundTrip(lx, e);
    }
    if s :| ParsedText(lx, s) == Some(e) {
      var ts := Lexed(s, 0).value;
      LexedIsLexable(s, 0);
      LexableIsGiven(ts, 0);
      ExprKept(lx, ts, 0);
      Accepted.WellFormedIffParsable(lx, e);
    }
  }

  /** So printing what a text parses to, and parsing that, changes nothing. */
  lemma ReprintStable(lx: Lexicon, s: string)
    ensures ParsedText(lx, s).Some? ==> ParsedText(lx, PrintedText(ParsedText(lx, s).value)) == ParsedText(lx, s)
  {
    hide ParsedText;
    hide PrintedText;
    if ParsedText(lx, s).Some? {
      SpelledIffText(lx, ParsedText(lx, s).value);
      TextRoundTrip(lx, ParsedText(lx, s).value);
    }
  }
}
