/** The converse: every tree the parser returns is well formed, so printing and parsing are exact inverses. */
module Accepted {
  import opened Base
  import opened Syntax
  import opened Grammar
  import opened Rendering

  ghost predicate AllOk(lx: Lexicon, ms: seq<Matcher>) {
    forall i :: 0 <= i < |ms| ==> MatcherOk(lx, ms[i])
  }

  lemma AllOkCons(lx: Lexicon, m: Matcher, ms: seq<Matcher>)
    requires MatcherOk(lx, m) && AllOk(lx, ms)
    ensures AllOk(lx, [m] + ms)
  {
  }

  lemma {:induction false} ReadMatchersSound(lx: Lexicon, ts: Toks)
    ensures var r := ReadMatchers(lx, ts); r.Some? ==> AllOk(lx, r.value.0)
    decreases Size(ts)
  {
    hide ReadMatcher;
    if !At(ts, RBrace) && ReadMatcher(lx, ts).Some? {
      var (m, rest) := ReadMatcher(lx, ts).value;
      MatcherSound(lx, ts);
      if At(rest, Comma) || At(rest, RBrace) {
        var next := if At(rest, Comma) then rest.rest else rest;
        ReadMatchersSound(lx, next);
        if ReadMatchers(lx, next).Some? {
          AllOkCons(lx, m, ReadMatchers(lx, next).value.0);
        }
      }
    }
  }

  lemma MatcherSound(lx: Lexicon, ts: Toks)
    ensures ReadMatcher(lx, ts).Some? ==> MatcherOk(lx, ReadMatcher(lx, ts).value.0)
  {
  }

  lemma ReadSelectorSound(lx: Lexicon, name: string, ts: Toks)
    requires name == "" || (!IsAggregator(name) && !IsFunction(name))
    ensures var r := ReadSelector(lx, name, ts); r.Some? ==> WellFormed(lx, r.value.0) && IsBase(r.value.0)
  {
    hide IsAggregator;
    hide IsFunction;
    hide ReadMatchers;
    hide MatcherOk;
    if At(ts, LBrace) {
      ReadMatchersSound(lx, ts.rest);
    }
    assert ModifiersOk(lx, NO_MODIFIERS);
  }

  lemma {:induction false} ReadModifiersSound(lx: Lexicon, e: Expr, ts: Toks)
    requires WellFormed(lx, e) && Level(e) == 7
    ensures var r := ReadModifiers(lx, e, ts); r.Some? ==> WellFormed(lx, r.value.0) && Level(r.value.0) == 7
    decreases Size(ts)
  {
    hide IsAggregator;
    hide IsFunction;
    hide DurationOk;
    if TakesModifiers(e) {
      if At(ts, Ident("offset")) && ReadOffset(ts.rest).Some? {
        var (off, rest) := ReadOffset(ts.rest).value;
        ReadModifiersSound(lx, WithModifiers(e, e.mods.(offset := Some(off))), rest);
      } else if At(ts, AtSign) && ReadAt(lx, ts.rest).Some? {
        var (at, rest) := ReadAt(lx, ts.rest).value;
        ReadModifiersSound(lx, WithModifiers(e, e.mods.(at := Some(at))), rest);
      }
    }
  }

  lemma ReadPostfixSound(lx: Lexicon, e: Expr, ts: Toks)
    requires WellFormed(lx, e) && IsBase(e)
    ensures var r := ReadPostfix(lx, e, ts); r.Some? ==> WellFormed(lx, r.value.0) && Level(r.value.0) == 7
  {
    hide IsAggregator;
    hide IsFunction;
    hide DurationOk;
    hide ReadModifiers;
    if ReadRange(e, ts).Some? {
      var (r, rest) := ReadRange(e, ts).value;
      ReadModifiersSound(lx, r, rest);
    }
  }

  lemma ReadMatchingSound(ts: Toks)
    ensures var r := ReadMatching(ts); r.Some? ==> r.value.0.Some? ==> MatchingOk(r.value.0.value)
  {
    hide ReadLabels;
  }

  /** What an expression reader may return: a well-formed tree, and tokens whose operator is too weak for it. */
  ghost predicate Sound(lx: Lexicon, min: nat, r: Option<(Expr, Toks)>) {
    match r
    case None => true
    case Some((e, k)) => WellFormed(lx, e) && Level(e) >= min && (OpAt(k).Some? ==> Prec(OpAt(k).value) < min)
  }

  lemma {:induction false} ReadExprSound(lx: Lexicon, ts: Toks, min: nat)
    requires min <= POW_PREC
    ensures Sound(lx, min, ReadExpr(lx, ts, min))
    decreases Size(ts), 4
  {
    ReadUnarySound(lx, ts);
    if ReadUnary(lx, ts).Some? {
      var (left, rest) := ReadUnary(lx, ts).value;
      ReadRestSound(lx, min, left, rest);
    }
  }

  lemma {:induction false} ReadRestSound(lx: Lexicon, min: nat, left: Expr, ts: Toks)
    requires min <= POW_PREC && WellFormed(lx, left) && Level(left) >= min && Stops(left, ts)
    ensures Sound(lx, min, ReadRest(lx, min, left, ts))
    decreases Size(ts), 5
  {
    hide IsAggregator;
    hide IsFunction;
    hide TokenOp;
    hide MatchingOk;
    hide ReadMatching;
    if OpAt(ts).Some? && Prec(OpAt(ts).value) >= min {
      var op := OpAt(ts).value;
      var (returnBool, afterBool) := ReadBool(ts.rest);
      ReadMatchingSound(afterBool);
      if ReadMatching(afterBool).Some? {
        var (matching, rest) := ReadMatching(afterBool).value;
        ReadExprSound(lx, rest, NextMin(op));
        if ReadExpr(lx, rest, NextMin(op)).Some? {
          var (right, end) := ReadExpr(lx, rest, NextMin(op)).value;
          ReadRestSound(lx, min, BinaryExpr(op, left, right, returnBool, matching), end);
        }
      }
    }
  }

  lemma {:induction false} ReadUnarySound(lx: Lexicon, ts: Toks)
    ensures var r := ReadUnary(lx, ts); r.Some? ==> WellFormed(lx, r.value.0) && Level(r.value.0) >= POW_PREC && Stops(r.value.0, r.value.1)
    decreases Size(ts), 3
  {
    hide TokenOp;
    hide IsAggregator;
    hide IsFunction;
    if At(ts, Sub) {
      ReadExprSound(lx, ts.rest, POW_PREC);
    } else if At(ts, Add) {
      ReadUnarySound(lx, ts.rest);
    } else {
      ReadPrimarySound(lx, ts);
    }
  }

  lemma {:induction false} ReadPrimarySound(lx: Lexicon, ts: Toks)
    ensures var r := ReadPrimary(lx, ts); r.Some? ==> WellFormed(lx, r.value.0) && Level(r.value.0) == 7
    decreases Size(ts), 2
  {
    hide ReadPostfix;
    ReadBaseSound(lx, ts);
    if ReadBase(lx, ts).Some? {
      var (base, rest) := ReadBase(lx, ts).value;
      ReadPostfixSound(lx, base, rest);
    }
  }

  lemma {:induction false} ReadBaseSound(lx: Lexicon, ts: Toks)
    ensures var r := ReadBase(lx, ts); r.Some? ==> WellFormed(lx, r.value.0) && IsBase(r.value.0)
    decreases Size(ts), 1
  {
    hide IsAggregator;
    hide IsFunction;
    hide TakesParam;
    hide ReadSelector;
    if ts.Tok? {
      match ts.head {
        case LParen => ReadExprSound(lx, ts.rest, 0);
        case LBrace =>
          ReadSelectorSound(lx, "", ts);
        case Ident(name) =>
          if IsAggregator(name) {
            ReadAggregateSound(lx, name, ts.rest);
          } else if IsFunction(name) {
            ReadCallSound(lx, name, ts.rest);
          } else {
            ReadSelectorSound(lx, name, ts.rest);
          }
        case _ =>
      }
    }
  }

  lemma {:induction false} ReadCallSound(lx: Lexicon, name: string, ts: Toks)
    requires IsFunction(name) && !IsAggregator(name)
    ensures var r := ReadCall(lx, name, ts); r.Some? ==> WellFormed(lx, r.value.0) && IsBase(r.value.0)
    decreases Size(ts), 0
  {
    hide IsAggregator;
    hide IsFunction;
    if At(ts, LParen) && !At(ts.rest, RParen) {
      ReadArgsSound(lx, ts.rest);
    }
  }

  lemma {:induction false} ReadArgsSound(lx: Lexicon, ts: Toks)
    ensures var r := ReadArgs(lx, ts); r.Some? ==> ArgsWellFormed(lx, r.value.0)
    decreases Size(ts), 5
  {
    hide IsAggregator;
    hide IsFunction;
    ReadExprSound(lx, ts, 0);
    if ReadExpr(lx, ts, 0).Some? && At(ReadExpr(lx, ts, 0).value.1, Comma) {
      ReadArgsSound(lx, ReadExpr(lx, ts, 0).value.1.rest);
    }
  }

  lemma {:induction false} ReadAggregateSound(lx: Lexicon, name: string, ts: Toks)
    requires IsAggregator(name)
    ensures var r := ReadAggregate(lx, name, ts); r.Some? ==> WellFormed(lx, r.value.0) && IsBase(r.value.0)
    decreases Size(ts), 0
  {
    hide IsAggregator;
    hide IsFunction;
    hide TakesParam;
    hide ReadGrouping;
    if ReadGrouping(ts).Some? {
      var rest := ReadGrouping(ts).value.1;
      if At(rest, LParen) {
        if TakesParam(name) {
          ReadExprSound(lx, rest.rest, 0);
        }
        if ReadParam(lx, name, rest.rest).Some? {
          ReadExprSound(lx, ReadParam(lx, name, rest.rest).value.1, 0);
        }
      }
    }
  }

  // ---- Exactness ----

  /** The well-formed trees are exactly the trees some token list parses to. */
  lemma WellFormedIffParsable(lx: Lexicon, e: Expr)
    ensures WellFormed(lx, e) <==> exists ts :: Parsed(lx, ts) == Some(e)
  {
    if WellFormed(lx, e) {
      ParseOfRender(lx, e);
    }
    if ts :| Parsed(lx, ts) == Some(e) {
      ReadExprSound(lx, ts, 0);
    }
  }

  /** Printing a parsed query and parsing it again gives the same tree. */
  lemma ReparseStable(lx: Lexicon, ts: Toks)
    ensures Parsed(lx, ts).Some? ==> Parsed(lx, Render(Parsed(lx, ts).value, End)) == Parsed(lx, ts)
  {
    if Parsed(lx, ts).Some? {
      ReadExprSound(lx, ts, 0);
      ParseOfRender(lx, Parsed(lx, ts).value);
    }
  }

  /** Distinct well-formed trees print differently. */
  lemma RenderInjective(lx: Lexicon, a: Expr, b: Expr)
    requires WellFormed(lx, a) && WellFormed(lx, b) && Render(a, End) == Render(b, End)
    ensures a == b
  {
    ParseOfRender(lx, a);
    ParseOfRender(lx, b);
  }
}
