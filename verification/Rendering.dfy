/** Printing expression trees as tokens, and the proof that parsing is its inverse. */
module Rendering {
  import opened Base
  import opened Syntax
  import opened Grammar

  // ---- The trees the parser can return ----

  /** Binding strength of a tree's top: a unary minus binds like ^, everything not an operator binds tightest. */
  function Level(e: Expr): (l: nat)
    ensures 1 <= l <= 7
  {
    match e
    case BinaryExpr(op, _, _, _, _) => Prec(op)
    case UnaryExpr(_) => POW_PREC
    case _ => 7
  }

  /** What may stand in front of a range: anything but an operator or something that already has a postfix. */
  predicate IsBase(e: Expr) {
    match e
    case VectorSelector(_, _, mods) => mods == NO_MODIFIERS
    case MatrixSelector(_, _, _, _) => false
    case SubqueryExpr(_, _, _, _) => false
    case BinaryExpr(_, _, _, _, _) => false
    case UnaryExpr(_) => false
    case _ => true
  }

  predicate ModifiersOk(lx: Lexicon, mods: Modifiers) {
    && (mods.offset.Some? ==> DurationOk(mods.offset.value.duration))
    && (mods.at.Some? && mods.at.value.AtTime? && !mods.at.value.neg ==> lx.numberOk(mods.at.value.number))
  }

  predicate SelectorOk(lx: Lexicon, name: string, ms: seq<Matcher>) {
    && (if name == "" then ms != [] else !IsAggregator(name) && !IsFunction(name))
    && forall i :: 0 <= i < |ms| ==> MatcherOk(lx, ms[i])
  }

  predicate MatchingOk(m: Matching) {
    && (m.clause.None? ==> m.card != OneToOne)
    && (m.card == OneToOne ==> m.included == [])
  }

  /**
   * Operands are parenthesised wherever precedence needs it: the left operand binds at least as tightly as the
   * operator, the right one more tightly; for ^ it is the other way round. A unary minus applies to a power.
   */
  predicate WellFormed(lx: Lexicon, e: Expr) {
    match e
    case NumberLiteral(text) => lx.numberOk(text)
    case StringLiteral(_) => true
    case VectorSelector(name, ms, mods) => SelectorOk(lx, name, ms) && ModifiersOk(lx, mods)
    case MatrixSelector(name, ms, range, mods) => SelectorOk(lx, name, ms) && DurationOk(range) && ModifiersOk(lx, mods)
    case SubqueryExpr(inner, range, step, mods) =>
      && WellFormed(lx, inner) && IsBase(inner)
      && DurationOk(range) && (step.Some? ==> DurationOk(step.value))
      && ModifiersOk(lx, mods)
    case Call(f, args) => IsFunction(f) && !IsAggregator(f) && ArgsWellFormed(lx, args)
    case AggregateExpr(name, _, param, inner) =>
      && IsAggregator(name) && (param.Some? <==> TakesParam(name))
      && (param.Some? ==> WellFormed(lx, param.value))
      && WellFormed(lx, inner)
    case BinaryExpr(op, l, r, _, matching) =>
      && WellFormed(lx, l) && WellFormed(lx, r)
      && (if op == OpPow then Level(l) > Prec(op) && Level(r) >= Prec(op)
          else Level(l) >= Prec(op) && Level(r) > Prec(op))
      && (matching.Some? ==> MatchingOk(matching.value))
    case UnaryExpr(inner) => WellFormed(lx, inner) && Level(inner) >= POW_PREC
    case ParenExpr(inner) => WellFormed(lx, inner)
  }

  predicate ArgsWellFormed(lx: Lexicon, args: Args) {
    args.Arg? ==> WellFormed(lx, args.first) && ArgsWellFormed(lx, args.more)
  }

  // ---- Printing, in front of the tokens k that follow ----

  function RenderLabels(ls: seq<string>, k: Toks): Toks
    decreases |ls|
  {
    if ls == [] then Tok(RParen, k)
    else Tok(Ident(ls[0]), if |ls| == 1 then Tok(RParen, k) else Tok(Comma, RenderLabels(ls[1..], k)))
  }

  function MatchToken(t: MatchType): (tok: Token)
    ensures MatchTypeOf(tok) == Some(t)
  {
    match t
    case MatchEqual => Eql
    case MatchNotEqual => Neq
    case MatchRegexp => EqlRegex
    case MatchNotRegexp => NeqRegex
  }

  function RenderMatchers(ms: seq<Matcher>, k: Toks): Toks
    decreases |ms|
  {
    if ms == [] then Tok(RBrace, k)
    else
      var m, end := ms[0], if |ms| == 1 then Tok(RBrace, k) else Tok(Comma, RenderMatchers(ms[1..], k));
      Tok(Ident(m.name), Tok(MatchToken(m.typ), Tok(Str(m.value), end)))
  }

  function RenderSelector(name: string, ms: seq<Matcher>, k: Toks): Toks {
    var braces := if ms == [] then k else Tok(LBrace, RenderMatchers(ms, k));
    if name == "" then braces else Tok(Ident(name), braces)
  }

  function RenderOffset(off: Option<OffsetMod>, k: Toks): Toks {
    match off
    case None => k
    case Some(o) =>
      var d := Tok(Duration(o.duration), k);
      Tok(Ident("offset"), if o.neg then Tok(Sub, d) else d)
  }

  function RenderAt(at: Option<AtMod>, k: Toks): Toks {
    match at
    case None => k
    case Some(AtTime(neg, number)) =>
      var n := Tok(Number(number), k);
      Tok(AtSign, if neg then Tok(Sub, n) else n)
    case Some(AtStart) => Tok(AtSign, Tok(Ident("start"), Tok(LParen, Tok(RParen, k))))
    case Some(AtEnd) => Tok(AtSign, Tok(Ident("end"), Tok(LParen, Tok(RParen, k))))
  }

  function RenderModifiers(mods: Modifiers, k: Toks): Toks {
    RenderOffset(mods.offset, RenderAt(mods.at, k))
  }

  function RenderRange(range: string, k: Toks): Toks {
    Tok(LBracket, Tok(Duration(range), k))
  }

  function RenderStep(step: Option<string>, k: Toks): Toks {
    Tok(Colon, if step.Some? then Tok(Duration(step.value), Tok(RBracket, k)) else Tok(RBracket, k))
  }

  function RenderGrouping(g: Option<Grouping>, k: Toks): Toks {
    match g
    case None => k
    case Some(Grouping(without, ls)) => Tok(Ident(if without then "without" else "by"), Tok(LParen, RenderLabels(ls, k)))
  }

  function RenderClause(c: Option<MatchClause>, k: Toks): Toks {
    match c
    case None => k
    case Some(MatchClause(on, ls)) => Tok(Ident(if on then "on" else "ignoring"), Tok(LParen, RenderLabels(ls, k)))
  }

  /** The label list is always printed: a parenthesis there would otherwise be read as one. */
  function RenderGroup(card: Card, included: seq<string>, k: Toks): Toks {
    if card == OneToOne then k
    else Tok(Ident(if card == ManyToOne then "group_left" else "group_right"), Tok(LParen, RenderLabels(included, k)))
  }

  function RenderMatching(m: Option<Matching>, k: Toks): Toks {
    match m
    case None => k
    case Some(Matching(clause, card, included)) => RenderClause(clause, RenderGroup(card, included, k))
  }

  /** Words that would be read as part of the operator if a right operand began with them. */
  predicate StartsLikeOperator(ts: Toks) {
    AtIdent(ts) &&
    (ts.head.val == "bool" || ts.head.val == "on" || ts.head.val == "ignoring"
     || ts.head.val == "group_left" || ts.head.val == "group_right")
  }

  /** A right operand; a unary plus, which the parser drops, keeps its first word apart from the operator. */
  function Guarded(ts: Toks): Toks {
    if StartsLikeOperator(ts) then Tok(Add, ts) else ts
  }

  function Render(e: Expr, k: Toks): Toks
    decreases e
  {
    match e
    case NumberLiteral(text) => Tok(Number(text), k)
    case StringLiteral(val) => Tok(Str(val), k)
    case VectorSelector(name, ms, mods) => RenderSelector(name, ms, RenderModifiers(mods, k))
    case MatrixSelector(name, ms, range, mods) =>
      RenderSelector(name, ms, RenderRange(range, Tok(RBracket, RenderModifiers(mods, k))))
    case SubqueryExpr(inner, range, step, mods) =>
      Render(inner, RenderRange(range, RenderStep(step, RenderModifiers(mods, k))))
    case Call(f, args) => Tok(Ident(f), Tok(LParen, RenderArgs(args, Tok(RParen, k))))
    case AggregateExpr(name, grouping, param, inner) =>
      var body := Render(inner, Tok(RParen, k));
      Tok(Ident(name), RenderGrouping(grouping,
        Tok(LParen, match param case None => body case Some(p) => Render(p, Tok(Comma, body)))))
    case BinaryExpr(op, l, r, returnBool, matching) =>
      var right := RenderMatching(matching, Guarded(Render(r, k)));
      Render(l, Tok(OpToken(op), if returnBool then Tok(Ident("bool"), right) else right))
    case UnaryExpr(inner) => Tok(Sub, Render(inner, k))
    case ParenExpr(inner) => Tok(LParen, Render(inner, Tok(RParen, k)))
  }

  function RenderArgs(args: Args, k: Toks): Toks
    decreases args
  {
    match args
    case NoArgs => k
    case Arg(e, NoArgs) => Render(e, k)
    case Arg(e, more) => Render(e, Tok(Comma, RenderArgs(more, k)))
  }

  // ---- Parsing undoes printing: the parts without operators ----

  lemma {:induction false} LabelsBack(ls: seq<string>, k: Toks)
    ensures ReadLabels(RenderLabels(ls, k)) == Some((ls, k))
    decreases |ls|
  {
    if ls != [] {
      if |ls| == 1 {
        assert ls == [ls[0]] + [];
      } else {
        LabelsBack(ls[1..], k);
        assert ls == [ls[0]] + ls[1..];
      }
    }
  }

  lemma MatcherBack(lx: Lexicon, m: Matcher, end: Toks)
    requires MatcherOk(lx, m)
    ensures ReadMatcher(lx, Tok(Ident(m.name), Tok(MatchToken(m.typ), Tok(Str(m.value), end)))) == Some((m, end))
  {
  }

  /** One round of the matcher loop in front of a comma or the closing brace. */
  lemma MatchersOnce(lx: Lexicon, ts: Toks, m: Matcher, ms: seq<Matcher>, rest: Toks, end: Toks)
    requires !At(ts, RBrace) && (rest.Tok? && (rest.head == Comma || rest.head == RBrace))
    requires ReadMatcher(lx, ts) == Some((m, rest))
    requires ReadMatchers(lx, if rest.head == Comma then rest.rest else rest) == Some((ms, end))
    ensures ReadMatchers(lx, ts) == Some(([m] + ms, end))
  {
    hide ReadMatcher;
  }

  lemma {:induction false} MatchersBack(lx: Lexicon, ms: seq<Matcher>, k: Toks)
    requires forall i :: 0 <= i < |ms| ==> MatcherOk(lx, ms[i])
    ensures ReadMatchers(lx, RenderMatchers(ms, k)) == Some((ms, k))
    decreases |ms|
  {
    hide ReadMatcher;
    hide MatcherOk;
    hide MatchToken;
    if ms != [] {
      var m, end := ms[0], if |ms| == 1 then Tok(RBrace, k) else Tok(Comma, RenderMatchers(ms[1..], k));
      MatcherBack(lx, m, end);
      assert ReadMatchers(lx, Tok(RBrace, k)) == Some(([], k));
      hide ReadMatchers;
      if |ms| > 1 {
        MatchersBack(lx, ms[1..], k);
      }
      assert ms == [m] + ms[1..];
      MatchersOnce(lx, RenderMatchers(ms, k), m, ms[1..], end, k);
    }
  }

  /** Nothing that would continue a selector, a range, a modifier or a grouping. */
  predicate Calm(k: Toks) {
    k.End? || !(k.head.LBrace? || k.head.LBracket? || k.head.AtSign? || k.head == Ident("offset")
                || k.head == Ident("by") || k.head == Ident("without"))
  }

  /** Nothing that would continue the matchers of a selector or the grouping of an aggregation. */
  predicate EndsBase(k: Toks) {
    k.End? || !(k.head.LBrace? || k.head == Ident("by") || k.head == Ident("without"))
  }

  lemma SelectorBack(lx: Lexicon, name: string, ms: seq<Matcher>, k: Toks)
    requires SelectorOk(lx, name, ms) && EndsBase(k)
    ensures ReadBase(lx, RenderSelector(name, ms, k)) == Some((VectorSelector(name, ms, NO_MODIFIERS), k))
    ensures RenderSelector(name, ms, k).Tok?
    ensures !RenderSelector(name, ms, k).head.Sub? && !RenderSelector(name, ms, k).head.Add?
  {
    hide IsAggregator;
    hide IsFunction;
    hide ReadMatchers;
    hide RenderMatchers;
    MatchersBack(lx, ms, k);
  }

  lemma AtBack(lx: Lexicon, e: Expr, at: Option<AtMod>, k: Toks)
    requires TakesModifiers(e) && e.mods.at.None? && ModifiersOk(lx, e.mods.(at := at)) && Calm(k)
    ensures ReadModifiers(lx, e, RenderAt(at, k)) == Some((WithModifiers(e, e.mods.(at := at)), k))
  {
    hide DurationOk;
    if at.Some? {
      ReadAtBack(lx, at.value, k);
      hide ReadAt;
      var next := WithModifiers(e, e.mods.(at := at));
      assert ReadModifiers(lx, next, k) == Some((next, k));
    }
  }

  lemma ReadAtBack(lx: Lexicon, at: AtMod, k: Toks)
    requires at.AtTime? && !at.neg ==> lx.numberOk(at.number)
    ensures RenderAt(Some(at), k).Tok? && ReadAt(lx, RenderAt(Some(at), k).rest) == Some((at, k))
  {
  }

  lemma ModifiersBack(lx: Lexicon, e: Expr, mods: Modifiers, k: Toks)
    requires TakesModifiers(e) && e.mods == NO_MODIFIERS && ModifiersOk(lx, mods) && Calm(k)
    ensures ReadModifiers(lx, e, RenderModifiers(mods, k)) == Some((WithModifiers(e, mods), k))
  {
    hide DurationOk;
    var next := WithModifiers(e, NO_MODIFIERS.(offset := mods.offset));
    AtBack(lx, next, mods.at, k);
    if mods.offset.Some? {
      var ts := RenderModifiers(mods, k);
      assert ReadOffset(ts.rest) == Some((mods.offset.value, RenderAt(mods.at, k)));
      hide ReadOffset;
      hide RenderAt;
    }
  }

  lemma ModifiersEndBase(mods: Modifiers, k: Toks)
    requires Calm(k)
    ensures EndsBase(RenderModifiers(mods, k))
    ensures !At(RenderModifiers(mods, k), LBracket)
  {
  }

  lemma GroupingBack(g: Option<Grouping>, k: Toks)
    requires EndsBase(k)
    ensures ReadGrouping(RenderGrouping(g, k)) == Some((g, k))
  {
    hide ReadLabels;
    hide RenderLabels;
    if g.Some? {
      LabelsBack(g.value.labels, k);
    }
  }

  lemma MatchingBack(m: Option<Matching>, k: Toks)
    requires m.Some? ==> MatchingOk(m.value)
    requires !StartsLikeOperator(k)
    ensures ReadMatching(RenderMatching(m, k)) == Some((m, k))
    ensures ReadBool(RenderMatching(m, k)) == (false, RenderMatching(m, k))
  {
    hide ReadLabels;
    hide RenderLabels;
    if m.Some? {
      LabelsBack(m.value.included, k);
      var group := RenderGroup(m.value.card, m.value.included, k);
      assert ReadGroup(group) == Some(((m.value.card, m.value.included), k));
      if m.value.clause.Some? {
        LabelsBack(m.value.clause.value.labels, group);
      }
      assert ReadClause(RenderMatching(m, k)) == Some((m.value.clause, group));
    }
  }

  // ---- Precedence climbing ----

  /** An operator in k is too weak to be taken in by the last operand of e. */
  predicate Stops(e: Expr, k: Toks) {
    OpAt(k).Some? ==> Prec(OpAt(k).value) <= Level(e) && (Level(e) == POW_PREC ==> Prec(OpAt(k).value) < POW_PREC)
  }

  predicate Closes(k: Toks) { k.End? || k.head.RParen? || k.head.Comma? }

  /** Reading a printed tree arrives, with the tree as left operand, at the tokens behind it. */
  lemma {:induction false} ClimbBack(lx: Lexicon, e: Expr, k: Toks, min: nat)
    requires WellFormed(lx, e) && Level(e) >= min && Calm(k) && Stops(e, k)
    ensures ReadExpr(lx, Render(e, k), min) == ReadRest(lx, min, e, k)
    decreases e, 2
  {
    hide ReadRest;
    hide RenderMatching;
    hide Guarded;
    hide ReadPrimary;
    hide Calm;
    match e {
      case BinaryExpr(op, l, r, returnBool, matching) =>
        var right := Render(r, k);
        var rest := RenderMatching(matching, Guarded(right));
        var tail := if returnBool then Tok(Ident("bool"), rest) else rest;
        OperatorIsCalm(op, tail);
        OperandsFit(lx, op, l, r, returnBool, matching, k, min, tail);
        hide WellFormed;
        hide Level;
        hide Stops;
        hide OpToken;
        hide TokenOp;
        hide ReadExpr;
        ClimbBack(lx, l, Tok(OpToken(op), tail), min);
        ClimbBack(lx, r, k, NextMin(op));
        GuardDropped(lx, right, NextMin(op));
        OperatorTaken(lx, min, op, l, r, returnBool, matching, Guarded(right), k);
      case UnaryExpr(inner) =>
        UnaryFits(lx, inner, k);
        hide ReadExpr;
        ClimbBack(lx, inner, k, POW_PREC);
        RestStops(lx, POW_PREC, inner, k);
        UnaryArrives(lx, inner, k, min);
      case _ =>
        PrimaryBack(lx, e, k);
        hide WellFormed;
        PrimaryArrives(lx, e, k, min);
    }
  }

  lemma UnaryFits(lx: Lexicon, inner: Expr, k: Toks)
    requires WellFormed(lx, UnaryExpr(inner)) && Stops(UnaryExpr(inner), k)
    ensures WellFormed(lx, inner) && Level(inner) >= POW_PREC && Stops(inner, k)
    ensures OpAt(k).Some? ==> Prec(OpAt(k).value) < POW_PREC
  {
    hide TokenOp;
  }

  lemma UnaryArrives(lx: Lexicon, inner: Expr, k: Toks, min: nat)
    requires ReadExpr(lx, Render(inner, k), POW_PREC) == Some((inner, k))
    ensures ReadExpr(lx, Render(UnaryExpr(inner), k), min) == ReadRest(lx, min, UnaryExpr(inner), k)
  {
    hide ReadRest;
  }

  lemma PrimaryArrives(lx: Lexicon, e: Expr, k: Toks, min: nat)
    requires ReadPrimary(lx, Render(e, k)) == Some((e, k))
    requires Render(e, k).Tok? && !Render(e, k).head.Sub? && !Render(e, k).head.Add?
    ensures ReadExpr(lx, Render(e, k), min) == ReadRest(lx, min, e, k)
  {
    hide ReadRest;
    hide ReadPrimary;
    hide Render;
  }

  /** The operands of a well-formed tree can be read back on their own. */
  lemma OperandsFit(lx: Lexicon, op: Op, l: Expr, r: Expr, returnBool: bool, matching: Option<Matching>, k: Toks, min: nat,
                    tail: Toks)
    requires WellFormed(lx, BinaryExpr(op, l, r, returnBool, matching)) && Prec(op) >= min
    requires Stops(BinaryExpr(op, l, r, returnBool, matching), k)
    ensures WellFormed(lx, l) && Level(l) >= min && Stops(l, Tok(OpToken(op), tail))
    ensures WellFormed(lx, r) && Level(r) >= NextMin(op) && Stops(r, k)
    ensures matching.Some? ==> MatchingOk(matching.value)
    ensures OpAt(k).Some? ==> Prec(OpAt(k).value) < NextMin(op)
  {
    hide MatchingOk;
    hide OpToken;
    hide TokenOp;
  }

  /** One round of the climbing loop, given what reading the right operand yields. */
  lemma OperatorTaken(lx: Lexicon, min: nat, op: Op, l: Expr, r: Expr, returnBool: bool, matching: Option<Matching>,
                      right: Toks, k: Toks)
    requires Prec(op) >= min && (matching.Some? ==> MatchingOk(matching.value)) && !StartsLikeOperator(right)
    requires ReadExpr(lx, right, NextMin(op)) == ReadRest(lx, NextMin(op), r, k)
    requires OpAt(k).Some? ==> Prec(OpAt(k).value) < NextMin(op)
    ensures var rest := RenderMatching(matching, right);
            ReadRest(lx, min, l, Tok(OpToken(op), if returnBool then Tok(Ident("bool"), rest) else rest)) ==
            ReadRest(lx, min, BinaryExpr(op, l, r, returnBool, matching), k)
  {
    hide ReadMatching;
    hide RenderMatching;
    hide ReadExpr;
    hide ReadRest;
    hide StartsLikeOperator;
    hide MatchingOk;
    hide Prec;
    MatchingBack(matching, right);
    var rest := RenderMatching(matching, right);
    var tail := if returnBool then Tok(Ident("bool"), rest) else rest;
    assert ReadBool(tail) == (returnBool, rest);
    hide ReadBool;
    hide OpToken;
    RestStops(lx, NextMin(op), r, k);
    RestOnce(lx, min, op, l, r, returnBool, matching, tail, rest, right, k);
  }

  /** The climbing loop unfolded once. */
  lemma RestOnce(lx: Lexicon, min: nat, op: Op, l: Expr, r: Expr, returnBool: bool, matching: Option<Matching>,
                 tail: Toks, rest: Toks, right: Toks, k: Toks)
    requires Prec(op) >= min && ReadBool(tail) == (returnBool, rest) && ReadMatching(rest) == Some((matching, right))
    requires ReadExpr(lx, right, NextMin(op)) == Some((r, k))
    ensures ReadRest(lx, min, l, Tok(OpToken(op), tail)) == ReadRest(lx, min, BinaryExpr(op, l, r, returnBool, matching), k)
  {
    hide ReadMatching;
    hide ReadExpr;
    hide ReadBool;
    hide TokenOp;
    hide OpToken;
    hide Prec;
  }

  lemma RestStops(lx: Lexicon, min: nat, e: Expr, k: Toks)
    requires OpAt(k).Some? ==> Prec(OpAt(k).value) < min
    ensures ReadRest(lx, min, e, k) == Some((e, k))
  {
    hide ReadExpr;
    hide ReadMatching;
  }

  lemma OperatorIsCalm(op: Op, ts: Toks)
    ensures Calm(Tok(OpToken(op), ts))
  {
  }

  lemma GuardDropped(lx: Lexicon, ts: Toks, min: nat)
    ensures ReadExpr(lx, Guarded(ts), min) == ReadExpr(lx, ts, min)
    ensures !StartsLikeOperator(Guarded(ts))
  {
  }

  lemma {:induction false} InnerBack(lx: Lexicon, e: Expr, k: Toks)
    requires WellFormed(lx, e) && Closes(k)
    ensures ReadExpr(lx, Render(e, k), 0) == Some((e, k))
    decreases e, 3
  {
    ClimbBack(lx, e, k, 0);
    RestStops(lx, 0, e, k);
  }

  lemma {:induction false} PrimaryBack(lx: Lexicon, e: Expr, k: Toks)
    requires WellFormed(lx, e) && Level(e) == 7 && Calm(k)
    ensures ReadPrimary(lx, Render(e, k)) == Some((e, k))
    ensures Render(e, k).Tok? && !Render(e, k).head.Sub? && !Render(e, k).head.Add?
    decreases e, 1
  {
    hide IsAggregator;
    hide IsFunction;
    hide TakesParam;
    hide DurationOk;
    if e.VectorSelector? {
      var mods := e.mods;
      ModifiersEndBase(mods, k);
      SelectorBack(lx, e.name, e.matchers, RenderModifiers(mods, k));
      ModifiersBack(lx, VectorSelector(e.name, e.matchers, NO_MODIFIERS), mods, k);
    } else if e.MatrixSelector? {
      var afterRange := RenderModifiers(e.mods, k);
      SelectorBack(lx, e.name, e.matchers, RenderRange(e.range, Tok(RBracket, afterRange)));
      ModifiersBack(lx, MatrixSelector(e.name, e.matchers, e.range, NO_MODIFIERS), e.mods, k);
      RangeBack(e.name, e.matchers, e.range, afterRange);
    } else if e.SubqueryExpr? {
      var afterRange := RenderModifiers(e.mods, k);
      BaseBack(lx, e.e, RenderRange(e.range, RenderStep(e.step, afterRange)));
      ModifiersBack(lx, SubqueryExpr(e.e, e.range, e.step, NO_MODIFIERS), e.mods, k);
      SubqueryBack(e.e, e.range, e.step, afterRange);
    } else {
      BaseBack(lx, e, k);
    }
  }

  lemma RangeBack(name: string, ms: seq<Matcher>, range: string, k: Toks)
    requires DurationOk(range)
    ensures ReadRange(VectorSelector(name, ms, NO_MODIFIERS), RenderRange(range, Tok(RBracket, k))) ==
            Some((MatrixSelector(name, ms, range, NO_MODIFIERS), k))
  {
    hide DurationOk;
  }

  lemma SubqueryBack(e: Expr, range: string, step: Option<string>, k: Toks)
    requires DurationOk(range) && (step.Some? ==> DurationOk(step.value))
    ensures ReadRange(e, RenderRange(range, RenderStep(step, k))) == Some((SubqueryExpr(e, range, step, NO_MODIFIERS), k))
  {
    hide DurationOk;
  }

  lemma {:induction false} BaseBack(lx: Lexicon, e: Expr, k: Toks)
    requires WellFormed(lx, e) && IsBase(e) && EndsBase(k)
    ensures ReadBase(lx, Render(e, k)) == Some((e, k))
    ensures Render(e, k).Tok? && !Render(e, k).head.Sub? && !Render(e, k).head.Add?
    decreases e, 0
  {
    hide ReadRest;
    hide ReadUnary;
    hide ReadSelector;
    hide RenderMatching;
    hide IsAggregator;
    hide IsFunction;
    hide TakesParam;
    match e {
      case NumberLiteral(_) =>
      case StringLiteral(_) =>
      case VectorSelector(name, ms, _) =>
        SelectorBack(lx, name, ms, k);
      case ParenExpr(inner) =>
        InnerBack(lx, inner, Tok(RParen, k));
      case Call(f, args) =>
        ArgsBack(lx, args, Tok(RParen, k));
        hide ReadExpr;
        hide ReadArgs;
      case AggregateExpr(name, grouping, param, inner) =>
        var end := Tok(RParen, k);
        InnerBack(lx, inner, end);
        if param.Some? {
          InnerBack(lx, param.value, Tok(Comma, Render(inner, end)));
        }
        AggregateAssembles(lx, name, grouping, param, inner, k);
    }
  }

  lemma AggregateAssembles(lx: Lexicon, name: string, grouping: Option<Grouping>, param: Option<Expr>, inner: Expr, k: Toks)
    requires IsAggregator(name) && (param.Some? <==> TakesParam(name)) && EndsBase(k)
    requires ReadExpr(lx, Render(inner, Tok(RParen, k)), 0) == Some((inner, Tok(RParen, k)))
    requires param.Some? ==>
               var body := Tok(Comma, Render(inner, Tok(RParen, k)));
               ReadExpr(lx, Render(param.value, body), 0) == Some((param.value, body))
    ensures var e := AggregateExpr(name, grouping, param, inner);
            ReadBase(lx, Render(e, k)) == Some((e, k)) && Render(e, k).Tok? && Render(e, k).head.Ident?
  {
    hide IsAggregator;
    hide TakesParam;
    hide ReadExpr;
    hide ReadGrouping;
    hide RenderGrouping;
    var body := Render(inner, Tok(RParen, k));
    var inParens := match param case None => body case Some(p) => Render(p, Tok(Comma, body));
    GroupingBack(grouping, Tok(LParen, inParens));
    GroupingBack(None, k);
    NoGrouping(k);
    var e := AggregateExpr(name, grouping, param, inner);
    assert Render(e, k) == Tok(Ident(name), RenderGrouping(grouping, Tok(LParen, inParens)));
    assert ReadParam(lx, name, inParens) == Some((param, body));
    hide Render;
  }

  lemma NoGrouping(k: Toks)
    ensures RenderGrouping(None, k) == k
  {
  }

  lemma {:induction false} ArgsBack(lx: Lexicon, args: Args, k: Toks)
    requires ArgsWellFormed(lx, args) && At(k, RParen)
    ensures args.Arg? ==> ReadArgs(lx, RenderArgs(args, k)) == Some((args, k)) && !At(RenderArgs(args, k), RParen)
    decreases args, 4
  {
    hide IsAggregator;
    hide IsFunction;
    if args.Arg? {
      FirstToken(lx, args.first, if args.more.NoArgs? then k else Tok(Comma, RenderArgs(args.more, k)));
      if args.more.NoArgs? {
        InnerBack(lx, args.first, k);
      } else {
        ArgsBack(lx, args.more, k);
        InnerBack(lx, args.first, Tok(Comma, RenderArgs(args.more, k)));
      }
    }
  }

  lemma {:induction false} FirstToken(lx: Lexicon, e: Expr, k: Toks)
    requires WellFormed(lx, e)
    ensures Render(e, k).Tok? && !Render(e, k).head.RParen?
    decreases e
  {
    hide IsAggregator;
    hide IsFunction;
    hide TakesParam;
    hide DurationOk;
    hide RenderMatching;
    hide RenderModifiers;
    match e {
      case BinaryExpr(op, l, r, returnBool, matching) =>
        var right := RenderMatching(matching, Guarded(Render(r, k)));
        FirstToken(lx, l, Tok(OpToken(op), if returnBool then Tok(Ident("bool"), right) else right));
      case SubqueryExpr(inner, range, step, mods) =>
        FirstToken(lx, inner, RenderRange(range, RenderStep(step, RenderModifiers(mods, k))));
      case _ =>
    }
  }

  /** Parsing the tokens of a well-formed tree gives back the tree and uses them all. */
  lemma ParseOfRender(lx: Lexicon, e: Expr)
    requires WellFormed(lx, e)
    ensures Parsed(lx, Render(e, End)) == Some(e)
  {
    InnerBack(lx, e, End);
  }
}
