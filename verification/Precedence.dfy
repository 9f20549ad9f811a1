/** What the precedences are: how operators group, told from a fixed list of classes and on literal text. */
module Precedence {
  import opened Base
  import opened Syntax
  import opened Grammar
  import opened Rendering
  import opened Lexer
  import opened QueryText

  /** The operators, loosest first. */
  ghost const CLASSES: seq<set<Op>> := [
    {LOr}, {LAnd, LUnless}, {OpEql, OpNeq, OpGtr, OpLss, OpGte, OpLte}, {OpAdd, OpSub}, {OpMul, OpDiv, OpMod}, {OpPow}]

  /** q stands in a later class than p. */
  ghost predicate Tighter(q: Op, p: Op) {
    exists i, j :: 0 <= i < j < |CLASSES| && p in CLASSES[i] && q in CLASSES[j]
  }

  lemma InClass(op: Op, i: nat)
    requires i < |CLASSES|
    ensures op in CLASSES[i] <==> Prec(op) == i + 1
  {
  }

  lemma TighterIff(q: Op, p: Op)
    ensures Tighter(q, p) <==> Prec(q) > Prec(p)
  {
    forall i, j | 0 <= i < j < |CLASSES| && p in CLASSES[i] && q in CLASSES[j]
      ensures Prec(q) > Prec(p)
    {
      InClass(p, i);
      InClass(q, j);
    }
    InClass(p, Prec(p) - 1);
    InClass(q, Prec(q) - 1);
    assert p in CLASSES[Prec(p) - 1] && q in CLASSES[Prec(q) - 1];
  }

  /** Neither an operator nor a unary minus stands at the top. */
  predicate Operand(e: Expr) { !e.BinaryExpr? && !e.UnaryExpr? }

  /** x p y q z gives the middle operand to q: q is in a later class, or both are ^. */
  ghost predicate GroupsRight(p: Op, q: Op) { Tighter(q, p) || (p == OpPow && q == OpPow) }

  lemma LevelsGroup(op: Op, l: Expr, r: Expr)
    ensures (if op == OpPow then Level(l) > Prec(op) && Level(r) >= Prec(op) else Level(l) >= Prec(op) && Level(r) > Prec(op))
            <==>
            && (l.BinaryExpr? ==> !GroupsRight(l.op, op))
            && (r.BinaryExpr? ==> GroupsRight(op, r.op))
            && (l.UnaryExpr? ==> op != OpPow)
  {
    if l.BinaryExpr? {
      TighterIff(op, l.op);
    }
    if r.BinaryExpr? {
      TighterIff(r.op, op);
    }
    hide Tighter;
  }

  /**
   * An operator node is well formed exactly when its operands are and: an operator at the top of the left operand
   * would not have let the middle operand go, one at the top of the right operand takes it, and ^ has no unary minus
   * on its left.
   */
  lemma OperandsGroup(lx: Lexicon, op: Op, l: Expr, r: Expr, returnBool: bool, matching: Option<Syntax.Matching>)
    ensures WellFormed(lx, BinaryExpr(op, l, r, returnBool, matching)) <==>
            && WellFormed(lx, l) && WellFormed(lx, r) && (matching.Some? ==> MatchingOk(matching.value))
            && (l.BinaryExpr? ==> !GroupsRight(l.op, op))
            && (r.BinaryExpr? ==> GroupsRight(op, r.op))
            && (l.UnaryExpr? ==> op != OpPow)
  {
    hide MatchingOk;
    LevelsGroup(op, l, r);
    hide GroupsRight;
    hide Level;
    hide Prec;
  }

  function Plain(op: Op, l: Expr, r: Expr): Expr { BinaryExpr(op, l, r, false, None) }

  /** The tokens of x p y q z. */
  function Chain(x: Expr, p: Op, y: Expr, q: Op, z: Expr): Toks {
    Render(x, Tok(OpToken(p), Guarded(Render(y, Tok(OpToken(q), Guarded(Render(z, End)))))))
  }

  /** x p y q z is x p (y q z) exactly when q is in a later class than p or both are ^, and (x p y) q z otherwise. */
  lemma ChainGroups(lx: Lexicon, x: Expr, p: Op, y: Expr, q: Op, z: Expr)
    requires Operand(x) && Operand(y) && Operand(z) && WellFormed(lx, x) && WellFormed(lx, y) && WellFormed(lx, z)
    ensures Parsed(lx, Chain(x, p, y, q, z)) ==
            Some(if GroupsRight(p, q) then Plain(p, x, Plain(q, y, z)) else Plain(q, Plain(p, x, y), z))
  {
    hide Parsed;
    var e := if GroupsRight(p, q) then Plain(p, x, Plain(q, y, z)) else Plain(q, Plain(p, x, y), z);
    OperandsGroup(lx, q, y, z, false, None);
    OperandsGroup(lx, p, x, y, false, None);
    OperandsGroup(lx, p, x, Plain(q, y, z), false, None);
    OperandsGroup(lx, q, Plain(p, x, y), z, false, None);
    hide WellFormed;
    hide GroupsRight;
    ChainRendered(x, p, y, q, z);
    hide Render;
    ParseOfRender(lx, e);
  }

  lemma ChainRendered(x: Expr, p: Op, y: Expr, q: Op, z: Expr)
    ensures Chain(x, p, y, q, z) == Render(Plain(q, Plain(p, x, y), z), End)
    ensures Chain(x, p, y, q, z) == Render(Plain(p, x, Plain(q, y, z)), End)
  {
  }

  /** A unary minus takes a power, and nothing else. */
  lemma MinusGroups(lx: Lexicon, x: Expr, p: Op, y: Expr)
    requires Operand(x) && Operand(y) && WellFormed(lx, x) && WellFormed(lx, y)
    ensures Parsed(lx, Tok(Sub, Render(x, Tok(OpToken(p), Guarded(Render(y, End)))))) ==
            Some(if p == OpPow then UnaryExpr(Plain(p, x, y)) else Plain(p, UnaryExpr(x), y))
  {
    hide Parsed;
    var e := if p == OpPow then UnaryExpr(Plain(p, x, y)) else Plain(p, UnaryExpr(x), y);
    OperandsGroup(lx, p, x, y, false, None);
    OperandsGroup(lx, p, UnaryExpr(x), y, false, None);
    ParseOfRender(lx, e);
  }

  /** A unary plus is dropped, wherever an operand may stand. */
  lemma PlusDropped(lx: Lexicon, ts: Toks, min: nat)
    ensures ReadUnary(lx, Tok(Add, ts)) == ReadUnary(lx, ts)
    ensures Parsed(lx, Tok(Add, ts)) == Parsed(lx, ts)
  {
    hide ReadPrimary;
    hide ReadRest;
  }

  /** Parentheses keep what is in them together. */
  lemma ParenthesesGroup(lx: Lexicon, p: Op, q: Op, x: Expr, y: Expr, z: Expr)
    requires Operand(x) && Operand(y) && Operand(z) && WellFormed(lx, x) && WellFormed(lx, y) && WellFormed(lx, z)
    ensures Parsed(lx, Tok(LParen, Render(x, Tok(OpToken(p), Guarded(Render(y, Tok(RParen, Tok(OpToken(q), Guarded(Render(z, End)))))))))) ==
            Some(Plain(q, ParenExpr(Plain(p, x, y)), z))
  {
    hide Parsed;
    OperandsGroup(lx, p, x, y, false, None);
    assert WellFormed(lx, ParenExpr(Plain(p, x, y)));
    OperandsGroup(lx, q, ParenExpr(Plain(p, x, y)), z, false, None);
    hide WellFormed;
    ParenthesesRendered(p, q, x, y, z);
    ParseOfRender(lx, Plain(q, ParenExpr(Plain(p, x, y)), z));
    hide Render;
    hide GroupsRight;
    hide OpToken;
  }

  lemma ParenthesesRendered(p: Op, q: Op, x: Expr, y: Expr, z: Expr)
    ensures Render(Plain(q, ParenExpr(Plain(p, x, y)), z), End) ==
            Tok(LParen, Render(x, Tok(OpToken(p), Guarded(Render(y, Tok(RParen, Tok(OpToken(q), Guarded(Render(z, End)))))))))
  {
    hide OpToken;
    hide Guarded;
    var k := Tok(OpToken(q), Guarded(Render(z, End)));
    assert Render(ParenExpr(Plain(p, x, y)), k) == Tok(LParen, Render(Plain(p, x, y), Tok(RParen, k)));
  }

  /** f ( x , y ) has the arguments x and y in this order; aggr ( p , x ) the parameter p. */
  lemma ArgumentsInOrder(lx: Lexicon, f: string, aggr: string, x: Expr, y: Expr)
    requires IsFunction(f) && !IsAggregator(f) && IsAggregator(aggr) && TakesParam(aggr) && WellFormed(lx, x) && WellFormed(lx, y)
    ensures var inParens := Tok(LParen, Render(x, Tok(Comma, Render(y, Tok(RParen, End)))));
            && Parsed(lx, Tok(Ident(f), inParens)) == Some(Call(f, Arg(x, Arg(y, NoArgs))))
            && Parsed(lx, Tok(Ident(aggr), inParens)) == Some(AggregateExpr(aggr, None, Some(x), y))
  {
    ArgumentsRendered(f, aggr, x, y);
    hide Parsed;
    hide IsFunction;
    hide IsAggregator;
    hide TakesParam;
    hide Render;
    assert ArgsWellFormed(lx, Arg(y, NoArgs));
    ParseOfRender(lx, Call(f, Arg(x, Arg(y, NoArgs))));
    ParseOfRender(lx, AggregateExpr(aggr, None, Some(x), y));
  }

  lemma ArgumentsRendered(f: string, aggr: string, x: Expr, y: Expr)
    ensures var inParens := Tok(LParen, Render(x, Tok(Comma, Render(y, Tok(RParen, End)))));
            && Render(Call(f, Arg(x, Arg(y, NoArgs))), End) == Tok(Ident(f), inParens)
            && Render(AggregateExpr(aggr, None, Some(x), y), End) == Tok(Ident(aggr), inParens)
  {
    var k := Tok(RParen, End);
    assert RenderArgs(Arg(y, NoArgs), k) == Render(y, k);
    assert RenderArgs(Arg(x, Arg(y, NoArgs)), k) == Render(x, Tok(Comma, Render(y, k)));
  }

  // ---- The same on text ----

  /** How an operator is written. */
  function Written(op: Op): string {
    match op
    case LOr => "or"
    case LAnd => "and"
    case LUnless => "unless"
    case OpEql => "=="
    case OpNeq => "!="
    case OpGtr => ">"
    case OpLss => "<"
    case OpGte => ">="
    case OpLte => "<="
    case OpAdd => "+"
    case OpSub => "-"
    case OpMul => "*"
    case OpDiv => "/"
    case OpMod => "%"
    case OpPow => "^"
  }

  ghost predicate IsNumber(lx: Lexicon, x: string) { IsNumberText(x) && lx.numberOk(x) }

  /** Lexing a word and the space behind it. */
  lemma WordLexed(t: Token, word: string, rest: string)
    requires TokenOk(t, 0) && !t.LBracket? && !t.RBracket? && word == Spelling(t)
    ensures Lexed(word + " " + rest, 0) == match Lexed(rest, 0) case None => None case Some(ts) => Some(Tok(t, ts))
  {
    hide TokenOk;
    hide Spelling;
    hide NextToken;
    TokenBack(t, " " + rest, 0);
    var s := word + " " + rest;
    assert s == word + (" " + rest);
    assert s[|word|..] == " " + rest;
    assert (" " + rest)[1..] == rest;
  }

  lemma OperatorLexed(op: Op, rest: string)
    ensures Lexed(Written(op) + " " + rest, 0) == match Lexed(rest, 0) case None => None case Some(ts) => Some(Tok(OpToken(op), ts))
  {
    assert IsIdentText("or") && IsIdentText("and") && IsIdentText("unless");
    hide Lexed;
    hide IsIdentText;
    WordLexed(OpToken(op), Written(op), rest);
  }

  /** The text x p y q z. */
  function ChainText(x: string, p: Op, y: string, q: Op, z: string): string {
    x + " " + (Written(p) + " " + (y + " " + (Written(q) + " " + (z + " " + ""))))
  }

  /** On text: 1 + 2 * 3 is 1 + (2 * 3), 2 ^ 3 ^ 2 is 2 ^ (3 ^ 2), 1 - 2 - 3 is (1 - 2) - 3, for all numbers and operators. */
  lemma TextGroups(lx: Lexicon, x: string, p: Op, y: string, q: Op, z: string)
    requires IsNumber(lx, x) && IsNumber(lx, y) && IsNumber(lx, z)
    ensures var (a, b, c) := (NumberLiteral(x), NumberLiteral(y), NumberLiteral(z));
            ParsedText(lx, ChainText(x, p, y, q, z)) ==
            Some(if GroupsRight(p, q) then Plain(p, a, Plain(q, b, c)) else Plain(q, Plain(p, a, b), c))
  {
    hide IsNumberText;
    hide Parsed;
    ChainGroups(lx, NumberLiteral(x), p, NumberLiteral(y), q, NumberLiteral(z));
    hide GroupsRight;
    assert Lexed("", 0) == Some(End);
    hide Lexed;
    hide Written;
    hide OpToken;
    var z' := z + " " + "";
    var y' := y + " " + (Written(q) + " " + z');
    WordLexed(Number(z), z, "");
    OperatorLexed(q, z');
    WordLexed(Number(y), y, Written(q) + " " + z');
    OperatorLexed(p, y');
    WordLexed(Number(x), x, Written(p) + " " + y');
  }

  // ---- Words and signs of the other constructs ----

  /** How punctuation is written. */
  function Sign(t: Token): Option<string> {
    match t
    case LBrace => Some("{")
    case RBrace => Some("}")
    case LBracket => Some("[")
    case RBracket => Some("]")
    case LParen => Some("(")
    case RParen => Some(")")
    case Comma => Some(",")
    case Colon => Some(":")
    case AtSign => Some("@")
    case Eql => Some("=")
    case Neq => Some("!=")
    case EqlRegex => Some("=~")
    case NeqRegex => Some("!~")
    case _ => None
  }

  /** A sign gives its token; a colon is one only inside brackets, which nest. */
  lemma SignLexed(t: Token, depth: nat, rest: string)
    requires Sign(t).Some? && (t == Colon ==> depth > 0)
    ensures var inside := if t == LBracket then depth + 1 else if t == RBracket && depth > 0 then depth - 1 else depth;
            Lexed(Sign(t).value + " " + rest, depth) == match Lexed(rest, inside) case None => None case Some(ts) => Some(Tok(t, ts))
  {
    TokenBack(t, " " + rest, depth);
    var s := Sign(t).value + " " + rest;
    assert Spelling(t) == Sign(t).value;
    hide Sign;
    hide Spelling;
    hide NextToken;
    hide TokenOk;
    assert s == Spelling(t) + (" " + rest);
    assert s[|Spelling(t)|..] == " " + rest;
    assert (" " + rest)[1..] == rest;
  }

  /** Outside brackets a colon is a letter of a name. */
  lemma ColonOutside(rest: string)
    ensures Lexed(": " + rest, 0) == match Lexed(rest, 0) case None => None case Some(ts) => Some(Tok(Ident(":"), ts))
  {
    assert IsIdentText(":");
    assert ": " + rest == ":" + " " + rest;
    hide Lexed;
    WordLexed(Ident(":"), ":", rest);
  }

  function Selector(name: string, ms: seq<Matcher>): Expr { VectorSelector(name, ms, NO_MODIFIERS) }

  ghost predicate IsMetric(name: string) { name != "" && !IsAggregator(name) && !IsFunction(name) }

  /** name { a = "v" , b != "v" , c =~ "v" , d !~ "v" } */
  lemma MatchersWritten(lx: Lexicon, name: string, a: string, b: string, c: string, d: string, v: string)
    requires IsMetric(name) && lx.regexOk(v)
    ensures var four := Tok(Ident(a), Tok(Eql, Tok(Str(v), Tok(Comma, Tok(Ident(b), Tok(Neq, Tok(Str(v), Tok(Comma,
                        Tok(Ident(c), Tok(EqlRegex, Tok(Str(v), Tok(Comma, Tok(Ident(d), Tok(NeqRegex, Tok(Str(v),
                        Tok(RBrace, End))))))))))))))));
            Parsed(lx, Tok(Ident(name), Tok(LBrace, four))) ==
            Some(Selector(name, [Matcher(MatchEqual, a, v), Matcher(MatchNotEqual, b, v), Matcher(MatchRegexp, c, v),
                                 Matcher(MatchNotRegexp, d, v)]))
  {
    var ms := [Matcher(MatchEqual, a, v), Matcher(MatchNotEqual, b, v), Matcher(MatchRegexp, c, v), Matcher(MatchNotRegexp, d, v)];
    assert WellFormed(lx, Selector(name, ms));
    hide Parsed;
    hide IsAggregator;
    hide IsFunction;
    MatchersRendered(a, b, c, d, v);
    hide RenderMatchers;
    ParseOfRender(lx, Selector(name, ms));
  }

  lemma MatchersRendered(a: string, b: string, c: string, d: string, v: string)
    ensures RenderMatchers([Matcher(MatchEqual, a, v), Matcher(MatchNotEqual, b, v), Matcher(MatchRegexp, c, v), Matcher(MatchNotRegexp, d, v)], End) ==
            Tok(Ident(a), Tok(Eql, Tok(Str(v), Tok(Comma, Tok(Ident(b), Tok(Neq, Tok(Str(v), Tok(Comma,
            Tok(Ident(c), Tok(EqlRegex, Tok(Str(v), Tok(Comma, Tok(Ident(d), Tok(NeqRegex, Tok(Str(v),
            Tok(RBrace, End))))))))))))))))
  {
    var (m1, m2, m3, m4) := (Matcher(MatchEqual, a, v), Matcher(MatchNotEqual, b, v), Matcher(MatchRegexp, c, v), Matcher(MatchNotRegexp, d, v));
    assert [m3, m4][1..] == [m4];
    var two := RenderMatchers([m3, m4], End);
    assert two == Tok(Ident(c), Tok(EqlRegex, Tok(Str(v), Tok(Comma, RenderMatchers([m4], End)))));
    assert [m2, m3, m4][1..] == [m3, m4];
    var three := RenderMatchers([m2, m3, m4], End);
    assert three == Tok(Ident(b), Tok(Neq, Tok(Str(v), Tok(Comma, two))));
    assert [m1, m2, m3, m4][1..] == [m2, m3, m4];
    assert RenderMatchers([m1, m2, m3, m4], End) == Tok(Ident(a), Tok(Eql, Tok(Str(v), Tok(Comma, three))));
  }

  /** name [ range ] offset - d @ t, and name [ range : step ] @ start ( ) or @ end ( ) */
  lemma RangesWritten(lx: Lexicon, name: string, range: string, step: string, d: string, t: string)
    requires IsMetric(name) && DurationOk(range) && DurationOk(step) && DurationOk(d) && lx.numberOk(t)
    ensures Parsed(lx, Tok(Ident(name), Tok(LBracket, Tok(Duration(range), Tok(RBracket,
                       Tok(Ident("offset"), Tok(Sub, Tok(Duration(d), Tok(AtSign, Tok(Number(t), End)))))))))) ==
            Some(MatrixSelector(name, [], range, Modifiers(Some(OffsetMod(true, d)), Some(AtTime(false, t)))))
    ensures Parsed(lx, Tok(Ident(name), Tok(Ident("offset"), Tok(Duration(d), Tok(AtSign, Tok(Sub, Tok(Number(t), End))))))) ==
            Some(VectorSelector(name, [], Modifiers(Some(OffsetMod(false, d)), Some(AtTime(true, t)))))
    ensures Parsed(lx, Tok(Ident(name), Tok(LBracket, Tok(Duration(range), Tok(Colon, Tok(Duration(step), Tok(RBracket,
                       Tok(AtSign, Tok(Ident("start"), Tok(LParen, Tok(RParen, End))))))))))) ==
            Some(SubqueryExpr(Selector(name, []), range, Some(step), Modifiers(None, Some(AtStart))))
    ensures Parsed(lx, Tok(Ident(name), Tok(LBracket, Tok(Duration(range), Tok(Colon, Tok(RBracket,
                       Tok(AtSign, Tok(Ident("end"), Tok(LParen, Tok(RParen, End)))))))))) ==
            Some(SubqueryExpr(Selector(name, []), range, None, Modifiers(None, Some(AtEnd))))
  {
    hide Parsed;
    hide IsAggregator;
    hide IsFunction;
    hide DurationOk;
    ParseOfRender(lx, MatrixSelector(name, [], range, Modifiers(Some(OffsetMod(true, d)), Some(AtTime(false, t)))));
    ParseOfRender(lx, VectorSelector(name, [], Modifiers(Some(OffsetMod(false, d)), Some(AtTime(true, t)))));
    ParseOfRender(lx, SubqueryExpr(Selector(name, []), range, Some(step), Modifiers(None, Some(AtStart))));
    ParseOfRender(lx, SubqueryExpr(Selector(name, []), range, None, Modifiers(None, Some(AtEnd))));
  }

  /** x p bool on ( l ) group_left ( i ) y, and with ignoring and group_right. */
  lemma MatchingWritten(lx: Lexicon, x: Expr, p: Op, on: bool, l: string, left: bool, i: string, y: Expr)
    requires Operand(x) && Operand(y) && WellFormed(lx, x) && WellFormed(lx, y)
    ensures var group := Tok(Ident(if left then "group_left" else "group_right"), Tok(LParen, Tok(Ident(i), Tok(RParen,
                         Guarded(Render(y, End))))));
            var clause := Tok(Ident(if on then "on" else "ignoring"), Tok(LParen, Tok(Ident(l), Tok(RParen, group))));
            Parsed(lx, Render(x, Tok(OpToken(p), Tok(Ident("bool"), clause)))) ==
            Some(BinaryExpr(p, x, y, true,
                            Some(Matching(Some(MatchClause(on, [l])), if left then ManyToOne else OneToMany, [i]))))
  {
    hide Parsed;
    var m := Some(Matching(Some(MatchClause(on, [l])), if left then ManyToOne else OneToMany, [i]));
    OperandsGroup(lx, p, x, y, true, m);
    hide WellFormed;
    ParseOfRender(lx, BinaryExpr(p, x, y, true, m));
  }

  /** aggr by ( l ) ( x ) and aggr without ( l ) ( x ), or the grouping behind the argument. */
  lemma GroupingWritten(lx: Lexicon, aggr: string, without: bool, l: string, x: Expr)
    requires IsAggregator(aggr) && !TakesParam(aggr) && WellFormed(lx, x)
    ensures var clause := (k: Toks) => Tok(Ident(if without then "without" else "by"), Tok(LParen, Tok(Ident(l), Tok(RParen, k))));
            var argument := (k: Toks) => Tok(LParen, Render(x, Tok(RParen, k)));
            var e := AggregateExpr(aggr, Some(Grouping(without, [l])), None, x);
            Parsed(lx, Tok(Ident(aggr), clause(argument(End)))) == Some(e) &&
            Parsed(lx, Tok(Ident(aggr), argument(clause(End)))) == Some(e)
  {
    var e := AggregateExpr(aggr, Some(Grouping(without, [l])), None, x);
    var clause := Tok(Ident(if without then "without" else "by"), Tok(LParen, Tok(Ident(l), Tok(RParen, End))));
    GroupingBehind(lx, aggr, without, l, x);
    hide Parsed;
    hide IsAggregator;
    hide TakesParam;
    ParseOfRender(lx, e);
  }

  lemma GroupingBehind(lx: Lexicon, aggr: string, without: bool, l: string, x: Expr)
    requires IsAggregator(aggr) && !TakesParam(aggr) && WellFormed(lx, x)
    ensures var clause := Tok(Ident(if without then "without" else "by"), Tok(LParen, Tok(Ident(l), Tok(RParen, End))));
            Parsed(lx, Tok(Ident(aggr), Tok(LParen, Render(x, Tok(RParen, clause))))) ==
            Some(AggregateExpr(aggr, Some(Grouping(without, [l])), None, x))
  {
    var clause := Tok(Ident(if without then "without" else "by"), Tok(LParen, Tok(Ident(l), Tok(RParen, End))));
    var g := Some(Grouping(without, [l]));
    assert clause == RenderGrouping(g, End);
    GroupingBack(g, End);
    InnerBack(lx, x, Tok(RParen, clause));
    hide WellFormed;
    hide Render;
    hide RenderGrouping;
    hide Parsed;
    hide ReadAggregate;
    var inner := Render(x, Tok(RParen, clause));
    AggregateRead(lx, aggr, inner, x, clause, g);
    WholeQuery(lx, aggr, Tok(LParen, inner), AggregateExpr(aggr, g, None, x));
  }

  lemma AggregateRead(lx: Lexicon, aggr: string, inner: Toks, x: Expr, clause: Toks, g: Option<Grouping>)
    requires !TakesParam(aggr) && ReadExpr(lx, inner, 0) == Some((x, Tok(RParen, clause)))
    requires ReadGrouping(clause) == Some((g, End))
    ensures ReadAggregate(lx, aggr, Tok(LParen, inner)) == Some((AggregateExpr(aggr, g, None, x), End))
  {
    var argument := Tok(LParen, inner);
    assert ReadGrouping(argument) == Some((None, argument));
    assert ReadParam(lx, aggr, inner) == Some((None, inner));
    hide ReadExpr;
    hide ReadGrouping;
    hide ReadParam;
    hide TakesParam;
  }

  lemma WholeQuery(lx: Lexicon, aggr: string, ts: Toks, e: Expr)
    requires IsAggregator(aggr) && ReadAggregate(lx, aggr, ts) == Some((e, End))
    ensures Parsed(lx, Tok(Ident(aggr), ts)) == Some(e)
  {
    hide IsAggregator;
    hide ReadAggregate;
    var all := Tok(Ident(aggr), ts);
    assert ReadBase(lx, all) == Some((e, End));
    assert ReadPrimary(lx, all) == Some((e, End));
    hide ReadBase;
    RestStops(lx, 0, e, End);
    assert ReadUnary(lx, all) == Some((e, End));
    hide ReadUnary;
    hide ReadRest;
    assert ReadExpr(lx, all, 0) == ReadRest(lx, 0, e, End);
  }
}
