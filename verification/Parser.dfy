/** The recursive-descent parser: a cursor over the tokens, advanced by each routine. */
module Parser {
  import opened Base
  import opened Syntax
  import opened Grammar
  import Rendering
  import Accepted

  /** The tokens from position i on; End stands for the end-of-input token. */
  function TokensFrom(toks: seq<Token>, i: nat): Toks
    decreases |toks| - i
  {
    if i >= |toks| then End else Tok(toks[i], TokensFrom(toks, i + 1))
  }

  class Cursor {
    const lx: Lexicon
    const toks: seq<Token>
    var pos: nat

    constructor (lx: Lexicon, toks: seq<Token>)
      ensures this.lx == lx && this.toks == toks && Valid() && Left() == TokensFrom(toks, 0)
    {
      this.lx, this.toks, pos := lx, toks, 0;
    }

    ghost predicate Valid()
      reads this
    {
      pos <= |toks|
    }

    /** What is left to parse. */
    ghost function Left(): Toks
      reads this
    {
      TokensFrom(toks, pos)
    }

    /** The routine read what the grammar says, and the cursor stands behind it; after an error it stands anywhere. */
    ghost predicate Agrees<T(!new)>(r: Option<T>, spec: Option<(T, Toks)>)
      reads this
    {
      match spec
      case None => r.None?
      case Some((v, rest)) => r == Some(v) && Left() == rest
    }

    lemma Next()
      ensures Left() == if pos < |toks| then Tok(toks[pos], TokensFrom(toks, pos + 1)) else End
    {
    }

    predicate Is(t: Token)
      reads this
    {
      pos < |toks| && toks[pos] == t
    }

    predicate IsIdent()
      reads this
    {
      pos < |toks| && toks[pos].Ident?
    }

    method Accept(t: Token) returns (ok: bool)
      requires Valid()
      modifies this
      ensures Valid()
      ensures ok == At(old(Left()), t)
      ensures Left() == if ok then old(Left()).rest else old(Left())
      ensures pos == if ok then old(pos) + 1 else old(pos)
    {
      ok := Is(t);
      if ok {
        pos := pos + 1;
      }
    }

    method ExpectIdent() returns (r: Option<string>)
      requires Valid()
      modifies this
      ensures Valid()
      ensures if AtIdent(old(Left())) then r == Some(old(Left()).head.val) && Left() == old(Left()).rest
              else r.None? && Left() == old(Left())
      ensures pos == if r.Some? then old(pos) + 1 else old(pos)
    {
      if !IsIdent() {
        return None;
      }
      r := Some(toks[pos].val);
      pos := pos + 1;
    }

    method ExpectDuration() returns (r: Option<string>)
      requires Valid()
      modifies this
      ensures Valid()
      ensures if AtDuration(old(Left())) then r == Some(old(Left()).head.val) && Left() == old(Left()).rest
              else r.None? && Left() == old(Left())
    {
      if pos >= |toks| || !toks[pos].Duration? {
        return None;
      }
      r := Some(toks[pos].val);
      pos := pos + 1;
    }

    /** The operator at the cursor. */
    method BinaryOpInfo() returns (op: Option<Op>)
      requires Valid()
      ensures op == OpAt(Left())
    {
      op := if pos < |toks| then TokenOp(toks[pos]) else None;
    }

    method ParseLabelList() returns (r: Option<seq<string>>)
      requires Valid()
      modifies this
      ensures Valid() && Agrees(r, ReadLabelList(old(Left())))
    {
      var open := Accept(LParen);
      if !open {
        return None;
      }
      var labels: seq<string> := [];
      ghost var start := Left();
      while !Is(RParen)
        invariant Valid()
        invariant ReadLabels(start) == PutFront(labels, ReadLabels(Left()))
        decreases |toks| - pos
      {
        ghost var before, tail := labels, Left();
        var name := ExpectIdent();
        if name.None? {
          return None;
        }
        labels := labels + [name.value];
        var comma := Accept(Comma);
        if !comma && !Is(RParen) {
          return None;
        }
        PutFrontSnoc(before, name.value, ReadLabels(Left()));
      }
      assert labels + [] == labels;
      pos := pos + 1;
      return Some(labels);
    }

    method ParseMatchers() returns (r: Option<seq<Matcher>>)
      requires Valid()
      modifies this
      ensures Valid()
      ensures if At(old(Left()), LBrace) then Agrees(r, ReadMatchers(lx, old(Left()).rest)) else r.None?
    {
      hide ReadMatcher;
      var open := Accept(LBrace);
      if !open {
        return None;
      }
      var out: seq<Matcher> := [];
      ghost var start := Left();
      while !Is(RBrace)
        invariant Valid()
        invariant ReadMatchers(lx, start) == PutFront(out, ReadMatchers(lx, Left()))
        decreases Size(Left())
      {
        ghost var before := out;
        var m := ParseMatcher();
        if m.None? {
          return None;
        }
        out := out + [m.value];
        var comma := Accept(Comma);
        if !comma && !Is(RBrace) {
          return None;
        }
        PutFrontSnoc(before, m.value, ReadMatchers(lx, Left()));
      }
      assert out + [] == out;
      pos := pos + 1;
      return Some(out);
    }

    /** One round of the matcher loop: name, operator, quoted value. */
    method ParseMatcher() returns (r: Option<Matcher>)
      requires Valid()
      modifies this
      ensures Valid() && Agrees(r, ReadMatcher(lx, old(Left())))
    {
      var name := ExpectIdent();
      if name.None? {
        return None;
      }
      Next();
      if pos >= |toks| {
        return None;
      }
      Next();
      var typ := MatchTypeOf(toks[pos]);
      pos := pos + 1;
      Next();
      if typ.None? || pos >= |toks| || !toks[pos].Str? {
        return None;
      }
      var m := Matcher(typ.value, name.value, toks[pos].val);
      if !MatcherOk(lx, m) {
        return None;
      }
      pos := pos + 1;
      return Some(m);
    }

    /** on(...) or ignoring(...), if there is one. */
    method ParseClause() returns (r: Option<Option<MatchClause>>)
      requires Valid()
      modifies this
      ensures Valid() && Agrees(r, ReadClause(old(Left())))
    {
      hide ReadLabelList;
      if !Is(Ident("on")) && !Is(Ident("ignoring")) {
        return Some(None);
      }
      var on := Is(Ident("on"));
      pos := pos + 1;
      var labels := ParseLabelList();
      if labels.None? {
        return None;
      }
      return Some(Some(MatchClause(on, labels.value)));
    }

    /** group_left or group_right with its optional label list, if there is one. */
    method ParseGroup() returns (r: Option<(Card, seq<string>)>)
      requires Valid()
      modifies this
      ensures Valid() && Agrees(r, ReadGroup(old(Left())))
    {
      hide ReadLabelList;
      if !Is(Ident("group_left")) && !Is(Ident("group_right")) {
        return Some((OneToOne, []));
      }
      var card := if Is(Ident("group_left")) then ManyToOne else OneToMany;
      pos := pos + 1;
      Next();
      if !Is(LParen) {
        return Some((card, []));
      }
      var labels := ParseLabelList();
      if labels.None? {
        return None;
      }
      return Some((card, labels.value));
    }

    method ParseVectorMatching() returns (r: Option<Option<Matching>>)
      requires Valid()
      modifies this
      ensures Valid() && Agrees(r, ReadMatching(old(Left())))
    {
      hide ReadClause;
      hide ReadGroup;
      var clause := ParseClause();
      if clause.None? {
        return None;
      }
      var group := ParseGroup();
      if group.None? {
        return None;
      }
      if clause.value.None? && group.value.0 == OneToOne {
        return Some(None);
      }
      return Some(Some(Matching(clause.value, group.value.0, group.value.1)));
    }

    method ParseGrouping() returns (r: Option<Option<Grouping>>)
      requires Valid()
      modifies this
      ensures Valid() && Agrees(r, ReadGrouping(old(Left())))
    {
      hide ReadLabelList;
      if !Is(Ident("by")) && !Is(Ident("without")) {
        return Some(None);
      }
      var without := Is(Ident("without"));
      pos := pos + 1;
      var labels := ParseLabelList();
      if labels.None? {
        return None;
      }
      return Some(Some(Grouping(without, labels.value)));
    }

    // ---- Postfix ----

    method ParseRange(e: Expr) returns (r: Option<Expr>)
      requires Valid()
      modifies this
      ensures Valid() && Agrees(r, ReadRange(e, old(Left())))
    {
      hide DurationOk;
      var open := Accept(LBracket);
      if !open {
        return Some(e);
      }
      var range := ExpectDuration();
      if range.None? || !DurationOk(range.value) {
        return None;
      }
      var colon := Accept(Colon);
      if colon {
        var step := ExpectDuration();
        if step.Some? && !DurationOk(step.value) {
          return None;
        }
        var close := Accept(RBracket);
        return if close then Some(SubqueryExpr(e, range.value, step, NO_MODIFIERS)) else None;
      }
      var close := Accept(RBracket);
      if !close || !e.VectorSelector? {
        return None;
      }
      return Some(MatrixSelector(e.name, e.matchers, range.value, NO_MODIFIERS));
    }

    method ParseOffset() returns (r: Option<OffsetMod>)
      requires Valid()
      modifies this
      ensures Valid() && Agrees(r, ReadOffset(old(Left())))
    {
      hide DurationOk;
      var neg := Accept(Sub);
      if !neg {
        var plus := Accept(Add);
      }
      var d := ExpectDuration();
      if d.None? || !DurationOk(d.value) {
        return None;
      }
      return Some(OffsetMod(neg, d.value));
    }

    method ParseAtModifier() returns (r: Option<AtMod>)
      requires Valid()
      modifies this
      ensures Valid() && Agrees(r, ReadAt(lx, old(Left())))
    {
      hide TokensFrom;
      Next();
      if pos >= |toks| {
        return None;
      }
      match toks[pos] {
        case Number(text) =>
          pos := pos + 1;
          return if lx.numberOk(text) then Some(AtTime(false, text)) else None;
        case Sub =>
          pos := pos + 1;
          Next();
          if pos >= |toks| || !toks[pos].Number? {
            return None;
          }
          r := Some(AtTime(true, toks[pos].val));
          pos := pos + 1;
        case Ident(kw) =>
          pos := pos + 1;
          var open := Accept(LParen);
          if !open {
            return None;
          }
          var close := Accept(RParen);
          if !close {
            return None;
          }
          return if kw == "start" then Some(AtStart) else if kw == "end" then Some(AtEnd) else None;
        case _ =>
          return None;
      }
    }

    method ParsePostfix(base: Expr) returns (r: Option<Expr>)
      requires Valid()
      modifies this
      ensures Valid() && Agrees(r, ReadPostfix(lx, base, old(Left())))
    {
      hide ReadRange;
      hide ReadOffset;
      hide ReadAt;
      var ranged := ParseRange(base);
      if ranged.None? {
        return None;
      }
      var e := ranged.value;
      ghost var first, start := e, Left();
      while true
        invariant Valid()
        invariant ReadModifiers(lx, first, start) == ReadModifiers(lx, e, Left())
        decreases Size(Left())
      {
        var offset := Accept(Ident("offset"));
        if offset {
          var off := ParseOffset();
          if off.None? || !TakesModifiers(e) {
            return None;
          }
          e := WithModifiers(e, e.mods.(offset := Some(off.value)));
          continue;
        }
        var at := Accept(AtSign);
        if at {
          var mod := ParseAtModifier();
          if mod.None? || !TakesModifiers(e) {
            return None;
          }
          e := WithModifiers(e, e.mods.(at := Some(mod.value)));
          continue;
        }
        return Some(e);
      }
    }

    method ParseSelectorFrom(name: string) returns (r: Option<Expr>)
      requires Valid()
      modifies this
      ensures Valid() && Agrees(r, ReadSelector(lx, name, old(Left())))
    {
      hide ReadMatchers;
      var ms: seq<Matcher> := [];
      if Is(LBrace) {
        var parsed := ParseMatchers();
        if parsed.None? {
          return None;
        }
        ms := parsed.value;
      }
      if name == "" && ms == [] {
        return None;
      }
      return Some(VectorSelector(name, ms, NO_MODIFIERS));
    }

    // ---- Expressions ----

    /** Precedence climbing: takes in every operator of at least minimal precedence. */
    method ParseExpr(minPrec: nat) returns (r: Option<Expr>)
      requires Valid()
      modifies this
      ensures Valid() && Agrees(r, ReadExpr(lx, old(Left()), minPrec))
      decreases Size(Left()), 4
    {
      hide ReadUnary;
      hide ReadMatching;
      ghost var before := Left();
      var first := ParseUnary();
      if first.None? {
        return None;
      }
      var left := first.value;
      ghost var start := Left();
      while true
        invariant Valid() && Size(Left()) < Size(before)
        invariant ReadExpr(lx, before, minPrec) == ReadRest(lx, minPrec, left, Left())
        decreases Size(Left())
      {
        var op := BinaryOpInfo();
        if op.None? || Prec(op.value) < minPrec {
          return Some(left);
        }
        pos := pos + 1;
        var returnBool := Accept(Ident("bool"));
        var matching := ParseVectorMatching();
        if matching.None? {
          return None;
        }
        var right := ParseExpr(NextMin(op.value));
        if right.None? {
          return None;
        }
        left := BinaryExpr(op.value, left, right.value, returnBool, matching.value);
      }
    }

    method ParseUnary() returns (r: Option<Expr>)
      requires Valid()
      modifies this
      ensures Valid() && Agrees(r, ReadUnary(lx, old(Left())))
      decreases Size(Left()), 3
    {
      hide ReadExpr;
      hide ReadPrimary;
      if Is(Sub) {
        pos := pos + 1;
        var e := ParseExpr(POW_PREC);
        return if e.None? then None else Some(UnaryExpr(e.value));
      }
      if Is(Add) {
        pos := pos + 1;
        r := ParseUnary();
        return;
      }
      r := ParsePrimary();
    }

    method ParsePrimary() returns (r: Option<Expr>)
      requires Valid()
      modifies this
      ensures Valid() && Agrees(r, ReadPrimary(lx, old(Left())))
      decreases Size(Left()), 2
    {
      hide ReadBase;
      hide ReadPostfix;
      var base := ParseBase();
      if base.None? {
        return None;
      }
      r := ParsePostfix(base.value);
    }

    /** A primary expression without its postfix. */
    method ParseBase() returns (r: Option<Expr>)
      requires Valid()
      modifies this
      ensures Valid() && Agrees(r, ReadBase(lx, old(Left())))
      decreases Size(Left()), 1
    {
      hide IsAggregator;
      hide IsFunction;
      hide ReadExpr;
      hide ReadSelector;
      hide ReadCall;
      hide ReadAggregate;
      if pos >= |toks| {
        return None;
      }
      match toks[pos] {
        case Number(text) =>
          pos := pos + 1;
          return if lx.numberOk(text) then Some(NumberLiteral(text)) else None;
        case Str(val) =>
          pos := pos + 1;
          return Some(StringLiteral(val));
        case LParen =>
          pos := pos + 1;
          var inner := ParseExpr(0);
          if inner.None? {
            return None;
          }
          var close := Accept(RParen);
          return if close then Some(ParenExpr(inner.value)) else None;
        case LBrace =>
          r := ParseSelectorFrom("");
        case Ident(name) =>
          pos := pos + 1;
          if IsAggregator(name) {
            r := ParseAggregate(name);
          } else if IsFunction(name) {
            r := ParseCall(name);
          } else {
            r := ParseSelectorFrom(name);
          }
        case _ =>
          return None;
      }
    }

    method ParseCall(name: string) returns (r: Option<Expr>)
      requires Valid()
      modifies this
      ensures Valid() && Agrees(r, ReadCall(lx, name, old(Left())))
      decreases Size(Left()), 0
    {
      hide ReadArgs;
      var open := Accept(LParen);
      if !open {
        return None;
      }
      if Is(RParen) {
        pos := pos + 1;
        return Some(Call(name, NoArgs));
      }
      var args := ParseArgs();
      if args.None? {
        return None;
      }
      var close := Accept(RParen);
      return if close then Some(Call(name, args.value)) else None;
    }

    method ParseArgs() returns (r: Option<Args>)
      requires Valid()
      modifies this
      ensures Valid() && Agrees(r, ReadArgs(lx, old(Left())))
      decreases Size(Left()), 5
    {
      hide ReadExpr;
      var e := ParseExpr(0);
      if e.None? {
        return None;
      }
      var comma := Accept(Comma);
      if !comma {
        return Some(Arg(e.value, NoArgs));
      }
      var more := ParseArgs();
      return if more.None? then None else Some(Arg(e.value, more.value));
    }

    method ParseAggregate(name: string) returns (r: Option<Expr>)
      requires Valid()
      modifies this
      ensures Valid() && Agrees(r, ReadAggregate(lx, name, old(Left())))
      decreases Size(Left()), 0
    {
      hide TakesParam;
      hide ReadExpr;
      hide ReadGrouping;
      ghost var ts := Left();
      var before := ParseGrouping();
      if before.None? {
        return None;
      }
      var open := Accept(LParen);
      if !open {
        return None;
      }
      var param: Option<Expr> := None;
      if TakesParam(name) {
        param := ParseExpr(0);
        if param.None? {
          return None;
        }
        var comma := Accept(Comma);
        if !comma {
          return None;
        }
      }
      var inner := ParseExpr(0);
      if inner.None? {
        return None;
      }
      var close := Accept(RParen);
      if !close {
        return None;
      }
      if before.value.Some? {
        return Some(AggregateExpr(name, before.value, param, inner.value));
      }
      var after := ParseGrouping();
      return if after.None? then None else Some(AggregateExpr(name, after.value, param, inner.value));
    }
  }

  ghost function PutFront<T>(done: seq<T>, r: Option<(seq<T>, Toks)>): (p: Option<(seq<T>, Toks)>)
    ensures done == [] ==> p == r
  {
    match r
    case None => None
    case Some((xs, rest)) => assert done == [] ==> done + xs == xs; Some((done + xs, rest))
  }

  lemma PutFrontSnoc<T>(done: seq<T>, x: T, r: Option<(seq<T>, Toks)>)
    ensures PutFront(done, PutFront([x], r)) == PutFront(done + [x], r)
  {
    if r.Some? {
      assert done + ([x] + r.value.0) == done + [x] + r.value.0;
    }
  }

  /** Parses a whole token list; the result is a well-formed tree exactly when the list is in the language. */
  method Parse(lx: Lexicon, toks: seq<Token>) returns (r: Option<Expr>)
    ensures r == Parsed(lx, TokensFrom(toks, 0))
    ensures r.Some? ==> Rendering.WellFormed(lx, r.value)
  {
    hide ReadExpr;
    hide Rendering.WellFormed;
    var p := new Cursor(lx, toks);
    r := p.ParseExpr(0);
    if r.Some? && p.pos < |toks| {
      r := None;
    }
    Accepted.WellFormedIffParsable(lx, if r.Some? then r.value else NumberLiteral(""));
  }

  // ---- Durations ----

  /** The leading count of a duration, saturating at the largest int64. */
  function CountOf(s: string): Int64 {
    var value := DecimalValue(s[..DigitRun(s)]);
    if value < TWO_63 then value else TWO_63 - 1
  }

  /** One count and unit at position i. */
  lemma DurationAt(s: string, i: nat, total: Int64)
    requires i < |s|
    ensures var n := DigitRun(s[i..]);
            && n <= |s| - i
            && DurationFrom(s[i..], total) ==
               if n == 0 || i + n >= |s| || UnitMs(s[i + n]).None? then None
               else
                 DurationFrom(s[i + n + 1..], Wrap64(total + Wrap64(CountOf(s[i..]) * UnitMs(s[i + n]).value)))
  {
    hide DigitRun;
    hide DecimalValue;
    hide Wrap64;
    hide UnitMs;
    var n := DigitRun(s[i..]);
    if n > 0 && i + n < |s| {
      assert s[i..][n + 1..] == s[i + n + 1..];
    }
  }

  /** One round: a count and a unit at position i, or nothing when they are malformed. */
  method ParsePart(s: string, i: nat, total: Int64) returns (r: Option<(nat, Int64)>)
    requires i < |s|
    ensures r.None? ==> DurationFrom(s[i..], total).None?
    ensures r.Some? ==> i < r.value.0 <= |s| && DurationFrom(s[i..], total) == DurationFrom(s[r.value.0..], r.value.1)
  {
    hide DurationFrom;
    hide DigitRun;
    hide DecimalValue;
    hide Wrap64;
    hide UnitMs;
    DurationAt(s, i, total);
    var n := DigitRun(s[i..]);
    if n == 0 || i + n >= |s| {
      return None;
    }
    var unit := UnitMs(s[i + n]);
    if unit.None? {
      return None;
    }
    var num := CountOf(s[i..]);
    return Some((i + n + 1, Wrap64(total + Wrap64(num * unit.value))));
  }

  /** Compound durations: a number and a unit, repeated. */
  method ParseDuration(s: string) returns (r: Option<Int64>)
    ensures r == DurationMs(s)
  {
    if s == "" {
      return None;
    }
    var total: Int64 := 0;
    var i := 0;
    assert s[0..] == s;
    while i < |s|
      invariant i <= |s|
      invariant DurationFrom(s, 0) == DurationFrom(s[i..], total)
    {
      var part := ParsePart(s, i, total);
      if part.None? {
        return None;
      }
      i, total := part.value.0, part.value.1;
    }
    return Some(total);
  }
}
