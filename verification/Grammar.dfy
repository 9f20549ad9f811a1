/** The language the precedence-climbing parser accepts, as functions from the tokens left to tree and rest. */
module Grammar {
  import opened Base
  import opened Syntax

  function Size(ts: Toks): nat {
    match ts
    case End => 0
    case Tok(_, rest) => 1 + Size(rest)
  }

  predicate At(ts: Toks, t: Token) { ts.Tok? && ts.head == t }

  predicate AtIdent(ts: Toks) { ts.Tok? && ts.head.Ident? }

  predicate AtDuration(ts: Toks) { ts.Tok? && ts.head.Duration? }

  function OpAt(ts: Toks): Option<Op> {
    if ts.End? then None else TokenOp(ts.head)
  }

  // ---- Label lists, matchers, matching clauses ----

  /** identifiers, each followed by a comma or the closing parenthesis */
  function ReadLabels(ts: Toks): (r: Option<(seq<string>, Toks)>)
    ensures r.Some? ==> Size(r.value.1) < Size(ts)
    decreases Size(ts)
  {
    if At(ts, RParen) then Some(([], ts.rest))
    else if !AtIdent(ts) then None
    else
      var rest := ts.rest;
      if At(rest, Comma) || At(rest, RParen) then
        match ReadLabels(if At(rest, Comma) then rest.rest else rest)
        case None => None
        case Some((ls, end)) => Some(([ts.head.val] + ls, end))
      else None
  }

  function ReadLabelList(ts: Toks): (r: Option<(seq<string>, Toks)>)
    ensures r.Some? ==> Size(r.value.1) < Size(ts)
  {
    if At(ts, LParen) then ReadLabels(ts.rest) else None
  }

  function MatchTypeOf(t: Token): Option<MatchType> {
    match t
    case Eql => Some(MatchEqual)
    case Neq => Some(MatchNotEqual)
    case EqlRegex => Some(MatchRegexp)
    case NeqRegex => Some(MatchNotRegexp)
    case _ => None
  }

  predicate MatcherOk(lx: Lexicon, m: Matcher) {
    (m.typ == MatchRegexp || m.typ == MatchNotRegexp) ==> lx.regexOk(m.value)
  }

  function ReadMatcher(lx: Lexicon, ts: Toks): (r: Option<(Matcher, Toks)>)
    ensures r.Some? ==> Size(r.value.1) < Size(ts)
  {
    if !AtIdent(ts) || ts.rest.End? then None
    else
      var typ, afterOp := MatchTypeOf(ts.rest.head), ts.rest.rest;
      if typ.None? || afterOp.End? || !afterOp.head.Str? then None
      else
        var m := Matcher(typ.value, ts.head.val, afterOp.head.val);
        assert Size(afterOp.rest) < Size(ts.rest.rest) < Size(ts.rest);
        if MatcherOk(lx, m) then Some((m, afterOp.rest)) else None
  }

  /** matchers, each followed by a comma or the closing brace */
  function ReadMatchers(lx: Lexicon, ts: Toks): (r: Option<(seq<Matcher>, Toks)>)
    ensures r.Some? ==> Size(r.value.1) < Size(ts)
    decreases Size(ts)
  {
    if At(ts, RBrace) then Some(([], ts.rest))
    else
      match ReadMatcher(lx, ts)
      case None => None
      case Some((m, rest)) =>
        if At(rest, Comma) || At(rest, RBrace) then
          match ReadMatchers(lx, if At(rest, Comma) then rest.rest else rest)
          case None => None
          case Some((ms, end)) => Some(([m] + ms, end))
        else None
  }

  function ReadBool(ts: Toks): (r: (bool, Toks))
    ensures Size(r.1) <= Size(ts)
  {
    if At(ts, Ident("bool")) then (true, ts.rest) else (false, ts)
  }

  /** on(...)/ignoring(...), if there. */
  function ReadClause(ts: Toks): (r: Option<(Option<MatchClause>, Toks)>)
    ensures r.Some? ==> Size(r.value.1) <= Size(ts)
  {
    if At(ts, Ident("on")) || At(ts, Ident("ignoring")) then
      match ReadLabelList(ts.rest)
      case None => None
      case Some((ls, rest)) => Some((Some(MatchClause(ts.head.val == "on", ls)), rest))
    else Some((None, ts))
  }

  /** group_left/group_right with an optional label list, if there. */
  function ReadGroup(ts: Toks): (r: Option<((Card, seq<string>), Toks)>)
    ensures r.Some? ==> Size(r.value.1) <= Size(ts)
  {
    if At(ts, Ident("group_left")) || At(ts, Ident("group_right")) then
      var card := if ts.head.val == "group_left" then ManyToOne else OneToMany;
      if At(ts.rest, LParen) then
        match ReadLabelList(ts.rest)
        case None => None
        case Some((ls, rest)) => Some(((card, ls), rest))
      else Some(((card, []), ts.rest))
    else Some(((OneToOne, []), ts))
  }

  function ReadMatching(ts: Toks): (r: Option<(Option<Matching>, Toks)>)
    ensures r.Some? ==> Size(r.value.1) <= Size(ts)
  {
    match ReadClause(ts)
    case None => None
    case Some((clause, rest)) =>
      match ReadGroup(rest)
      case None => None
      case Some(((card, included), end)) =>
        if clause.None? && card == OneToOne then Some((None, end))
        else Some((Some(Matching(clause, card, included)), end))
  }

  function ReadGrouping(ts: Toks): (r: Option<(Option<Grouping>, Toks)>)
    ensures r.Some? ==> Size(r.value.1) <= Size(ts)
  {
    if At(ts, Ident("by")) || At(ts, Ident("without")) then
      match ReadLabelList(ts.rest)
      case None => None
      case Some((ls, rest)) => Some((Some(Grouping(ts.head.val == "without", ls)), rest))
    else Some((None, ts))
  }

  // ---- Postfix: ranges, subqueries, offset and @ ----

  predicate TakesModifiers(e: Expr) { e.VectorSelector? || e.MatrixSelector? || e.SubqueryExpr? }

  function WithModifiers(e: Expr, mods: Modifiers): (r: Expr)
    requires TakesModifiers(e)
    ensures TakesModifiers(r)
  {
    match e
    case VectorSelector(n, ms, _) => VectorSelector(n, ms, mods)
    case MatrixSelector(n, ms, range, _) => MatrixSelector(n, ms, range, mods)
    case SubqueryExpr(inner, range, step, _) => SubqueryExpr(inner, range, step, mods)
  }

  /** offset [-|+] duration */
  function ReadOffset(ts: Toks): (r: Option<(OffsetMod, Toks)>)
    ensures r.Some? ==> Size(r.value.1) < Size(ts)
  {
    var neg := At(ts, Sub);
    var rest := if At(ts, Sub) || At(ts, Add) then ts.rest else ts;
    if AtDuration(rest) && DurationOk(rest.head.val) then Some((OffsetMod(neg, rest.head.val), rest.rest)) else None
  }

  /** A number, a negated number, start() or end(). A negated number is not checked. */
  function ReadAt(lx: Lexicon, ts: Toks): (r: Option<(AtMod, Toks)>)
    ensures r.Some? ==> Size(r.value.1) < Size(ts)
  {
    if ts.End? then None
    else
      match ts.head
      case Number(text) => if lx.numberOk(text) then Some((AtTime(false, text), ts.rest)) else None
      case Sub => if ts.rest.Tok? && ts.rest.head.Number? then Some((AtTime(true, ts.rest.head.val), ts.rest.rest)) else None
      case Ident(kw) =>
        if At(ts.rest, LParen) && At(ts.rest.rest, RParen) then
          assert Size(ts.rest.rest.rest) < Size(ts.rest.rest) < Size(ts.rest);
          if kw == "start" then Some((AtStart, ts.rest.rest.rest))
          else if kw == "end" then Some((AtEnd, ts.rest.rest.rest))
          else None
        else None
      case _ => None
  }

  /** Modifiers in any order; a later one of a kind replaces an earlier one. */
  function ReadModifiers(lx: Lexicon, e: Expr, ts: Toks): (r: Option<(Expr, Toks)>)
    ensures r.Some? ==> Size(r.value.1) <= Size(ts)
    decreases Size(ts)
  {
    if At(ts, Ident("offset")) then
      match ReadOffset(ts.rest)
      case None => None
      case Some((off, rest)) =>
        if TakesModifiers(e) then ReadModifiers(lx, WithModifiers(e, e.mods.(offset := Some(off))), rest) else None
    else if At(ts, AtSign) then
      match ReadAt(lx, ts.rest)
      case None => None
      case Some((at, rest)) =>
        if TakesModifiers(e) then ReadModifiers(lx, WithModifiers(e, e.mods.(at := Some(at))), rest) else None
    else Some((e, ts))
  }

  /** [range] or [range:step], if there. */
  function ReadRange(e: Expr, ts: Toks): (r: Option<(Expr, Toks)>)
    ensures r.Some? ==> Size(r.value.1) <= Size(ts)
  {
    if !At(ts, LBracket) then Some((e, ts))
    else if !AtDuration(ts.rest) || !DurationOk(ts.rest.head.val) then None
    else
      var range, rest := ts.rest.head.val, ts.rest.rest;
      assert Size(rest) < Size(ts.rest);
      if At(rest, Colon) then
        var step := if AtDuration(rest.rest) then Some(rest.rest.head.val) else None;
        var end := if AtDuration(rest.rest) then rest.rest.rest else rest.rest;
        assert Size(end) <= Size(rest.rest);
        if (step.Some? ==> DurationOk(step.value)) && At(end, RBracket)
        then Some((SubqueryExpr(e, range, step, NO_MODIFIERS), end.rest)) else None
      else if At(rest, RBracket) && e.VectorSelector?
      then Some((MatrixSelector(e.name, e.matchers, range, NO_MODIFIERS), rest.rest)) else None
  }

  function ReadPostfix(lx: Lexicon, e: Expr, ts: Toks): (r: Option<(Expr, Toks)>)
    ensures r.Some? ==> Size(r.value.1) <= Size(ts)
  {
    match ReadRange(e, ts)
    case None => None
    case Some((e, rest)) => ReadModifiers(lx, e, rest)
  }

  /** {matchers} behind an optional metric name; one of the two must select something. */
  function ReadSelector(lx: Lexicon, name: string, ts: Toks): (r: Option<(Expr, Toks)>)
    ensures r.Some? ==> Size(r.value.1) <= Size(ts)
    ensures r.Some? && name == "" ==> Size(r.value.1) < Size(ts)
  {
    if At(ts, LBrace) then
      match ReadMatchers(lx, ts.rest)
      case None => None
      case Some((ms, rest)) => if name == "" && ms == [] then None else Some((VectorSelector(name, ms, NO_MODIFIERS), rest))
    else if name == "" then None
    else Some((VectorSelector(name, [], NO_MODIFIERS), ts))
  }

  // ---- Expressions ----

  function NextMin(op: Op): nat { if op == OpPow then Prec(op) else Prec(op) + 1 }

  function ReadExpr(lx: Lexicon, ts: Toks, min: nat): (r: Option<(Expr, Toks)>)
    ensures r.Some? ==> Size(r.value.1) < Size(ts)
    decreases Size(ts), 4
  {
    match ReadUnary(lx, ts)
    case None => None
    case Some((left, rest)) => ReadRest(lx, min, left, rest)
  }

  /** The operators of at least minimal precedence that follow a left operand. */
  function ReadRest(lx: Lexicon, min: nat, left: Expr, ts: Toks): (r: Option<(Expr, Toks)>)
    ensures r.Some? ==> Size(r.value.1) <= Size(ts)
    decreases Size(ts), 5
  {
    if OpAt(ts).None? || Prec(OpAt(ts).value) < min then Some((left, ts))
    else
      var op := OpAt(ts).value;
      var (returnBool, afterBool) := ReadBool(ts.rest);
      match ReadMatching(afterBool)
      case None => None
      case Some((matching, rest)) =>
        match ReadExpr(lx, rest, NextMin(op))
        case None => None
        case Some((right, end)) => ReadRest(lx, min, BinaryExpr(op, left, right, returnBool, matching), end)
  }

  function ReadUnary(lx: Lexicon, ts: Toks): (r: Option<(Expr, Toks)>)
    ensures r.Some? ==> Size(r.value.1) < Size(ts)
    decreases Size(ts), 3
  {
    if At(ts, Sub) then
      match ReadExpr(lx, ts.rest, POW_PREC)
      case None => None
      case Some((e, rest)) => Some((UnaryExpr(e), rest))
    else if At(ts, Add) then ReadUnary(lx, ts.rest)
    else ReadPrimary(lx, ts)
  }

  function ReadPrimary(lx: Lexicon, ts: Toks): (r: Option<(Expr, Toks)>)
    ensures r.Some? ==> Size(r.value.1) < Size(ts)
    decreases Size(ts), 2
  {
    match ReadBase(lx, ts)
    case None => None
    case Some((base, rest)) => ReadPostfix(lx, base, rest)
  }

  function ReadBase(lx: Lexicon, ts: Toks): (r: Option<(Expr, Toks)>)
    ensures r.Some? ==> Size(r.value.1) < Size(ts)
    decreases Size(ts), 1
  {
    if ts.End? then None
    else
      match ts.head
      case Number(text) => if lx.numberOk(text) then Some((NumberLiteral(text), ts.rest)) else None
      case Str(val) => Some((StringLiteral(val), ts.rest))
      case LParen =>
        (match ReadExpr(lx, ts.rest, 0)
         case None => None
         case Some((inner, rest)) => if At(rest, RParen) then Some((ParenExpr(inner), rest.rest)) else None)
      case LBrace => ReadSelector(lx, "", ts)
      case Ident(name) =>
        if IsAggregator(name) then ReadAggregate(lx, name, ts.rest)
        else if IsFunction(name) then ReadCall(lx, name, ts.rest)
        else ReadSelector(lx, name, ts.rest)
      case _ => None
  }

  function ReadCall(lx: Lexicon, name: string, ts: Toks): (r: Option<(Expr, Toks)>)
    ensures r.Some? ==> Size(r.value.1) < Size(ts)
    decreases Size(ts), 0
  {
    if !At(ts, LParen) then None
    else if At(ts.rest, RParen) then Some((Call(name, NoArgs), ts.rest.rest))
    else
      match ReadArgs(lx, ts.rest)
      case None => None
      case Some((args, rest)) => if At(rest, RParen) then Some((Call(name, args), rest.rest)) else None
  }

  /** At least one argument, separated by commas. */
  function ReadArgs(lx: Lexicon, ts: Toks): (r: Option<(Args, Toks)>)
    ensures r.Some? ==> Size(r.value.1) < Size(ts)
    decreases Size(ts), 5
  {
    match ReadExpr(lx, ts, 0)
    case None => None
    case Some((e, rest)) =>
      if At(rest, Comma) then
        match ReadArgs(lx, rest.rest)
        case None => None
        case Some((more, end)) => Some((Arg(e, more), end))
      else Some((Arg(e, NoArgs), rest))
  }

  /** [by|without (...)] ( [param ,] expr ) [by|without (...)], at most one grouping. */
  function ReadAggregate(lx: Lexicon, name: string, ts: Toks): (r: Option<(Expr, Toks)>)
    ensures r.Some? ==> Size(r.value.1) < Size(ts)
    decreases Size(ts), 0
  {
    match ReadGrouping(ts)
    case None => None
    case Some((before, rest)) =>
      if !At(rest, LParen) then None
      else
        match ReadParam(lx, name, rest.rest)
        case None => None
        case Some((param, rest)) =>
          match ReadExpr(lx, rest, 0)
          case None => None
          case Some((e, rest)) =>
            if !At(rest, RParen) then None
            else if before.Some? then Some((AggregateExpr(name, before, param, e), rest.rest))
            else
              match ReadGrouping(rest.rest)
              case None => None
              case Some((after, end)) => Some((AggregateExpr(name, after, param, e), end))
  }

  function ReadParam(lx: Lexicon, name: string, ts: Toks): (r: Option<(Option<Expr>, Toks)>)
    ensures r.Some? ==> Size(r.value.1) <= Size(ts)
    decreases Size(ts), 5
  {
    if !TakesParam(name) then Some((None, ts))
    else
      match ReadExpr(lx, ts, 0)
      case None => None
      case Some((param, rest)) => if At(rest, Comma) then Some((Some(param), rest.rest)) else None
  }

  /** A whole query: one expression and nothing after it. */
  function Parsed(lx: Lexicon, ts: Toks): Option<Expr> {
    match ReadExpr(lx, ts, 0)
    case None => None
    case Some((e, rest)) => if rest.End? then Some(e) else None
  }
}
