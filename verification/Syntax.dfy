/** Tokens and expression trees of the query language. */
module Syntax {
  import opened Base

  datatype Token =
    | Ident(val: string)
    | Number(val: string)
    | Str(val: string)
    | Duration(val: string)
    | LBrace | RBrace | LBracket | RBracket | LParen | RParen | Comma | Colon | AtSign
    | Eql | Neq | EqlRegex | NeqRegex
    | Add | Sub | Mul | Div | Mod | Pow
    | EqlCmp | Gtr | Lss | Gte | Lte

  /** The tokens that are left; End stands for the final end-of-input token. */
  datatype Toks = End | Tok(head: Token, rest: Toks)

  datatype Op =
    | LOr | LAnd | LUnless
    | OpEql | OpNeq | OpGtr | OpLss | OpGte | OpLte
    | OpAdd | OpSub | OpMul | OpDiv | OpMod | OpPow

  datatype MatchType = MatchEqual | MatchNotEqual | MatchRegexp | MatchNotRegexp

  datatype Matcher = Matcher(typ: MatchType, name: string, value: string)

  datatype Card = OneToOne | ManyToOne | OneToMany

  /** on(...) or ignoring(...). */
  datatype MatchClause = MatchClause(on: bool, labels: seq<string>)

  datatype Matching = Matching(clause: Option<MatchClause>, card: Card, included: seq<string>)

  /** by(...) or without(...). */
  datatype Grouping = Grouping(without: bool, labels: seq<string>)

  /** Numbers and durations are kept as the text of their token. */
  datatype OffsetMod = OffsetMod(neg: bool, duration: string)

  datatype AtMod = AtTime(neg: bool, number: string) | AtStart | AtEnd

  datatype Modifiers = Modifiers(offset: Option<OffsetMod>, at: Option<AtMod>)

  const NO_MODIFIERS: Modifiers := Modifiers(None, None)

  datatype Expr =
    | NumberLiteral(text: string)
    | StringLiteral(val: string)
    | VectorSelector(name: string, matchers: seq<Matcher>, mods: Modifiers)
    | MatrixSelector(name: string, matchers: seq<Matcher>, range: string, mods: Modifiers)
    | SubqueryExpr(e: Expr, range: string, step: Option<string>, mods: Modifiers)
    | Call(func: string, args: Args)
    | AggregateExpr(aggr: string, grouping: Option<Grouping>, param: Option<Expr>, e: Expr)
    | BinaryExpr(op: Op, lhs: Expr, rhs: Expr, returnBool: bool, matching: Option<Matching>)
    | UnaryExpr(e: Expr)
    | ParenExpr(e: Expr)

  datatype Args = NoArgs | Arg(first: Expr, more: Args)

  const AGGREGATORS: set<string> := {
    "sum", "avg", "min", "max", "count", "topk", "bottomk", "quantile", "stddev", "stdvar", "group", "count_values"}

  const PARAM_AGGREGATORS: set<string> := {"topk", "bottomk", "quantile", "count_values"}

  const FUNCTIONS: set<string> := {
    "rate", "irate", "increase", "delta", "idelta", "deriv", "predict_linear", "changes", "resets",
    "sum_over_time", "avg_over_time", "min_over_time", "max_over_time", "count_over_time", "stddev_over_time",
    "stdvar_over_time", "last_over_time", "present_over_time", "quantile_over_time",
    "abs", "ceil", "floor", "round", "exp", "ln", "log2", "log10", "sqrt", "sgn",
    "clamp", "clamp_max", "clamp_min", "scalar", "vector", "sort", "sort_desc",
    "absent", "absent_over_time", "label_replace", "label_join", "histogram_quantile", "time", "timestamp",
    "day_of_month", "day_of_week", "day_of_year", "days_in_month", "hour", "minute", "month", "year"}

  predicate IsAggregator(name: string) { name in AGGREGATORS }

  predicate TakesParam(name: string) { name in PARAM_AGGREGATORS }

  predicate IsFunction(name: string) { name in FUNCTIONS }

  /** or < and/unless < comparison < +,- < *,/,% < ^ */
  function Prec(op: Op): (p: nat)
    ensures 1 <= p <= 6
  {
    match op
    case LOr => 1
    case LAnd | LUnless => 2
    case OpEql | OpNeq | OpGtr | OpLss | OpGte | OpLte => 3
    case OpAdd | OpSub => 4
    case OpMul | OpDiv | OpMod => 5
    case OpPow => 6
  }

  const POW_PREC: nat := 6

  /** The operator a token stands for: the set operators are identifiers. */
  function TokenOp(t: Token): Option<Op> {
    match t
    case Ident(v) => if v == "or" then Some(LOr) else if v == "and" then Some(LAnd) else if v == "unless" then Some(LUnless) else None
    case EqlCmp => Some(OpEql)
    case Neq => Some(OpNeq)
    case Gtr => Some(OpGtr)
    case Lss => Some(OpLss)
    case Gte => Some(OpGte)
    case Lte => Some(OpLte)
    case Add => Some(OpAdd)
    case Sub => Some(OpSub)
    case Mul => Some(OpMul)
    case Div => Some(OpDiv)
    case Mod => Some(OpMod)
    case Pow => Some(OpPow)
    case _ => None
  }

  function OpToken(op: Op): (t: Token)
    ensures TokenOp(t) == Some(op)
  {
    match op
    case LOr => Ident("or")
    case LAnd => Ident("and")
    case LUnless => Ident("unless")
    case OpEql => EqlCmp
    case OpNeq => Neq
    case OpGtr => Gtr
    case OpLss => Lss
    case OpGte => Gte
    case OpLte => Lte
    case OpAdd => Add
    case OpSub => Sub
    case OpMul => Mul
    case OpDiv => Div
    case OpMod => Mod
    case OpPow => Pow
  }

  // ---- Durations ----

  predicate IsDigit(c: char) { '0' <= c <= '9' }

  function UnitMs(c: char): Option<int> {
    if c == 's' then Some(1000)
    else if c == 'm' then Some(60 * 1000)
    else if c == 'h' then Some(60 * 60 * 1000)
    else if c == 'd' then Some(24 * 60 * 60 * 1000)
    else if c == 'w' then Some(7 * 24 * 60 * 60 * 1000)
    else if c == 'y' then Some(365 * 24 * 60 * 60 * 1000)
    else None
  }

  function DigitRun(s: string): (n: nat)
    ensures n <= |s| && forall i :: 0 <= i < n ==> IsDigit(s[i])
  {
    if s == [] || !IsDigit(s[0]) then 0 else 1 + DigitRun(s[1..])
  }

  function DecimalValue(s: string): nat
    requires forall i :: 0 <= i < |s| ==> IsDigit(s[i])
  {
    if s == [] then 0
    else
      assert IsDigit(s[|s| - 1]);
      10 * DecimalValue(s[..|s| - 1]) + (s[|s| - 1] as int - '0' as int)
  }

  /** Compound durations such as 1h30m, in milliseconds; counts saturate and the sum wraps like int64. */
  function DurationMs(s: string): Option<Int64> {
    if s == "" then None else DurationFrom(s, 0)
  }

  function DurationFrom(s: string, total: Int64): Option<Int64>
    decreases |s|
  {
    if s == "" then Some(total)
    else
      var n := DigitRun(s);
      if n == 0 || n >= |s| || UnitMs(s[n]).None? then None
      else
        var value := DecimalValue(s[..n]);
        var num := if value < TWO_63 then value else TWO_63 - 1;
        DurationFrom(s[n + 1..], Wrap64(total + Wrap64(num * UnitMs(s[n]).value)))
  }

  /** Every unit is a whole number of seconds, and wrapping keeps the factor 8: no duration is shorter than 8 ms but 0. */
  lemma {:induction false} DurationByEights(s: string, total: Int64)
    requires total % 8 == 0
    ensures DurationFrom(s, total).Some? ==> DurationFrom(s, total).value % 8 == 0
    decreases |s|
  {
    hide DecimalValue;
    hide DigitRun;
    hide UnitMs;
    hide Wrap64;
    if s != "" {
      var n := DigitRun(s);
      if 0 < n < |s| && UnitMs(s[n]).Some? {
        var value := DecimalValue(s[..n]);
        var num := if value < TWO_63 then value else TWO_63 - 1;
        UnitByEights(s[n]);
        TimesEights(num, UnitMs(s[n]).value);
        PartByEights(num * UnitMs(s[n]).value, total);
        DurationByEights(s[n + 1..], Wrap64(total + Wrap64(num * UnitMs(s[n]).value)));
      }
    }
  }

  lemma UnitByEights(c: char)
    requires UnitMs(c).Some?
    ensures UnitMs(c).value % 8 == 0
  {
  }

  lemma PartByEights(part: int, total: int)
    requires part % 8 == 0 && total % 8 == 0
    ensures Wrap64(total + Wrap64(part)) % 8 == 0
  {
    WrapEights(part);
    hide Wrap64;
    var wrapped: int := Wrap64(part);
    assert (total + wrapped) % 8 == 0;
    WrapEights(total + wrapped);
  }

  lemma TimesEights(num: int, unit: int)
    requires unit % 8 == 0
    ensures num * unit % 8 == 0
  {
    var k := unit / 8;
    assert num * unit == 8 * (num * k);
  }

  lemma WrapEights(x: int)
    requires x % 8 == 0
    ensures Wrap64(x) % 8 == 0
  {
    var q := (x + TWO_63) / TWO_64;
    assert Wrap64(x) == x - q * TWO_64;
  }

  predicate DurationOk(s: string) { DurationMs(s).Some? }

  /** What the standard library accepts as a float and as a regular expression. */
  datatype Lexicon = Lexicon(numberOk: string -> bool, regexOk: string -> bool)
}
