/** The lexer: query text to tokens, with ':' a token of its own only inside brackets. */
module Lexer {
  import opened Base
  import opened Syntax
  import opened Grammar
  import Parser
  import Rendering

  // ---- Characters and runs ----

  predicate IsSpace(c: char) { c == ' ' || c == '\t' || c == '\n' || c == '\r' }

  predicate IsUnit(c: char) { UnitMs(c).Some? }

  predicate IsIdentStart(c: char) { c == '_' || c == ':' || 'a' <= c <= 'z' || 'A' <= c <= 'Z' }

  predicate IsIdentCont(c: char) { IsIdentStart(c) || IsDigit(c) }

  predicate IsDurationChar(c: char) { IsDigit(c) || IsUnit(c) }

  /** Length of the longest prefix whose characters satisfy p. */
  function Run(p: char -> bool, s: string): (n: nat)
    ensures n <= |s| && forall i :: 0 <= i < n ==> p(s[i])
  {
    if s == "" || !p(s[0]) then 0 else 1 + Run(p, s[1..])
  }

  // ---- One token ----

  /** Punctuation, by its first two characters. */
  function Punct(c: char, d: char, depth: nat): Option<(Token, nat)> {
    if c == '{' then Some((LBrace, 1))
    else if c == '}' then Some((RBrace, 1))
    else if c == '[' then Some((LBracket, 1))
    else if c == ']' then Some((RBracket, 1))
    else if c == ':' && depth > 0 then Some((Colon, 1))
    else if c == '@' then Some((AtSign, 1))
    else if c == '(' then Some((LParen, 1))
    else if c == ')' then Some((RParen, 1))
    else if c == ',' then Some((Comma, 1))
    else if c == '+' then Some((Add, 1))
    else if c == '-' then Some((Sub, 1))
    else if c == '*' then Some((Mul, 1))
    else if c == '/' then Some((Div, 1))
    else if c == '%' then Some((Mod, 1))
    else if c == '^' then Some((Pow, 1))
    else if c == '=' then Some(if d == '~' then (EqlRegex, 2) else if d == '=' then (EqlCmp, 2) else (Eql, 1))
    else if c == '!' then if d == '=' then Some((Neq, 2)) else if d == '~' then Some((NeqRegex, 2)) else None
    else if c == '>' then Some(if d == '=' then (Gte, 2) else (Gtr, 1))
    else if c == '<' then Some(if d == '=' then (Lte, 2) else (Lss, 1))
    else None
  }

  function UnescapedChar(c: char): char {
    if c == 'n' then '\n' else if c == 't' then '\t' else c
  }

  function PutFront(c: char, r: Option<(string, string)>): Option<(string, string)> {
    match r
    case None => None
    case Some((v, rest)) => Some(([c] + v, rest))
  }

  /** The value of a string up to its closing quote, and what follows the quote. */
  function Unquoted(s: string, quote: char): (r: Option<(string, string)>)
    ensures r.Some? ==> |r.value.1| < |s|
  {
    if s == "" then None
    else if s[0] == '\\' && |s| > 1 then PutFront(UnescapedChar(s[1]), Unquoted(s[2..], quote))
    else if s[0] == quote then Some(("", s[1..]))
    else PutFront(s[0], Unquoted(s[1..], quote))
  }

  /** Length of a number: digits, at most one dot before the exponent, at most one exponent with a sign. */
  function NumberRun(s: string, dot: bool, exp: bool): (n: nat)
    ensures n <= |s|
  {
    if s == "" then 0
    else if IsDigit(s[0]) then 1 + NumberRun(s[1..], dot, exp)
    else if s[0] == '.' && !dot && !exp then 1 + NumberRun(s[1..], true, exp)
    else if (s[0] == 'e' || s[0] == 'E') && !exp then
      if |s| > 1 && (s[1] == '+' || s[1] == '-') then 2 + NumberRun(s[2..], dot, true)
      else 1 + NumberRun(s[1..], dot, true)
    else 0
  }

  /** A number, or a duration when plain digits run into a unit letter. */
  function NumberOrDuration(s: string): (r: (Token, nat))
    ensures r.1 <= |s|
  {
    var n := NumberRun(s, false, false);
    if n == DigitRun(s) && n < |s| && IsUnit(s[n]) then
      var m := Run(IsDurationChar, s);
      (Duration(s[..m]), m)
    else (Number(s[..n]), n)
  }

  predicate StartsNumber(s: string) {
    s != "" && (IsDigit(s[0]) || (s[0] == '.' && |s| > 1 && IsDigit(s[1])))
  }

  /** The token at the front and its length. */
  function NextToken(s: string, depth: nat): (r: Option<(Token, nat)>)
    requires s != ""
    ensures r.Some? ==> 1 <= r.value.1 <= |s|
  {
    var p := Punct(s[0], if |s| > 1 then s[1] else ' ', depth);
    if p.Some? then p
    else if s[0] == '"' || s[0] == '\'' then
      match Unquoted(s[1..], s[0])
      case None => None
      case Some((v, rest)) => Some((Str(v), |s| - |rest|))
    else if StartsNumber(s) then
      StartedRuns(s);
      Some(NumberOrDuration(s))
    else if IsIdentStart(s[0]) then
      var n := 1 + Run(IsIdentCont, s[1..]);
      Some((Ident(s[..n]), n))
    else None
  }

  lemma StartedRuns(s: string)
    requires StartsNumber(s)
    ensures NumberRun(s, false, false) >= 1
    ensures NumberOrDuration(s).1 >= 1
  {
  }

  function DepthAfter(t: Token, depth: nat): nat {
    if t == LBracket then depth + 1 else if t == RBracket && depth > 0 then depth - 1 else depth
  }

  /** All tokens of a text, or nothing when it has a character no token starts with or an unterminated string. */
  function Lexed(s: string, depth: nat): Option<Toks>
    decreases |s|
  {
    if s == "" then Some(End)
    else if IsSpace(s[0]) then Lexed(s[1..], depth)
    else
      match NextToken(s, depth)
      case None => None
      case Some((t, n)) =>
        match Lexed(s[n..], DepthAfter(t, depth))
        case None => None
        case Some(ts) => Some(Tok(t, ts))
  }

  // ---- Printing tokens ----

  function EscapedText(v: string): string {
    if v == "" then ""
    else (if v[0] == '\\' || v[0] == '"' then ['\\', v[0]] else [v[0]]) + EscapedText(v[1..])
  }

  function Spelling(t: Token): string {
    match t
    case Ident(v) => v
    case Number(v) => v
    case Str(v) => "\"" + EscapedText(v) + "\""
    case Duration(v) => v
    case LBrace => "{"
    case RBrace => "}"
    case LBracket => "["
    case RBracket => "]"
    case LParen => "("
    case RParen => ")"
    case Comma => ","
    case Colon => ":"
    case AtSign => "@"
    case Eql => "="
    case Neq => "!="
    case EqlRegex => "=~"
    case NeqRegex => "!~"
    case Add => "+"
    case Sub => "-"
    case Mul => "*"
    case Div => "/"
    case Mod => "%"
    case Pow => "^"
    case EqlCmp => "=="
    case Gtr => ">"
    case Lss => "<"
    case Gte => ">="
    case Lte => "<="
  }

  /** Each token followed by a space. */
  function Printed(ts: Toks): string {
    match ts
    case End => ""
    case Tok(t, rest) => Spelling(t) + [' '] + Printed(rest)
  }

  // ---- The tokens a text can give ----

  predicate IsIdentText(v: string) {
    v != "" && IsIdentStart(v[0]) && forall i :: 0 <= i < |v| ==> IsIdentCont(v[i])
  }

  predicate IsNumberText(v: string) {
    StartsNumber(v) && NumberRun(v, false, false) == |v|
  }

  predicate IsDurationText(v: string) {
    && v != "" && IsDigit(v[0])
    && DigitRun(v) < |v| && IsUnit(v[DigitRun(v)])
    && forall i :: 0 <= i < |v| ==> IsDurationChar(v[i])
  }

  predicate TokenOk(t: Token, depth: nat) {
    match t
    case Ident(v) => IsIdentText(v) && (depth > 0 ==> v[0] != ':')
    case Number(v) => IsNumberText(v)
    case Duration(v) => IsDurationText(v)
    case Colon => depth > 0
    case _ => true
  }

  predicate Lexable(ts: Toks, depth: nat)
    decreases ts
  {
    match ts
    case End => true
    case Tok(t, rest) => TokenOk(t, depth) && Lexable(rest, DepthAfter(t, depth))
  }

  // ---- Lexing undoes printing ----

  lemma {:induction false} RunOf(p: char -> bool, v: string, rest: string)
    requires forall i :: 0 <= i < |v| ==> p(v[i])
    requires rest == "" || !p(rest[0])
    ensures Run(p, v + rest) == |v|
  {
    if v == "" {
      assert v + rest == rest;
    } else {
      RunOf(p, v[1..], rest);
      assert (v + rest)[1..] == v[1..] + rest;
    }
  }

  lemma {:induction false} UnquotedEscaped(v: string, rest: string)
    ensures Unquoted(EscapedText(v) + ['"'] + rest, '"') == Some((v, rest))
  {
    var t := EscapedText(v) + ['"'] + rest;
    if v == "" {
      assert t == ['"'] + rest && t[1..] == rest;
    } else {
      hide Unquoted;
      UnquotedEscaped(v[1..], rest);
      UnquotedChar(v[0], EscapedText(v[1..]) + ['"'] + rest);
      assert t == (if v[0] == '\\' || v[0] == '"' then ['\\', v[0]] else [v[0]]) + (EscapedText(v[1..]) + ['"'] + rest);
      assert v == [v[0]] + v[1..];
    }
  }

  lemma UnquotedChar(c: char, u: string)
    requires u != ""
    ensures Unquoted((if c == '\\' || c == '"' then ['\\', c] else [c]) + u, '"') == PutFront(c, Unquoted(u, '"'))
  {
    if c == '\\' || c == '"' {
      assert (['\\', c] + u)[2..] == u;
    } else {
      assert ([c] + u)[1..] == u;
    }
  }

  /** A number ends at a space. */
  lemma {:induction false} NumberRunOf(v: string, rest: string, dot: bool, exp: bool)
    requires NumberRun(v, dot, exp) == |v| && rest != "" && IsSpace(rest[0])
    ensures NumberRun(v + rest, dot, exp) == |v|
    decreases |v|
  {
    var s := v + rest;
    if v == "" {
      assert s == rest;
    } else {
      assert s[1..] == v[1..] + rest;
      if |v| > 1 {
        assert s[2..] == v[2..] + rest;
      }
      if IsDigit(v[0]) {
        NumberRunOf(v[1..], rest, dot, exp);
      } else if v[0] == '.' && !dot && !exp {
        NumberRunOf(v[1..], rest, true, exp);
      } else if |v| > 1 && (v[1] == '+' || v[1] == '-') {
        NumberRunOf(v[2..], rest, dot, true);
      } else {
        NumberRunOf(v[1..], rest, dot, true);
      }
    }
  }

  lemma {:induction false} DigitsWithin(s: string)
    ensures DigitRun(s) <= NumberRun(s, false, false)
    ensures DigitRun(s) < |s| && IsUnit(s[DigitRun(s)]) ==> NumberRun(s, false, false) == DigitRun(s)
  {
    if s != "" && IsDigit(s[0]) {
      DigitsWithin(s[1..]);
    }
  }

  lemma {:induction false} DigitRunOf(v: string, rest: string)
    requires DigitRun(v) < |v| || rest == "" || !IsDigit(rest[0])
    ensures DigitRun(v + rest) == DigitRun(v)
  {
    if v == "" {
      assert v + rest == rest;
    } else if IsDigit(v[0]) {
      DigitRunOf(v[1..], rest);
      assert (v + rest)[1..] == v[1..] + rest;
    }
  }

  lemma NumberBack(v: string, rest: string)
    requires IsNumberText(v) && rest != "" && IsSpace(rest[0])
    ensures NumberOrDuration(v + rest) == (Number(v), |v|)
  {
    hide NumberRun;
    hide DigitRun;
    hide Run;
    var s := v + rest;
    NumberRunOf(v, rest, false, false);
    assert s[..|v|] == v && s[|v|] == rest[0];
  }

  lemma DurationBack(v: string, rest: string)
    requires IsDurationText(v) && rest != "" && IsSpace(rest[0])
    ensures NumberOrDuration(v + rest) == (Duration(v), |v|)
  {
    hide NumberRun;
    hide Run;
    var s := v + rest;
    DigitRunOf(v, rest);
    hide DigitRun;
    DigitsWithin(s);
    RunOf(IsDurationChar, v, rest);
    assert s[..|v|] == v;
  }

  lemma IdentBack(v: string, rest: string, depth: nat)
    requires IsIdentText(v) && (depth > 0 ==> v[0] != ':') && rest != "" && IsSpace(rest[0])
    ensures NextToken(v + rest, depth) == Some((Ident(v), |v|))
  {
    hide Run;
    hide NumberRun;
    var s := v + rest;
    assert s[1..] == v[1..] + rest && s[..|v|] == v;
    RunOf(IsIdentCont, v[1..], rest);
  }

  lemma StringBack(v: string, rest: string, depth: nat)
    ensures NextToken(Spelling(Str(v)) + rest, depth) == Some((Str(v), |Spelling(Str(v))|))
  {
    hide Unquoted;
    var s := Spelling(Str(v)) + rest;
    UnquotedEscaped(v, rest);
    assert s[1..] == EscapedText(v) + ['"'] + rest;
  }

  lemma PunctBack(t: Token, rest: string, depth: nat)
    requires !(t.Ident? || t.Number? || t.Duration? || t.Str?) && TokenOk(t, depth) && rest != "" && IsSpace(rest[0])
    ensures NextToken(Spelling(t) + rest, depth) == Some((t, |Spelling(t)|))
  {
    hide Unquoted;
    hide NumberOrDuration;
    hide Run;
    var s := Spelling(t) + rest;
    assert s[0] == Spelling(t)[0] && s[1] == if |Spelling(t)| == 1 then rest[0] else Spelling(t)[1];
  }

  /** A printed token is read back, and only it. */
  lemma TokenBack(t: Token, rest: string, depth: nat)
    requires TokenOk(t, depth) && rest != "" && IsSpace(rest[0])
    ensures NextToken(Spelling(t) + rest, depth) == Some((t, |Spelling(t)|))
    ensures Spelling(t) != "" && !IsSpace(Spelling(t)[0])
  {
    match t
    case Ident(v) => IdentBack(v, rest, depth);
    case Str(v) => StringBack(v, rest, depth);
    case Number(v) => NumericBack(t, rest, depth);
    case Duration(v) => NumericBack(t, rest, depth);
    case _ => PunctBack(t, rest, depth);
  }

  lemma NumericBack(t: Token, rest: string, depth: nat)
    requires (t.Number? || t.Duration?) && TokenOk(t, depth) && rest != "" && IsSpace(rest[0])
    ensures NextToken(Spelling(t) + rest, depth) == Some((t, |Spelling(t)|))
  {
    hide NumberOrDuration;
    hide Run;
    hide NumberRun;
    hide DigitRun;
    var v := Spelling(t);
    if t.Number? {
      NumberBack(v, rest);
    } else {
      DurationBack(v, rest);
    }
    assert (v + rest)[0] == v[0];
    assert v[0] == '.' ==> (v + rest)[1] == v[1];
  }

  /** Lexing printed tokens gives the tokens back. */
  lemma {:induction false} LexOfPrinted(ts: Toks, depth: nat)
    requires Lexable(ts, depth)
    ensures Lexed(Printed(ts), depth) == Some(ts)
    decreases ts
  {
    hide NextToken;
    hide Spelling;
    hide TokenOk;
    if ts.Tok? {
      var t, rest := ts.head, [' '] + Printed(ts.rest);
      var s := Printed(ts);
      assert s == Spelling(t) + rest;
      TokenBack(t, rest, depth);
      assert s[|Spelling(t)|..] == rest;
      LexOfPrinted(ts.rest, DepthAfter(t, depth));
      assert rest[1..] == Printed(ts.rest);
    }
  }

  // ---- What is lexed can be printed ----

  lemma {:induction false} NumberRunCut(s: string, dot: bool, exp: bool, n: nat)
    requires n == NumberRun(s, dot, exp)
    ensures NumberRun(s[..n], dot, exp) == n
    decreases |s|, 1
  {
    if n > 0 {
      var v := s[..n];
      if IsDigit(s[0]) {
        assert v[1..] == s[1..][..n - 1];
        NumberRunCut(s[1..], dot, exp, n - 1);
      } else if s[0] == '.' {
        assert v[1..] == s[1..][..n - 1];
        NumberRunCut(s[1..], true, exp, n - 1);
      } else {
        ExponentCut(s, dot, n);
      }
    }
  }

  lemma {:induction false} ExponentCut(s: string, dot: bool, n: nat)
    requires s != "" && (s[0] == 'e' || s[0] == 'E') && n == NumberRun(s, dot, false)
    ensures NumberRun(s[..n], dot, false) == n
    decreases |s|, 0
  {
    var v := s[..n];
    if |s| > 1 && (s[1] == '+' || s[1] == '-') {
      assert v[2..] == s[2..][..n - 2];
      NumberRunCut(s[2..], dot, true, n - 2);
    } else {
      assert v[1..] == s[1..][..n - 1];
      NumberRunCut(s[1..], dot, true, n - 1);
    }
  }

  lemma {:induction false} RunCovers(p: char -> bool, s: string, n: nat)
    requires n < |s| && forall i :: 0 <= i <= n ==> p(s[i])
    ensures Run(p, s) > n
  {
    if n > 0 {
      RunCovers(p, s[1..], n - 1);
    }
  }

  lemma NumericTokenOk(s: string, depth: nat)
    requires StartsNumber(s)
    ensures TokenOk(NumberOrDuration(s).0, depth)
  {
    hide Run;
    var n := NumberRun(s, false, false);
    var v := s[..n];
    if n == DigitRun(s) && n < |s| && IsUnit(s[n]) {
      RunCovers(IsDurationChar, s, n);
      var m := Run(IsDurationChar, s);
      assert s == s[..m] + s[m..];
      DigitPrefix(s, m);
    } else {
      NumberRunCut(s, false, false, n);
    }
  }

  lemma {:induction false} DigitPrefix(s: string, m: nat)
    requires DigitRun(s) < m <= |s|
    ensures DigitRun(s[..m]) == DigitRun(s)
  {
    if IsDigit(s[0]) {
      assert s[..m][1..] == s[1..][..m - 1];
      DigitPrefix(s[1..], m - 1);
    }
  }

  lemma NextTokenOk(s: string, depth: nat)
    requires s != "" && NextToken(s, depth).Some?
    ensures TokenOk(NextToken(s, depth).value.0, depth)
  {
    hide Unquoted;
    hide NumberOrDuration;
    if StartsNumber(s) {
      NumericTokenOk(s, depth);
    }
  }

  /** Every token list a text gives can be printed and lexed again. */
  lemma {:induction false} LexedIsLexable(s: string, depth: nat)
    requires Lexed(s, depth).Some?
    ensures Lexable(Lexed(s, depth).value, depth)
    decreases |s|
  {
    hide NextToken;
    hide TokenOk;
    if s != "" {
      if IsSpace(s[0]) {
        LexedIsLexable(s[1..], depth);
      } else {
        var (t, n) := NextToken(s, depth).value;
        NextTokenOk(s, depth);
        LexedIsLexable(s[n..], DepthAfter(t, depth));
      }
    }
  }

  /** A token list comes from some text exactly when it is lexable. */
  lemma LexableIffLexed(ts: Toks)
    ensures Lexable(ts, 0) <==> exists s :: Lexed(s, 0) == Some(ts)
  {
    hide Lexed;
    hide Lexable;
    if Lexable(ts, 0) {
      LexOfPrinted(ts, 0);
    }
    if s :| Lexed(s, 0) == Some(ts) {
      LexedIsLexable(s, 0);
    }
  }

  // ---- The lexer's loops ----

  /** A string literal from its opening quote: its value and the position after its closing quote. */
  method LexString(input: string, i: nat) returns (r: Option<(string, nat)>)
    requires i < |input|
    ensures var u := Unquoted(input[i + 1..], input[i]);
            (u.None? <==> r.None?) && (r.Some? ==> r.value == (u.value.0, |input| - |u.value.1|))
  {
    var quote, k, b := input[i], i + 1, "";
    ghost var all := Unquoted(input[i + 1..], quote);
    hide Unquoted;
    while k < |input|
      invariant i < k <= |input|
      invariant all == PutAllFront(b, Unquoted(input[k..], quote))
    {
      UnquotedAt(input, k, quote);
      var c := input[k];
      if c == '\\' && k + 1 < |input| {
        PutAllFrontSnoc(b, UnescapedChar(input[k + 1]), Unquoted(input[k + 2..], quote));
        b := b + [UnescapedChar(input[k + 1])];
        k := k + 2;
        continue;
      }
      if c == quote {
        assert b + "" == b;
        return Some((b, k + 1));
      }
      PutAllFrontSnoc(b, c, Unquoted(input[k + 1..], quote));
      b := b + [c];
      k := k + 1;
    }
    UnquotedAt(input, k, quote);
    return None;
  }

  ghost function PutAllFront(b: string, r: Option<(string, string)>): (p: Option<(string, string)>)
    ensures b == "" ==> p == r
  {
    match r
    case None => None
    case Some((v, rest)) => assert b == "" ==> b + v == v; Some((b + v, rest))
  }

  lemma PutAllFrontSnoc(b: string, c: char, r: Option<(string, string)>)
    ensures PutAllFront(b, PutFront(c, r)) == PutAllFront(b + [c], r)
  {
    if r.Some? {
      assert b + ([c] + r.value.0) == b + [c] + r.value.0;
    }
  }

  lemma UnquotedAt(s: string, k: nat, quote: char)
    requires k <= |s|
    ensures Unquoted(s[k..], quote) ==
            if k == |s| then None
            else if s[k] == '\\' && k + 1 < |s| then PutFront(UnescapedChar(s[k + 1]), Unquoted(s[k + 2..], quote))
            else if s[k] == quote then Some(("", s[k + 1..]))
            else PutFront(s[k], Unquoted(s[k + 1..], quote))
  {
    if k < |s| {
      assert s[k..][1..] == s[k + 1..];
    }
    if k + 1 < |s| {
      assert s[k..][2..] == s[k + 2..];
    }
  }

  /** The end of a number starting at i. */
  method ScanNumber(input: string, i: nat) returns (k: nat, hasDot: bool, hasExp: bool)
    requires i <= |input|
    ensures i <= k <= |input| && k == i + NumberRun(input[i..], false, false)
    ensures !hasDot && !hasExp <==> k == i + DigitRun(input[i..])
  {
    k, hasDot, hasExp := i, false, false;
    while true
      invariant i <= k <= |input|
      invariant i + NumberRun(input[i..], false, false) == k + NumberRun(input[k..], hasDot, hasExp)
      invariant !hasDot && !hasExp ==> i + DigitRun(input[i..]) == k + DigitRun(input[k..])
      invariant hasDot || hasExp ==> i + DigitRun(input[i..]) < k
      decreases |input| - k
    {
      NumberRunAt(input, k, hasDot, hasExp);
      if k == |input| {
        return;
      }
      if IsDigit(input[k]) {
        k := k + 1;
      } else if input[k] == '.' && !hasDot && !hasExp {
        hasDot := true;
        k := k + 1;
      } else if (input[k] == 'e' || input[k] == 'E') && !hasExp {
        hasExp := true;
        k := k + 1;
        if k < |input| && (input[k] == '+' || input[k] == '-') {
          k := k + 1;
        }
      } else {
        return;
      }
    }
  }

  lemma NumberRunAt(s: string, k: nat, dot: bool, exp: bool)
    requires k <= |s|
    ensures NumberRun(s[k..], dot, exp) ==
            if k == |s| then 0
            else if IsDigit(s[k]) then 1 + NumberRun(s[k + 1..], dot, exp)
            else if s[k] == '.' && !dot && !exp then 1 + NumberRun(s[k + 1..], true, exp)
            else if (s[k] == 'e' || s[k] == 'E') && !exp then
              if k + 1 < |s| && (s[k + 1] == '+' || s[k + 1] == '-') then 2 + NumberRun(s[k + 2..], dot, true)
              else 1 + NumberRun(s[k + 1..], dot, true)
            else 0
    ensures DigitRun(s[k..]) == if k < |s| && IsDigit(s[k]) then 1 + DigitRun(s[k + 1..]) else 0
  {
    if k < |s| {
      assert s[k..][1..] == s[k + 1..];
    }
    if k + 1 < |s| {
      assert s[k..][2..] == s[k + 2..];
    }
  }

  method ScanRun(p: char -> bool, input: string, i: nat) returns (k: nat)
    requires i <= |input|
    ensures i <= k <= |input| && k == i + Run(p, input[i..])
  {
    k := i;
    while k < |input| && p(input[k])
      invariant i <= k <= |input|
      invariant i + Run(p, input[i..]) == k + Run(p, input[k..])
    {
      assert input[k..][1..] == input[k + 1..];
      k := k + 1;
    }
  }

  method LexNumberOrDuration(input: string, i: nat) returns (t: Token, k: nat)
    requires i < |input| && StartsNumber(input[i..])
    ensures i < k <= |input| && (t, k - i) == NumberOrDuration(input[i..])
  {
    hide NumberRun;
    hide Run;
    hide DigitRun;
    StartedRuns(input[i..]);
    var hasDot, hasExp;
    k, hasDot, hasExp := ScanNumber(input, i);
    assert input[i..][..k - i] == input[i..k];
    if !hasDot && !hasExp && k < |input| && IsUnit(input[k]) {
      k := ScanRun(IsDurationChar, input, i);
      assert input[i..][..k - i] == input[i..k];
      return Duration(input[i..k]), k;
    }
    return Number(input[i..k]), k;
  }

  /** The token at position i, or nothing. */
  method LexToken(input: string, i: nat, depth: nat) returns (r: Option<(Token, nat)>)
    requires i < |input|
    ensures var n := NextToken(input[i..], depth);
            (r.None? <==> n.None?) && (r.Some? ==> r.value == (n.value.0, i + n.value.1))
  {
    hide NumberOrDuration;
    hide Unquoted;
    hide Run;
    var s := input[i..];
    var p := Punct(s[0], if |s| > 1 then s[1] else ' ', depth);
    if p.Some? {
      return Some((p.value.0, i + p.value.1));
    }
    if s[0] == '"' || s[0] == '\'' {
      var str := LexString(input, i);
      assert s[1..] == input[i + 1..];
      return if str.Some? then Some((Str(str.value.0), str.value.1)) else None;
    }
    if StartsNumber(s) {
      var t, k := LexNumberOrDuration(input, i);
      return Some((t, k));
    }
    if IsIdentStart(s[0]) {
      var k := ScanRun(IsIdentCont, input, i + 1);
      assert s[1..] == input[i + 1..];
      assert s[..k - i] == input[i..k];
      return Some((Ident(input[i..k]), k));
    }
    return None;
  }

  /** The tokens as a list in front of what follows. */
  ghost function ListOf(toks: seq<Token>, end: Toks): Toks {
    if toks == [] then end else ListOf(toks[..|toks| - 1], Tok(toks[|toks| - 1], end))
  }

  ghost function PutTokens(toks: seq<Token>, r: Option<Toks>): Option<Toks> {
    match r
    case None => None
    case Some(ts) => Some(ListOf(toks, ts))
  }

  lemma {:induction false} ListOfIsTokens(toks: seq<Token>, n: nat)
    requires n <= |toks|
    ensures ListOf(toks[..n], Parser.TokensFrom(toks, n)) == Parser.TokensFrom(toks, 0)
  {
    if n > 0 {
      assert toks[..n][..n - 1] == toks[..n - 1];
      ListOfIsTokens(toks, n - 1);
    }
  }

  /** Tokenizes a whole text. */
  method Lex(input: string) returns (r: Option<seq<Token>>)
    ensures r.None? <==> Lexed(input, 0).None?
    ensures r.Some? ==> Lexed(input, 0) == Some(Parser.TokensFrom(r.value, 0))
  {
    hide NextToken;
    hide Parser.TokensFrom;
    var toks: seq<Token>, i, bracketDepth := [], 0, 0;
    assert input[0..] == input;
    while i < |input|
      invariant i <= |input|
      invariant Lexed(input, 0) == PutTokens(toks, Lexed(input[i..], bracketDepth))
    {
      if IsSpace(input[i]) {
        assert input[i..][1..] == input[i + 1..];
        i := i + 1;
        continue;
      }
      var t := LexToken(input, i, bracketDepth);
      if t.None? {
        return None;
      }
      assert input[i..][t.value.1 - i..] == input[t.value.1..];
      assert (toks + [t.value.0])[..|toks|] == toks;
      bracketDepth := DepthAfter(t.value.0, bracketDepth);
      toks := toks + [t.value.0];
      i := t.value.1;
    }
    assert toks[..|toks|] == toks;
    EndOfTokens(toks);
    ListOfIsTokens(toks, |toks|);
    return Some(toks);
  }

  lemma EndOfTokens(toks: seq<Token>)
    ensures Parser.TokensFrom(toks, |toks|) == End
  {
  }
}
