/** What the lexer takes for spaces, names, numbers and strings. */
module LexerLaws {
  import opened Base
  import opened Syntax
  import opened Lexer

  // ---- Spaces and names ----

  /** Spaces, tabs and line ends are skipped, inside brackets and outside. */
  lemma SpacesSkipped(c: char, rest: string, depth: nat)
    ensures c in " \t\n\r" ==> Lexed([c] + rest, depth) == Lexed(rest, depth)
  {
    assert ([c] + rest)[1..] == rest;
  }

  predicate IsLetter(c: char) { 'a' <= c <= 'z' || 'A' <= c <= 'Z' }

  /** A name is letters, digits, underscores and colons, not a digit first. */
  lemma NamesLook(v: string)
    ensures IsIdentText(v) <==>
            && v != "" && !('0' <= v[0] <= '9')
            && forall i :: 0 <= i < |v| ==> IsLetter(v[i]) || '0' <= v[i] <= '9' || v[i] in "_:"
  {
    if v != "" && forall i :: 0 <= i < |v| ==> IsLetter(v[i]) || '0' <= v[i] <= '9' || v[i] in "_:" {
      assert IsLetter(v[0]) || '0' <= v[0] <= '9' || v[0] in "_:";
    }
  }

  // ---- Numbers ----

  ghost predicate Digits(s: string) { forall i :: 0 <= i < |s| ==> '0' <= s[i] <= '9' }

  lemma {:induction false} DigitsThen(d: string, rest: string, dot: bool, exp: bool)
    requires Digits(d)
    ensures NumberRun(d + rest, dot, exp) == |d| + NumberRun(rest, dot, exp)
  {
    if d == "" {
      assert d + rest == rest;
    } else {
      assert '0' <= d[0] <= '9';
      assert (d + rest)[1..] == d[1..] + rest;
      assert Digits(d[1..]);
      DigitsThen(d[1..], rest, dot, exp);
    }
  }

  /** Exponent letter, sign if any, digits. */
  lemma ExponentRun(e: char, sign: string, d: string, dot: bool)
    requires e in "eE" && sign in ["", "+", "-"] && Digits(d)
    ensures NumberRun([e] + sign + d, dot, false) == 1 + |sign| + |d|
  {
    var s := [e] + sign + d;
    DigitsThen(d, "", dot, true);
    assert d + "" == d && NumberRun("", dot, true) == 0;
    if sign == "" {
      assert s[1..] == d;
      assert |d| > 0 ==> '0' <= d[0] <= '9';
    } else {
      assert s[2..] == d;
    }
  }

  /** Numbers: digits, digits with a fraction, a fraction alone, and any of them with an exponent. */
  lemma NumbersLook(a: string, b: string, e: char, sign: string, d: string)
    requires Digits(a) && Digits(b) && Digits(d) && e in "eE" && sign in ["", "+", "-"]
    ensures a != "" ==> IsNumberText(a)
    ensures a != "" || b != "" ==> IsNumberText(a + "." + b)
    ensures a != "" ==> IsNumberText(a + ([e] + sign + d))
    ensures a != "" || b != "" ==> IsNumberText(a + "." + b + ([e] + sign + d))
  {
    var x := [e] + sign + d;
    Starts(a, b, x);
    hide NumberRun;
    FractionRun(a, b, "");
    FractionRun(a, b, x);
    ExponentRun(e, sign, d, true);
    ExponentRun(e, sign, d, false);
    DigitsThen(a, "", false, false);
    DigitsThen(a, x, false, false);
    NothingRuns();
    assert a + "" == a && a + "." + b + "" == a + "." + b;
  }

  lemma NothingRuns()
    ensures NumberRun("", false, false) == 0 && NumberRun("", true, false) == 0
  {
  }

  lemma Starts(a: string, b: string, x: string)
    requires Digits(a) && Digits(b)
    ensures a != "" ==> StartsNumber(a) && StartsNumber(a + x)
    ensures a != "" || b != "" ==> StartsNumber(a + "." + b) && StartsNumber(a + "." + b + x)
  {
    if a != "" {
      assert '0' <= a[0] <= '9';
    } else if b != "" {
      assert '0' <= b[0] <= '9';
      assert (a + "." + b)[1] == b[0];
    }
  }

  lemma FractionRun(a: string, b: string, x: string)
    requires Digits(a) && Digits(b)
    ensures NumberRun(a + "." + b + x, false, false) == |a| + 1 + |b| + NumberRun(x, true, false)
  {
    var rest := "." + (b + x);
    Reassociated(a, ".", b, x);
    PointRun(b + x);
    hide NumberRun;
    DigitsThen(a, rest, false, false);
    DigitsThen(b, x, true, false);
  }

  lemma Reassociated(a: string, p: string, b: string, x: string)
    ensures a + p + b + x == a + (p + (b + x))
  {
  }

  lemma PointRun(s: string)
    ensures NumberRun("." + s, false, false) == 1 + NumberRun(s, true, false)
  {
    assert ("." + s)[1..] == s;
  }

  /** Digits that run into a unit letter are a duration, which takes in all digits and unit letters that follow. */
  lemma DurationsLook(a: string, more: string)
    requires Digits(a) && a != "" && more != "" && more[0] in "smhdwy"
    requires forall i :: 0 <= i < |more| ==> '0' <= more[i] <= '9' || more[i] in "smhdwy"
    ensures IsDurationText(a + more)
  {
    var v := a + more;
    assert '0' <= a[0] <= '9';
    RunOfDigits(a, more);
    forall i | 0 <= i < |v| ensures IsDurationChar(v[i]) {
      assert i >= |a| ==> v[i] == more[i - |a|];
    }
  }

  lemma {:induction false} RunOfDigits(a: string, more: string)
    requires Digits(a) && more != "" && !IsDigit(more[0])
    ensures DigitRun(a + more) == |a|
  {
    if a == "" {
      assert a + more == more;
    } else {
      assert '0' <= a[0] <= '9';
      assert (a + more)[1..] == a[1..] + more;
      RunOfDigits(a[1..], more);
    }
  }

  // ---- Strings ----

  /** In a string \n and \t stand for a line end and a tab, a backslash takes any other character as it is, and the quote ends it. */
  lemma CharactersRead(c: char, quote: char, rest: string)
    requires quote in "\"'"
    ensures Unquoted([quote] + rest, quote) == Some(("", rest))
    ensures Unquoted("\\n" + rest, quote) == PutFront('\n', Unquoted(rest, quote))
    ensures Unquoted("\\t" + rest, quote) == PutFront('\t', Unquoted(rest, quote))
    ensures c !in "nt" ==> Unquoted(['\\', c] + rest, quote) == PutFront(c, Unquoted(rest, quote))
    ensures c != '\\' && c != quote ==> Unquoted([c] + rest, quote) == PutFront(c, Unquoted(rest, quote))
    ensures Unquoted("", quote) == None
  {
    assert ([quote] + rest)[1..] == rest;
    assert ("\\n" + rest)[2..] == rest && ("\\t" + rest)[2..] == rest;
    assert (['\\', c] + rest)[2..] == rest;
    assert ([c] + rest)[1..] == rest;
  }

  /** Either quote begins a string token; a string that does not end is refused. */
  lemma StringsLexed(quote: char, s: string, depth: nat)
    requires quote in "\"'"
    ensures Unquoted(s, quote).None? ==> Lexed([quote] + s, depth) == None
    ensures Unquoted(s, quote).Some? ==>
              var u := Unquoted(s, quote).value;
              var more := Lexed(u.1, depth);
              Lexed([quote] + s, depth) == if more.None? then None else Some(Tok(Str(u.0), more.value))
  {
    var all := [quote] + s;
    QuoteBegins(quote, s, depth);
    OneToken(all, depth);
    hide Unquoted;
    hide NextToken;
    hide Lexed;
    if Unquoted(s, quote).Some? {
      var rest := Unquoted(s, quote).value.1;
      UnquotedSuffix(s, quote);
      assert s[|s| - |rest|..] == rest;
      assert all[|all| - |rest|..] == rest;
    }
  }

  lemma OneToken(s: string, depth: nat)
    requires s != "" && !IsSpace(s[0])
    ensures var next := NextToken(s, depth);
            if next.None? then Lexed(s, depth) == None
            else
              var more := Lexed(s[next.value.1..], DepthAfter(next.value.0, depth));
              Lexed(s, depth) == if more.None? then None else Some(Tok(next.value.0, more.value))
  {
    hide NextToken;
  }

  lemma QuoteBegins(quote: char, s: string, depth: nat)
    requires quote in "\"'"
    ensures var u := Unquoted(s, quote);
            NextToken([quote] + s, depth) == if u.None? then None else Some((Str(u.value.0), 1 + |s| - |u.value.1|))
  {
    assert ([quote] + s)[1..] == s;
    hide Unquoted;
    hide NumberOrDuration;
    hide Run;
  }

  lemma {:induction false} UnquotedSuffix(s: string, quote: char)
    ensures var r := Unquoted(s, quote);
            r.Some? ==> |r.value.1| <= |s| && r.value.1 == s[|s| - |r.value.1|..]
  {
    if s == "" {
    } else if s[0] == '\\' && |s| > 1 {
      UnquotedSuffix(s[2..], quote);
    } else if s[0] != quote {
      UnquotedSuffix(s[1..], quote);
    }
  }
}
