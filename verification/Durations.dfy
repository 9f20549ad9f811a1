/** What durations mean: their parts add up, and the units are multiples of each other. */
module Durations {
  import opened Base
  import opened Syntax

  ghost predicate AllDigits(s: string) { forall i :: 0 <= i < |s| ==> IsDigit(s[i]) }

  lemma {:induction false} DigitsThenUnit(s: string, c: char, rest: string)
    requires AllDigits(s) && !IsDigit(c)
    ensures DigitRun(s + [c] + rest) == |s|
  {
    if s == "" {
      assert s + [c] + rest == [c] + rest;
    } else {
      assert (s + [c] + rest)[1..] == s[1..] + [c] + rest;
      DigitsThenUnit(s[1..], c, rest);
    }
  }

  lemma {:induction false} DigitsAreRun(s: string, rest: string)
    requires DigitRun(s) < |s|
    ensures DigitRun(s + rest) == DigitRun(s)
  {
    if IsDigit(s[0]) {
      assert (s + rest)[1..] == s[1..] + rest;
      DigitsAreRun(s[1..], rest);
    }
  }

  lemma WrapAdds(x: int, y: int)
    ensures Wrap64(Wrap64(x) + y) == Wrap64(x + y) && Wrap64(y + Wrap64(x)) == Wrap64(x + y)
  {
    var k := (x + TWO_63) / TWO_64;
    assert Wrap64(x) == x - k * TWO_64;
    WrapMultiple(x + y, k);
  }

  lemma WrapMultiple(x: int, k: int)
    ensures Wrap64(x - k * TWO_64) == Wrap64(x)
  {
    assert (x - k * TWO_64 + TWO_63) == (x + TWO_63) - k * TWO_64;
    MultipleDropped(x + TWO_63, k);
  }

  lemma MultipleDropped(x: int, k: int)
    ensures (x - k * TWO_64) % TWO_64 == x % TWO_64
  {
    var q, r := x / TWO_64, x % TWO_64;
    assert x - k * TWO_64 == (q - k) * TWO_64 + r;
  }

  /** Wrapping in between does not show. */
  lemma WrapOnce(total: Int64, part: Int64, more: Int64)
    ensures Wrap64(Wrap64(total + part) + more) == Wrap64(total + Wrap64(part + more))
  {
    WrapAdds(total + part, more);
    WrapAdds(part + more, total);
    assert total + part + more == part + more + total;
  }

  /** The first part of a compound duration and what follows it. */
  ghost function FirstPart(s: string): (r: Option<(Int64, string)>)
    ensures r.Some? ==> |r.value.1| < |s|
  {
    var n := DigitRun(s);
    if n == 0 || n >= |s| || UnitMs(s[n]).None? then None
    else
      var value := DecimalValue(s[..n]);
      var num := if value < TWO_63 then value else TWO_63 - 1;
      Some((Wrap64(num * UnitMs(s[n]).value), s[n + 1..]))
  }

  lemma PartTaken(s: string, total: Int64)
    requires s != ""
    ensures DurationFrom(s, total) ==
            match FirstPart(s) case None => None case Some((part, rest)) => DurationFrom(rest, Wrap64(total + part))
  {
    hide DigitRun;
    hide DecimalValue;
    hide UnitMs;
    hide Wrap64;
  }

  /** What has been added up so far is only added. */
  lemma {:induction false} TotalAdded(s: string, total: Int64)
    ensures DurationFrom(s, 0).None? ==> DurationFrom(s, total).None?
    ensures DurationFrom(s, 0).Some? ==> DurationFrom(s, total) == Some(Wrap64(total + DurationFrom(s, 0).value))
    decreases |s|
  {
    if s != "" {
      hide *;
      PartTaken(s, 0);
      PartTaken(s, total);
      if FirstPart(s).Some? {
        var (part, rest) := FirstPart(s).value;
        TotalAdded(rest, Wrap64(total + part));
        TotalAdded(rest, part);
        if DurationFrom(rest, 0).Some? {
          WrapOnce(total, part, DurationFrom(rest, 0).value);
        }
      }
    }
  }

  lemma PartOfJoined(a: string, b: string)
    requires FirstPart(a).Some?
    ensures FirstPart(a + b) == Some((FirstPart(a).value.0, FirstPart(a).value.1 + b))
  {
    hide DecimalValue;
    hide UnitMs;
    hide Wrap64;
    var n := DigitRun(a);
    DigitsAreRun(a, b);
    hide DigitRun;
    assert (a + b)[..n] == a[..n] && (a + b)[n] == a[n];
    assert (a + b)[n + 1..] == a[n + 1..] + b;
  }

  lemma {:induction false} FromJoined(a: string, b: string, total: Int64)
    requires DurationFrom(a, total).Some?
    ensures DurationFrom(a + b, total) == DurationFrom(b, DurationFrom(a, total).value)
    decreases |a|
  {
    if a == "" {
      assert a + b == b;
    } else {
      hide *;
      PartTaken(a, total);
      PartTaken(a + b, total);
      PartOfJoined(a, b);
      var (part, rest) := FirstPart(a).value;
      FromJoined(rest, b, Wrap64(total + part));
    }
  }

  /** A compound duration is the wrapped sum of its parts. */
  lemma PartsAdd(a: string, b: string)
    requires DurationMs(a).Some? && DurationMs(b).Some?
    ensures DurationMs(a + b) == Some(Wrap64(DurationMs(a).value + DurationMs(b).value))
  {
    hide DurationFrom;
    FromJoined(a, b, 0);
    TotalAdded(b, DurationMs(a).value);
  }

  function Times(a: int, b: int): int { a * b }

  lemma TimesMoved(k: int, n: int, u: int)
    ensures Times(Times(k, n), u) == Times(n, Times(k, u))
  {
  }

  lemma OnePart(s: string, c: char)
    requires AllDigits(s) && s != "" && UnitMs(c).Some? && DecimalValue(s) < TWO_63
    ensures DurationMs(s + [c]) == Some(Wrap64(Times(DecimalValue(s), UnitMs(c).value)))
  {
    var d := s + [c];
    assert !IsDigit(c);
    DigitsThenUnit(s, c, "");
    assert d == s + [c] + "" && d[..|s|] == s && d[|s| + 1..] == "";
    hide DecimalValue;
    hide UnitMs;
    hide DigitRun;
    assert d[|s|] == c;
    var part := Wrap64(DecimalValue(s) * UnitMs(c).value);
    assert DurationFrom("", Wrap64(part)) == Some(part);
  }

  /** Decimal numerals: a digit behind a numeral makes it ten times as much and the digit more. */
  lemma NumeralGrows(s: string, c: char)
    requires AllDigits(s) && IsDigit(c)
    ensures AllDigits(s + [c]) && DecimalValue([]) == 0
    ensures DecimalValue(s + [c]) == 10 * DecimalValue(s) + (c as int - '0' as int)
  {
    assert (s + [c])[..|s|] == s;
  }

  /** When d is k times as long as c, k times as many of c are as long. */
  lemma UnitTimes(many: string, c: char, few: string, d: char, k: nat)
    requires AllDigits(many) && AllDigits(few) && many != "" && few != ""
    requires DecimalValue(many) < TWO_63 && DecimalValue(few) < TWO_63 && DecimalValue(many) == Times(k, DecimalValue(few))
    requires UnitMs(c).Some? && UnitMs(d).Some? && UnitMs(d).value == Times(k, UnitMs(c).value)
    ensures DurationMs(many + [c]) == DurationMs(few + [d])
  {
    hide DurationMs;
    OnePart(many, c);
    OnePart(few, d);
    hide DecimalValue;
    hide UnitMs;
    hide Times;
    TimesMoved(k, DecimalValue(few), UnitMs(c).value);
  }

  /** n seconds are 1000 n ms, 60 of them are a minute, 60 minutes an hour, 24 hours a day, 7 days a week, 365 a year. */
  lemma UnitsRelate(many: string, few: string)
    requires AllDigits(many) && AllDigits(few) && many != "" && few != ""
    requires DecimalValue(many) < TWO_63 && DecimalValue(few) < TWO_63
    ensures DurationMs(many + ['s']) == Some(Wrap64(DecimalValue(many) * 1000))
    ensures DecimalValue(many) == 60 * DecimalValue(few) ==> DurationMs(many + ['s']) == DurationMs(few + ['m'])
    ensures DecimalValue(many) == 60 * DecimalValue(few) ==> DurationMs(many + ['m']) == DurationMs(few + ['h'])
    ensures DecimalValue(many) == 24 * DecimalValue(few) ==> DurationMs(many + ['h']) == DurationMs(few + ['d'])
    ensures DecimalValue(many) == 7 * DecimalValue(few) ==> DurationMs(many + ['d']) == DurationMs(few + ['w'])
    ensures DecimalValue(many) == 365 * DecimalValue(few) ==> DurationMs(many + ['d']) == DurationMs(few + ['y'])
  {
    hide DurationMs;
    hide DecimalValue;
    hide Wrap64;
    hide DigitRun;
    OnePart(many, 's');
    if DecimalValue(many) == 60 * DecimalValue(few) {
      UnitTimes(many, 's', few, 'm', 60);
      UnitTimes(many, 'm', few, 'h', 60);
    }
    if DecimalValue(many) == 24 * DecimalValue(few) {
      UnitTimes(many, 'h', few, 'd', 24);
    }
    if DecimalValue(many) == 7 * DecimalValue(few) {
      UnitTimes(many, 'd', few, 'w', 7);
    }
    if DecimalValue(many) == 365 * DecimalValue(few) {
      UnitTimes(many, 'd', few, 'y', 365);
    }
  }
}
