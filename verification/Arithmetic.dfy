/** Remainder and power of real numbers, where they are real numbers. */
module Arithmetic {

  /** The integer part, towards zero. */
  function Truncated(x: real): int {
    if x >= 0.0 then x.Floor else -((-x).Floor)
  }

  /** math.Mod for a divisor other than zero. */
  function Remainder(a: real, b: real): real
    requires b != 0.0
  {
    a - b * (Truncated(a / b) as real)
  }

  lemma TruncatedBetween(x: real)
    ensures x >= 0.0 ==> 0.0 <= x - (Truncated(x) as real) < 1.0
    ensures x < 0.0 ==> -1.0 < x - (Truncated(x) as real) <= 0.0
  {
  }

  function Magnitude(x: real): real { if x < 0.0 then -x else x }

  /** The remainder is what is left of a after a whole number of b: smaller than b, and of the sign of a. */
  lemma RemainderExact(a: real, b: real)
    requires b != 0.0
    ensures var r := Remainder(a, b);
            && a == b * (Truncated(a / b) as real) + r
            && Magnitude(r) < Magnitude(b)
            && (a >= 0.0 ==> r >= 0.0) && (a <= 0.0 ==> r <= 0.0)
  {
    var x := a / b;
    var f := x - (Truncated(x) as real);
    TruncatedBetween(x);
    assert a == x * b;
    assert Remainder(a, b) == b * f;
    SignOfQuotient(a, b);
    ScaledFraction(b, f);
  }

  lemma SignOfQuotient(a: real, b: real)
    requires b != 0.0
    ensures a / b > 0.0 <==> (a > 0.0 && b > 0.0) || (a < 0.0 && b < 0.0)
    ensures a / b == 0.0 <==> a == 0.0
  {
    var x := a / b;
    assert a == x * b;
  }

  lemma ScaledFraction(b: real, f: real)
    requires -1.0 < f < 1.0 && b != 0.0
    ensures Magnitude(b * f) < Magnitude(b)
    ensures b > 0.0 && f >= 0.0 ==> b * f >= 0.0
    ensures b > 0.0 && f <= 0.0 ==> b * f <= 0.0
    ensures b < 0.0 && f >= 0.0 ==> b * f <= 0.0
    ensures b < 0.0 && f <= 0.0 ==> b * f >= 0.0
  {
    if b > 0.0 {
      assert b * (1.0 - f) > 0.0 && b * (1.0 + f) > 0.0;
    } else {
      assert b * (1.0 - f) < 0.0 && b * (1.0 + f) < 0.0;
    }
  }

  /** Powers with a natural exponent. */
  function NatPower(a: real, n: nat): real {
    if n == 0 then 1.0 else a * NatPower(a, n - 1)
  }

  lemma {:induction false} PowerNotZero(a: real, n: nat)
    requires a != 0.0
    ensures NatPower(a, n) != 0.0
  {
    if n > 0 {
      PowerNotZero(a, n - 1);
    }
  }

  predicate IsWhole(b: real) { b == b.Floor as real }

  /** math.Pow for a whole exponent, which is negative only for a base other than zero. */
  function Power(a: real, b: real): real
    requires IsWhole(b) && (b >= 0.0 || a != 0.0)
  {
    if b >= 0.0 then NatPower(a, b.Floor)
    else
      PowerNotZero(a, -b.Floor);
      1.0 / NatPower(a, -b.Floor)
  }

  lemma {:induction false} NatPowerAdds(a: real, m: nat, n: nat)
    ensures NatPower(a, m + n) == NatPower(a, m) * NatPower(a, n)
  {
    if m > 0 {
      NatPowerAdds(a, m - 1, n);
      assert m + n - 1 == (m - 1) + n;
      assert NatPower(a, m + n) == a * NatPower(a, m + n - 1);
      hide NatPower;
      Associates(a, NatPower(a, m - 1), NatPower(a, n));
    }
  }

  lemma Associates(a: real, p: real, q: real)
    ensures a * (p * q) == (a * p) * q
  {
  }

  /** An opposite exponent gives the reciprocal. */
  lemma PowerInverts(a: real, b: real)
    requires IsWhole(b) && a != 0.0
    ensures IsWhole(-b) && Power(a, b) * Power(a, -b) == 1.0
  {
    assert (-b).Floor == -(b.Floor);
    var n: nat := if b >= 0.0 then b.Floor else -b.Floor;
    PowerNotZero(a, n);
    assert NatPower(a, n) * (1.0 / NatPower(a, n)) == 1.0;
  }
}
