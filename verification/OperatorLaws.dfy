/** What the binary operators are: laws of their results, first between numbers, then lifted to vectors. */
module OperatorLaws {
  import opened Base
  import opened Labels
  import opened Vectors
  import opened Matching
  import opened Arithmetic
  import opened Operators
  import Evaluation
  import Syntax

  type Other = (real, real) -> real

  /** The number that a op b is, if it is one. */
  function Calc(op: Syntax.Op, other: Other, a: real, b: real): Option<real> {
    match Applied(op, other, false, None, ScalarValue(a), ScalarValue(b))
    case Ok(ScalarValue(s)) => Some(s)
    case _ => None
  }

  /** Whether a op bool b is 1; it is 0 otherwise. */
  function Says(op: Syntax.Op, other: Other, a: real, b: real): Option<bool> {
    match Applied(op, other, true, None, ScalarValue(a), ScalarValue(b))
    case Ok(ScalarValue(s)) => if s == 1.0 then Some(true) else if s == 0.0 then Some(false) else None
    case _ => None
  }

  predicate IsArithmetic(op: Syntax.Op) { op in [Syntax.OpAdd, Syntax.OpSub, Syntax.OpMul, Syntax.OpDiv, Syntax.OpMod, Syntax.OpPow] }

  predicate Compares(op: Syntax.Op) {
    op in [Syntax.OpEql, Syntax.OpNeq, Syntax.OpGtr, Syntax.OpLss, Syntax.OpGte, Syntax.OpLte]
  }

  predicate IsSetOperator(op: Syntax.Op) { op in [Syntax.LAnd, Syntax.LOr, Syntax.LUnless] }

  // ---- Numbers ----

  /** Arithmetic gives a number, with bool or without; comparisons give one only with bool; set operators give none. */
  lemma WhatNumbersGive(op: Syntax.Op, other: Other, a: real, b: real)
    ensures IsArithmetic(op) ==> Calc(op, other, a, b).Some?
    ensures IsArithmetic(op) ==> Applied(op, other, true, None, ScalarValue(a), ScalarValue(b)) ==
                                 Applied(op, other, false, None, ScalarValue(a), ScalarValue(b))
    ensures Compares(op) ==> Says(op, other, a, b).Some?
    ensures Compares(op) ==> Applied(op, other, false, None, ScalarValue(a), ScalarValue(b)) == Err(ScalarsNeedBool)
    ensures IsSetOperator(op) ==> forall returnBool ::
              Applied(op, other, returnBool, None, ScalarValue(a), ScalarValue(b)) == Err(SetOperatorNeedsVectors)
  {
  }

  lemma Calculated(op: Syntax.Op, other: Other, a: real, b: real)
    requires IsArithmetic(op)
    ensures KernelOf(op, other).Arithmetic? && Calc(op, other, a, b) == Some(KernelOf(op, other).f(a, b))
  {
  }

  lemma Divided(other: Other, a: real, b: real)
    requires b != 0.0
    ensures Calc(Syntax.OpDiv, other, a, b).Some? && Calc(Syntax.OpDiv, other, a, b).value == a / b
  {
    Calculated(Syntax.OpDiv, other, a, b);
    assert KernelOf(Syntax.OpDiv, other).f(a, b) == a / b;
  }

  lemma Summed(other: Other, a: real, b: real)
    ensures Calc(Syntax.OpAdd, other, a, b) == Some(a + b)
  {
  }

  lemma Multiplied(other: Other, a: real, b: real)
    ensures Calc(Syntax.OpMul, other, a, b).Some? && Calc(Syntax.OpMul, other, a, b).value == a * b
  {
    Calculated(Syntax.OpMul, other, a, b);
    assert KernelOf(Syntax.OpMul, other).f(a, b) == a * b;
  }

  /** (a - b) + b is a, and a / b * b is a unless b is zero. */
  lemma Inverses(other: Other, a: real, b: real)
    ensures Calc(Syntax.OpSub, other, a, b).Some?
    ensures Calc(Syntax.OpAdd, other, Calc(Syntax.OpSub, other, a, b).value, b) == Some(a)
    ensures b != 0.0 ==> Calc(Syntax.OpDiv, other, a, b).Some? &&
                         Calc(Syntax.OpMul, other, Calc(Syntax.OpDiv, other, a, b).value, b) == Some(a)
  {
    Calculated(Syntax.OpSub, other, a, b);
    Calculated(Syntax.OpAdd, other, a - b, b);
    if b != 0.0 {
      Divided(other, a, b);
      var q := Calc(Syntax.OpDiv, other, a, b).value;
      Multiplied(other, q, b);
      hide Calc;
      assert q * b == a;
    }
  }

  /** + commutes and associates, and 0 is neutral. */
  lemma AdditionLaws(other: Other, a: real, b: real, c: real)
    ensures Calc(Syntax.OpAdd, other, a, b).Some? && Calc(Syntax.OpAdd, other, b, c).Some?
    ensures Calc(Syntax.OpAdd, other, a, b) == Calc(Syntax.OpAdd, other, b, a)
    ensures Calc(Syntax.OpAdd, other, Calc(Syntax.OpAdd, other, a, b).value, c) ==
            Calc(Syntax.OpAdd, other, a, Calc(Syntax.OpAdd, other, b, c).value)
    ensures Calc(Syntax.OpAdd, other, a, 0.0) == Some(a)
  {
    Summed(other, a, b);
    Summed(other, b, a);
    Summed(other, b, c);
    Summed(other, a + b, c);
    Summed(other, a, b + c);
    Summed(other, a, 0.0);
    hide Calc;
  }

  lemma Products(a: real, b: real, c: real, ab: real, bc: real)
    requires ab == a * b && bc == b * c
    ensures a * b == b * a && ab * c == a * bc && a * 1.0 == a && a * (b + c) == a * b + a * c
  {
  }

  /** * commutes, associates and distributes over +, and 1 is neutral. */
  lemma MultiplicationLaws(other: Other, a: real, b: real, c: real)
    ensures Calc(Syntax.OpMul, other, a, b).Some? && Calc(Syntax.OpMul, other, b, c).Some? && Calc(Syntax.OpMul, other, a, c).Some?
    ensures Calc(Syntax.OpMul, other, a, b) == Calc(Syntax.OpMul, other, b, a)
    ensures Calc(Syntax.OpMul, other, Calc(Syntax.OpMul, other, a, b).value, c) ==
            Calc(Syntax.OpMul, other, a, Calc(Syntax.OpMul, other, b, c).value)
    ensures Calc(Syntax.OpAdd, other, b, c).Some?
    ensures Calc(Syntax.OpMul, other, a, Calc(Syntax.OpAdd, other, b, c).value) ==
            Calc(Syntax.OpAdd, other, Calc(Syntax.OpMul, other, a, b).value, Calc(Syntax.OpMul, other, a, c).value)
    ensures Calc(Syntax.OpMul, other, a, 1.0) == Some(a)
  {
    Multiplied(other, a, b);
    Multiplied(other, b, a);
    Multiplied(other, b, c);
    Multiplied(other, a, c);
    Multiplied(other, a, 1.0);
    var ab, bc, ac := Calc(Syntax.OpMul, other, a, b).value, Calc(Syntax.OpMul, other, b, c).value, Calc(Syntax.OpMul, other, a, c).value;
    Multiplied(other, ab, c);
    Multiplied(other, a, bc);
    Summed(other, b, c);
    var sum := b + c;
    Multiplied(other, a, sum);
    Summed(other, ab, ac);
    hide Calc;
    Products(a, b, c, ab, bc);
    assert Calc(Syntax.OpMul, other, ab, c).value == Calc(Syntax.OpMul, other, a, bc).value;
    assert Calc(Syntax.OpMul, other, a, sum).value == ab + ac;
  }

  /** a % b leaves of a what no whole number of b makes up: smaller than b, and of the sign of a. */
  lemma RemainderLaw(other: Other, a: real, b: real) returns (k: int)
    requires b != 0.0
    ensures var r := Calc(Syntax.OpMod, other, a, b);
            && r.Some? && a == b * (k as real) + r.value
            && -Magnitude(b) < r.value < Magnitude(b)
            && (a >= 0.0 ==> r.value >= 0.0) && (a <= 0.0 ==> r.value <= 0.0)
  {
    k := Truncated(a / b);
    RemainderExact(a, b);
    assert Calc(Syntax.OpMod, other, a, b) == Some(Remainder(a, b));
  }

  lemma Raised(other: Other, a: real, n: nat)
    ensures Calc(Syntax.OpPow, other, a, n as real).Some? && Calc(Syntax.OpPow, other, a, n as real).value == NatPower(a, n)
  {
    Calculated(Syntax.OpPow, other, a, n as real);
    assert (n as real).Floor == n;
    assert KernelOf(Syntax.OpPow, other).f(a, n as real) == Power(a, n as real);
  }

  /** Powers: a ^ 0 is 1, a ^ 1 is a, exponents add, and an opposite exponent gives the reciprocal. */
  lemma PowerLaws(other: Other, a: real, m: nat, n: nat)
    ensures Calc(Syntax.OpPow, other, a, 0.0) == Some(1.0) && Calc(Syntax.OpPow, other, a, 1.0) == Some(a)
    ensures Calc(Syntax.OpPow, other, a, m as real).Some? && Calc(Syntax.OpPow, other, a, n as real).Some?
    ensures Calc(Syntax.OpPow, other, a, (m + n) as real).Some?
    ensures Calc(Syntax.OpPow, other, a, (m + n) as real).value ==
            Calc(Syntax.OpPow, other, a, m as real).value * Calc(Syntax.OpPow, other, a, n as real).value
    ensures a != 0.0 ==> Calc(Syntax.OpPow, other, a, -(n as real)).Some? &&
                         Calc(Syntax.OpPow, other, a, n as real).value * Calc(Syntax.OpPow, other, a, -(n as real)).value == 1.0
  {
    Raised(other, a, 0);
    Raised(other, a, 1);
    Raised(other, a, m);
    Raised(other, a, n);
    Raised(other, a, m + n);
    assert NatPower(a, 1) == a * NatPower(a, 0) == a;
    NatPowerAdds(a, m, n);
    hide NatPower;
    hide Calc;
    if a != 0.0 {
      Lowered(other, a, n);
    }
  }

  lemma Lowered(other: Other, a: real, n: nat)
    requires a != 0.0
    ensures Calc(Syntax.OpPow, other, a, -(n as real)).Some?
    ensures NatPower(a, n) * Calc(Syntax.OpPow, other, a, -(n as real)).value == 1.0
  {
    LoweredTimes(other, a, n);
    hide Calc;
  }

  function Times(a: real, b: real): real { a * b }

  lemma OppositeTimes(a: real, b: real)
    requires IsWhole(b) && a != 0.0
    ensures IsWhole(-b) && Times(Power(a, b), Power(a, -b)) == 1.0
  {
    PowerInverts(a, b);
    hide Power;
  }

  lemma LoweredTimes(other: Other, a: real, n: nat)
    requires a != 0.0
    ensures Calc(Syntax.OpPow, other, a, -(n as real)).Some?
    ensures Times(NatPower(a, n), Calc(Syntax.OpPow, other, a, -(n as real)).value) == 1.0
  {
    hide Times;
    hide Power;
    NatIsPower(a, n);
    OppositeTimes(a, n as real);
    PowerOfWhole(other, a, -(n as real));
    hide NatPower;
    hide Calc;
  }

  lemma NatIsPower(a: real, n: nat)
    ensures IsWhole(n as real) && Power(a, n as real) == NatPower(a, n)
  {
    assert (n as real).Floor == n;
  }

  lemma PowerOfWhole(other: Other, a: real, b: real)
    requires IsWhole(b) && a != 0.0
    ensures Calc(Syntax.OpPow, other, a, b).Some? && Calc(Syntax.OpPow, other, a, b).value == Power(a, b)
  {
    Calculated(Syntax.OpPow, other, a, b);
    assert KernelOf(Syntax.OpPow, other).f(a, b) == Power(a, b);
    hide Power;
    hide Calc;
  }

  /** Of >, == and < exactly one holds; >=, <= and != say the opposite of <, > and ==; > compares the difference with zero. */
  lemma ComparisonLaws(other: Other, a: real, b: real)
    ensures Says(Syntax.OpGtr, other, a, b) == Some(a - b > 0.0) && Says(Syntax.OpEql, other, a, b) == Some(a - b == 0.0)
    ensures Says(Syntax.OpLss, other, a, b) == Says(Syntax.OpGtr, other, b, a)
    ensures Says(Syntax.OpGte, other, a, b) == Some(Says(Syntax.OpLss, other, a, b) == Some(false))
    ensures Says(Syntax.OpLte, other, a, b) == Some(Says(Syntax.OpGtr, other, a, b) == Some(false))
    ensures Says(Syntax.OpNeq, other, a, b) == Some(Says(Syntax.OpEql, other, a, b) == Some(false))
  {
  }

  // ---- A vector and a number ----

  /** What an operator does to a vector it does to its elements: the number stays on its side, only the metric name goes. */
  lemma {:induction false} ElementByElement(op: Syntax.Op, other: Other, returnBool: bool, v: Vector, x: real, left: bool)
    requires IsArithmetic(op)
    ensures var r := ScalarVector(KernelOf(op, other), x, v, left, returnBool);
            && |r| == |v|
            && forall i :: 0 <= i < |v| ==>
                 && r[i].metric == DropMetricName(v[i].metric) && r[i].t == v[i].t
                 && Some(r[i].v) == if left then Calc(op, other, x, v[i].v) else Calc(op, other, v[i].v, x)
  {
    if v != [] {
      ElementByElement(op, other, returnBool, v[..|v| - 1], x, left);
      OneElement(op, other, x, v[|v| - 1], left, returnBool);
      hide ScalarElement;
      hide Calc;
      hide KernelOf;
    }
  }

  lemma OneElement(op: Syntax.Op, other: Other, x: real, s: VectorSample, left: bool, returnBool: bool)
    requires IsArithmetic(op)
    ensures var r := ScalarElement(KernelOf(op, other), x, s, left, returnBool);
            && r.Some? && r.value.metric == DropMetricName(s.metric) && r.value.t == s.t
            && Some(r.value.v) == if left then Calc(op, other, x, s.v) else Calc(op, other, s.v, x)
  {
  }

  lemma ArithmeticWithNumber(op: Syntax.Op, other: Other, returnBool: bool, m: Option<MatchSpec>, v: Vector, x: real)
    requires IsArithmetic(op)
    ensures var l, r := Applied(op, other, returnBool, m, ScalarValue(x), VectorValue(v)),
                        Applied(op, other, returnBool, m, VectorValue(v), ScalarValue(x));
            && l.Ok? && l.value.VectorValue? && r.Ok? && r.value.VectorValue? && |l.value.v| == |r.value.v| == |v|
            && forall i :: 0 <= i < |v| ==>
                 && l.value.v[i].metric == r.value.v[i].metric == DropMetricName(v[i].metric)
                 && l.value.v[i].t == r.value.v[i].t == v[i].t
                 && Some(l.value.v[i].v) == Calc(op, other, x, v[i].v) && Some(r.value.v[i].v) == Calc(op, other, v[i].v, x)
  {
    ElementByElement(op, other, returnBool, v, x, true);
    ElementByElement(op, other, returnBool, v, x, false);
    hide ScalarVector;
    hide Calc;
  }

  /** Whether an element compares with the number as the operator says. */
  predicate Passes(op: Syntax.Op, other: Other, x: real, left: bool, s: VectorSample) {
    (if left then Says(op, other, x, s.v) else Says(op, other, s.v, x)) == Some(true)
  }

  /** The samples that do, in order. */
  function Passing(op: Syntax.Op, other: Other, x: real, left: bool, v: Vector): Vector {
    if v == [] then []
    else
      var front, s := Passing(op, other, x, left, v[..|v| - 1]), v[|v| - 1];
      if Passes(op, other, x, left, s) then front + [s] else front
  }

  /** Every element, 1 if it does and 0 if it does not, without metric name. */
  function Graded(op: Syntax.Op, other: Other, x: real, left: bool, v: Vector): (r: Vector)
    ensures |r| == |v|
  {
    seq(|v|, i requires 0 <= i < |v| =>
      VectorSample(DropMetricName(v[i].metric), v[i].t, if Passes(op, other, x, left, v[i]) then 1.0 else 0.0))
  }

  lemma {:induction false} FilterByElement(op: Syntax.Op, other: Other, v: Vector, x: real, left: bool)
    requires Compares(op)
    ensures ScalarVector(KernelOf(op, other), x, v, left, false) == Passing(op, other, x, left, v)
    ensures ScalarVector(KernelOf(op, other), x, v, left, true) == Graded(op, other, x, left, v)
  {
    if v != [] {
      var front, s := v[..|v| - 1], v[|v| - 1];
      FilterByElement(op, other, front, x, left);
      OneFiltered(op, other, x, s, left);
      hide ScalarElement;
      hide Passes;
      hide KernelOf;
      hide Compares;
    }
  }

  lemma OneFiltered(op: Syntax.Op, other: Other, x: real, s: VectorSample, left: bool)
    requires Compares(op)
    ensures var passes := Passes(op, other, x, left, s);
            && ScalarElement(KernelOf(op, other), x, s, left, false) == (if passes then Some(s) else None)
            && ScalarElement(KernelOf(op, other), x, s, left, true) ==
               Some(VectorSample(DropMetricName(s.metric), s.t, if passes then 1.0 else 0.0))
  {
  }

  /** A comparison with a number keeps, unchanged and in order, the samples that compare so; with bool it grades all. */
  lemma ComparisonWithNumber(op: Syntax.Op, other: Other, m: Option<MatchSpec>, v: Vector, x: real)
    requires Compares(op)
    ensures Applied(op, other, false, m, VectorValue(v), ScalarValue(x)) == Ok(VectorValue(Passing(op, other, x, false, v)))
    ensures Applied(op, other, false, m, ScalarValue(x), VectorValue(v)) == Ok(VectorValue(Passing(op, other, x, true, v)))
    ensures Applied(op, other, true, m, VectorValue(v), ScalarValue(x)) == Ok(VectorValue(Graded(op, other, x, false, v)))
    ensures Applied(op, other, true, m, ScalarValue(x), VectorValue(v)) == Ok(VectorValue(Graded(op, other, x, true, v)))
  {
    FilterByElement(op, other, v, x, true);
    FilterByElement(op, other, v, x, false);
    hide ScalarVector;
    hide Graded;
    hide Passing;
  }

  // ---- Two vectors ----

  /** The matched pairs, in the order of the side that may have many: a sample there and its match on the other side. */
  function Pairs(m: Option<MatchSpec>, many: Vector, one: Vector): seq<(VectorSample, VectorSample)> {
    if many == [] then []
    else
      var front, s := Pairs(m, many[..|many| - 1], one), many[|many| - 1];
      match LastMatch(one, m, Signature(s.metric, m, false))
      case None => front
      case Some(o) => front + [(s, o)]
  }

  function Lookup(ls: LabelList, n: Bytes): Option<Bytes> {
    if n in LastWins(ls) then Some(LastWins(ls)[n]) else None
  }

  /**
   * The labels of a result. One to one: those matched on, or without on all but the metric name. With group_left and
   * group_right: those of the many side but the metric name, and the included ones that the one side has.
   */
  ghost predicate ResultLabels(m: Option<MatchSpec>, metric: LabelList, many: LabelList, one: LabelList) {
    forall n :: Lookup(metric, n) ==
      if m.None? || (m.value.card == OneToOne && !m.value.on) then (if n == METRIC_NAME then None else Lookup(many, n))
      else if m.value.card == OneToOne then (if n in m.value.labels then Lookup(many, n) else None)
      else if n in m.value.included && Get(one, n) != [] then Some(Get(one, n))
      else if n == METRIC_NAME then None
      else Lookup(many, n)
  }

  lemma PairLabels(op: Kernel, returnBool: bool, m: Option<MatchSpec>, s: VectorSample, o: VectorSample)
    requires op.Arithmetic? || returnBool
    ensures var x := Combined(op, returnBool, m, s, o);
            x.Some? && x.value.t == s.t && ResultLabels(m, x.value.metric, s.metric, o.metric)
  {
    hide LastWins;
    hide Filtered;
    hide Get;
    hide Extended;
    var metric := Combined(op, returnBool, m, s, o).value.metric;
    FilteredLastWins(s.metric, n => n != METRIC_NAME);
    if m.Some? && m.value.card == OneToOne {
      FilteredLastWins(s.metric, n => n in m.value.labels);
    } else if m.Some? {
      forall n ensures Lookup(metric, n) == if n in m.value.included && Get(o.metric, n) != [] then Some(Get(o.metric, n))
                                            else if n == METRIC_NAME then None else Lookup(s.metric, n)
      {
        ExtendedExact(DropMetricName(s.metric), o.metric, m.value.included, n);
      }
    }
  }

  /** Which of a pair stands on the left of the operator. */
  function LeftOf(m: Option<MatchSpec>, pair: (VectorSample, VectorSample)): VectorSample {
    if m.Some? && m.value.card == OneToMany then pair.1 else pair.0
  }

  function RightOf(m: Option<MatchSpec>, pair: (VectorSample, VectorSample)): VectorSample {
    if m.Some? && m.value.card == OneToMany then pair.0 else pair.1
  }

  ghost predicate IsPairResult(op: Syntax.Op, other: Other, m: Option<MatchSpec>, pair: (VectorSample, VectorSample), r: VectorSample) {
    && Some(r.v) == Calc(op, other, LeftOf(m, pair).v, RightOf(m, pair).v)
    && r.t == pair.0.t
    && ResultLabels(m, r.metric, pair.0.metric, pair.1.metric)
  }

  lemma {:induction false} JoinByPair(op: Syntax.Op, other: Other, returnBool: bool, m: Option<MatchSpec>, many: Vector, one: Vector)
    requires IsArithmetic(op)
    ensures var (r, pairs) := (Joined(KernelOf(op, other), returnBool, m, many, one), Pairs(m, many, one));
            && |r| == |pairs|
            && forall i :: 0 <= i < |pairs| ==> IsPairResult(op, other, m, pairs[i], r[i])
  {
    if many != [] {
      var s := many[|many| - 1];
      JoinByPair(op, other, returnBool, m, many[..|many| - 1], one);
      var found := LastMatch(one, m, Signature(s.metric, m, false));
      if found.Some? {
        OnePair(op, other, returnBool, m, s, found.value);
      }
      hide Combined;
      hide IsPairResult;
      hide KernelOf;
      hide Signature;
      hide LastMatch;
    }
  }

  lemma OnePair(op: Syntax.Op, other: Other, returnBool: bool, m: Option<MatchSpec>, s: VectorSample, o: VectorSample)
    requires IsArithmetic(op)
    ensures var x := Combined(KernelOf(op, other), returnBool, m, s, o);
            x.Some? && IsPairResult(op, other, m, (s, o), x.value)
  {
    hide Extended;
    hide ResultMetric;
    hide ResultLabels;
    PairLabels(KernelOf(op, other), returnBool, m, s, o);
  }

  lemma VectorsApplied(op: Syntax.Op, other: Other, returnBool: bool, m: Option<MatchSpec>, l: Vector, r: Vector)
    requires IsArithmetic(op) || Compares(op)
    ensures Applied(op, other, returnBool, m, VectorValue(l), VectorValue(r)) ==
            Ok(VectorValue(if m.Some? && m.value.card == OneToMany then Joined(KernelOf(op, other), returnBool, m, r, l)
                           else Joined(KernelOf(op, other), returnBool, m, l, r)))
  {
    hide Joined;
  }

  /** Arithmetic between vectors gives, for each matched pair in order, the number that the two values give. */
  lemma ArithmeticByPair(op: Syntax.Op, other: Other, returnBool: bool, m: Option<MatchSpec>, l: Vector, r: Vector)
    requires IsArithmetic(op)
    ensures var pairs := if m.Some? && m.value.card == OneToMany then Pairs(m, r, l) else Pairs(m, l, r);
            var x := Applied(op, other, returnBool, m, VectorValue(l), VectorValue(r));
            && x.Ok? && x.value.VectorValue? && |x.value.v| == |pairs|
            && forall i :: 0 <= i < |pairs| ==> IsPairResult(op, other, m, pairs[i], x.value.v[i])
  {
    VectorsApplied(op, other, returnBool, m, l, r);
    JoinByPair(op, other, returnBool, m, l, r);
    JoinByPair(op, other, returnBool, m, r, l);
    hide *;
  }

  ghost predicate PairPasses(op: Syntax.Op, other: Other, m: Option<MatchSpec>, pair: (VectorSample, VectorSample)) {
    Says(op, other, LeftOf(m, pair).v, RightOf(m, pair).v) == Some(true)
  }

  /** The samples of the many side, unchanged, whose pair compares as the operator says. */
  ghost function PassingPairs(op: Syntax.Op, other: Other, m: Option<MatchSpec>, pairs: seq<(VectorSample, VectorSample)>): Vector {
    if pairs == [] then []
    else
      var front, pair := PassingPairs(op, other, m, pairs[..|pairs| - 1]), pairs[|pairs| - 1];
      if PairPasses(op, other, m, pair) then front + [pair.0] else front
  }

  lemma PassingMore(op: Syntax.Op, other: Other, m: Option<MatchSpec>, front: seq<(VectorSample, VectorSample)>,
                    pair: (VectorSample, VectorSample))
    ensures PassingPairs(op, other, m, front + [pair]) ==
            PassingPairs(op, other, m, front) + if PairPasses(op, other, m, pair) then [pair.0] else []
  {
    hide PairPasses;
    assert (front + [pair])[..|front|] == front;
  }

  lemma RowAndPair(k: Kernel, returnBool: bool, m: Option<MatchSpec>, front: Vector, s: VectorSample, one: Vector)
    ensures var found := LastMatch(one, m, Signature(s.metric, m, false));
            && Pairs(m, front + [s], one) == Pairs(m, front, one) + (if found.Some? then [(s, found.value)] else [])
            && Joined(k, returnBool, m, front + [s], one) == Joined(k, returnBool, m, front, one) +
                 (if found.Some? then Listed(Combined(k, returnBool, m, s, found.value)) else [])
  {
    hide Signature;
    hide LastMatch;
    hide Combined;
    assert (front + [s])[..|front|] == front;
  }

  lemma {:induction false} FilterByPair(op: Syntax.Op, other: Other, m: Option<MatchSpec>, many: Vector, one: Vector)
    requires Compares(op)
    ensures Joined(KernelOf(op, other), false, m, many, one) == PassingPairs(op, other, m, Pairs(m, many, one))
  {
    if many == [] {
      assert Pairs(m, many, one) == [];
    } else {
      hide *;
      var front, s := many[..|many| - 1], many[|many| - 1];
      assert many == front + [s];
      FilterByPair(op, other, m, front, one);
      RowAndPair(KernelOf(op, other), false, m, front, s, one);
      var found := LastMatch(one, m, Signature(s.metric, m, false));
      if found.Some? {
        OneComparedPair(op, other, m, s, found.value);
        PassingMore(op, other, m, Pairs(m, front, one), (s, found.value));
        ListedIf(PairPasses(op, other, m, (s, found.value)), s);
      }
    }
  }

  lemma ListedIf(b: bool, s: VectorSample)
    ensures Listed(if b then Some(s) else None) == if b then [s] else []
  {
  }

  lemma OneComparedPair(op: Syntax.Op, other: Other, m: Option<MatchSpec>, s: VectorSample, o: VectorSample)
    requires Compares(op)
    ensures Combined(KernelOf(op, other), false, m, s, o) == if PairPasses(op, other, m, (s, o)) then Some(s) else None
  {
    hide Extended;
    hide ResultMetric;
  }

  /** A comparison between vectors keeps the samples of the many side whose pair compares so, unchanged and in order. */
  lemma ComparisonByPair(op: Syntax.Op, other: Other, m: Option<MatchSpec>, l: Vector, r: Vector)
    requires Compares(op)
    ensures var pairs := if m.Some? && m.value.card == OneToMany then Pairs(m, r, l) else Pairs(m, l, r);
            Applied(op, other, false, m, VectorValue(l), VectorValue(r)) == Ok(VectorValue(PassingPairs(op, other, m, pairs)))
  {
    VectorsApplied(op, other, false, m, l, r);
    FilterByPair(op, other, m, l, r);
    FilterByPair(op, other, m, r, l);
    hide *;
  }

  ghost predicate IsPairGrade(op: Syntax.Op, other: Other, m: Option<MatchSpec>, pair: (VectorSample, VectorSample), r: VectorSample) {
    && r.v == (if PairPasses(op, other, m, pair) then 1.0 else 0.0)
    && r.t == pair.0.t
    && ResultLabels(m, r.metric, pair.0.metric, pair.1.metric)
  }

  lemma OneGradedPair(op: Syntax.Op, other: Other, m: Option<MatchSpec>, s: VectorSample, o: VectorSample)
    requires Compares(op)
    ensures var x := Combined(KernelOf(op, other), true, m, s, o);
            x.Some? && IsPairGrade(op, other, m, (s, o), x.value)
  {
    PairLabels(KernelOf(op, other), true, m, s, o);
    hide Extended;
    hide ResultMetric;
    hide ResultLabels;
  }

  lemma {:induction false} GradeByPair(op: Syntax.Op, other: Other, m: Option<MatchSpec>, many: Vector, one: Vector)
    requires Compares(op)
    ensures var (r, pairs) := (Joined(KernelOf(op, other), true, m, many, one), Pairs(m, many, one));
            && |r| == |pairs|
            && forall i :: 0 <= i < |pairs| ==> IsPairGrade(op, other, m, pairs[i], r[i])
  {
    if many != [] {
      var s := many[|many| - 1];
      GradeByPair(op, other, m, many[..|many| - 1], one);
      var found := LastMatch(one, m, Signature(s.metric, m, false));
      if found.Some? {
        OneGradedPair(op, other, m, s, found.value);
      }
      hide Combined;
      hide IsPairGrade;
      hide KernelOf;
      hide Signature;
      hide LastMatch;
    }
  }

  /** With bool it grades every pair, 1 or 0, under the labels of the result. */
  lemma GradesByPair(op: Syntax.Op, other: Other, m: Option<MatchSpec>, l: Vector, r: Vector)
    requires Compares(op)
    ensures var pairs := if m.Some? && m.value.card == OneToMany then Pairs(m, r, l) else Pairs(m, l, r);
            var x := Applied(op, other, true, m, VectorValue(l), VectorValue(r));
            && x.Ok? && x.value.VectorValue? && |x.value.v| == |pairs|
            && forall i :: 0 <= i < |pairs| ==> IsPairGrade(op, other, m, pairs[i], x.value.v[i])
  {
    VectorsApplied(op, other, true, m, l, r);
    GradeByPair(op, other, m, l, r);
    GradeByPair(op, other, m, r, l);
    hide *;
  }

  // ---- Set operators ----

  /** Some sample of v has the labels of s, as far as they take part in the matching. */
  ghost predicate Shares(v: Vector, m: Option<MatchSpec>, s: VectorSample) {
    exists i :: 0 <= i < |v| && Signature(v[i].metric, m, true) == Signature(s.metric, m, true)
  }

  /** and: the left samples the right side shares; unless: the others; or: the left side, and what it does not share of the right. */
  lemma SetOperatorsExact(other: Other, returnBool: bool, m: Option<MatchSpec>, l: Vector, r: Vector)
    ensures var (x, y, z) := (Applied(Syntax.LAnd, other, returnBool, m, VectorValue(l), VectorValue(r)),
                              Applied(Syntax.LUnless, other, returnBool, m, VectorValue(l), VectorValue(r)),
                              Applied(Syntax.LOr, other, returnBool, m, VectorValue(l), VectorValue(r)));
            && x.Ok? && x.value.VectorValue? && y.Ok? && y.value.VectorValue? && z.Ok? && z.value.VectorValue?
            && (forall s :: s in x.value.v <==> s in l && Shares(r, m, s))
            && (forall s :: s in y.value.v <==> s in l && !Shares(r, m, s))
            && (forall s :: s in z.value.v <==> s in l || (s in r && !Shares(l, m, s)))
            && Interleaves(x.value.v, y.value.v, l) && l <= z.value.v
  {
    hide Signature;
    AndUnlessPartition(l, r, m);
    forall s
      ensures s in Kept(l, r, m, true) <==> s in l && Shares(r, m, s)
      ensures s in Kept(l, r, m, false) <==> s in l && !Shares(r, m, s)
      ensures s in Kept(r, l, m, false) <==> s in r && !Shares(l, m, s)
    {
      KeptMember(l, r, m, true, s);
      KeptMember(l, r, m, false, s);
      KeptMember(r, l, m, false, s);
    }
    hide Kept;
    hide Shares;
    hide Interleaves;
  }

  // ---- In expressions ----

  /** The bytes of label names. */
  ghost predicate Spells(env: Evaluation.Env, names: seq<string>, bytes: seq<Bytes>) {
    |bytes| == |names| && forall i :: 0 <= i < |names| ==> bytes[i] == env.bytes(names[i])
  }

  /** What an expression says of matching is what is matched by: on or ignoring, which labels, which side may have many, what is copied. */
  lemma MatchingEvaluated(env: Evaluation.Env, b: Evaluation.Bounds, e: Syntax.Expr, ts: Int64, l: Value, r: Value,
                          spec: MatchSpec, listed: seq<Bytes>)
    requires e.BinaryExpr? && Evaluation.Eval(env, b, e.lhs, ts) == Ok(l) && Evaluation.Eval(env, b, e.rhs, ts) == Ok(r)
    requires e.matching.Some? ==>
               var m := e.matching.value;
               && (spec.card == OneToOne <==> m.card == Syntax.OneToOne) && (spec.card == ManyToOne <==> m.card == Syntax.ManyToOne)
               && Spells(env, m.included, spec.included)
               && (m.clause.None? ==> !spec.on && spec.labels == {})
               && (m.clause.Some? ==> spec.on == m.clause.value.on && Spells(env, m.clause.value.labels, listed)
                                      && spec.labels == set n | n in listed)
    ensures Evaluation.Eval(env, b, e, ts) ==
            Applied(e.op, (x, y) => env.other(e.op, x, y), e.returnBool, if e.matching.Some? then Some(spec) else None, l, r)
  {
    if e.matching.Some? {
      var m := e.matching.value;
      assert Evaluation.Mapped(env, m.included) == spec.included;
      if m.clause.Some? {
        var names := m.clause.value.labels;
        forall n ensures n in Evaluation.NamesOf(env, names) <==> n in listed {
          if n in listed {
            var i :| 0 <= i < |listed| && listed[i] == n;
            assert names[i] in names;
          }
          if n in Evaluation.NamesOf(env, names) {
            var s :| s in names && env.bytes(s) == n;
            var i :| 0 <= i < |names| && names[i] == s;
            assert listed[i] == n;
          }
        }
        assert Evaluation.NamesOf(env, names) == spec.labels;
      }
      assert Evaluation.SpecOf(env, e.matching) == Some(spec);
    }
    hide Applied;
    hide Spells;
  }
}
