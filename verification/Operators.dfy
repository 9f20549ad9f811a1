/** Binary operators on evaluated operands: scalar, scalar with vector, and vector with vector. */
module Operators {
  import opened Base
  import opened Vectors
  import opened Matching
  import Syntax

  predicate IsComparison(op: Kernel) { op.Comparison? }

  /** The number, and for a comparison whether it held. */
  function ScalarBinop(op: Kernel, a: real, b: real): (real, bool) {
    match op
    case Arithmetic(f) => (f(a, b), true)
    case Comparison(test) => (a, test(a, b))
  }

  /** One vector element with a scalar. */
  function ScalarElement(op: Kernel, scalar: real, s: VectorSample, scalarLeft: bool, returnBool: bool): Option<VectorSample> {
    var (v, keep) := if scalarLeft then ScalarBinop(op, scalar, s.v) else ScalarBinop(op, s.v, scalar);
    if !IsComparison(op) then Some(VectorSample(DropMetricName(s.metric), s.t, v))
    else if returnBool then Some(VectorSample(DropMetricName(s.metric), s.t, if keep then 1.0 else 0.0))
    else if keep then Some(s)
    else None
  }

  function ScalarVector(op: Kernel, scalar: real, vec: Vector, scalarLeft: bool, returnBool: bool): Vector {
    if vec == [] then []
    else
      ScalarVector(op, scalar, vec[..|vec| - 1], scalarLeft, returnBool) +
      Listed(ScalarElement(op, scalar, vec[|vec| - 1], scalarLeft, returnBool))
  }

  method ScalarVectorOp(op: Kernel, scalar: real, vec: Vector, scalarLeft: bool, returnBool: bool) returns (out: Vector)
    ensures out == ScalarVector(op, scalar, vec, scalarLeft, returnBool)
  {
    out := [];
    for i := 0 to |vec|
      invariant out == ScalarVector(op, scalar, vec[..i], scalarLeft, returnBool)
    {
      assert vec[..i + 1][..i] == vec[..i];
      var s := vec[i];
      var (v, keep) := if scalarLeft then ScalarBinop(op, scalar, s.v) else ScalarBinop(op, s.v, scalar);
      if IsComparison(op) {
        if returnBool {
          out := out + [VectorSample(DropMetricName(s.metric), s.t, if keep then 1.0 else 0.0)];
        } else if keep {
          out := out + [s];
        }
      } else {
        out := out + [VectorSample(DropMetricName(s.metric), s.t, v)];
      }
    }
    assert vec[..|vec|] == vec;
  }

  function SetOpOf(op: Syntax.Op): Option<SetOp> {
    match op
    case LAnd => Some(And)
    case LOr => Some(Or)
    case LUnless => Some(Unless)
    case _ => None
  }

  /** Applies an operator; other gives the results that are not real numbers or not exact. */
  function Applied(op: Syntax.Op, other: (real, real) -> real, returnBool: bool, m: Option<MatchSpec>, l: Value, r: Value): Result<Value, Failure> {
    var setOp, kernel := SetOpOf(op), KernelOf(op, other);
    if setOp.Some? then
      if l.VectorValue? && r.VectorValue? then Ok(VectorValue(SetResult(setOp.value, l.v, r.v, m)))
      else Err(SetOperatorNeedsVectors)
    else if l.ScalarValue? && r.ScalarValue? then
      if IsComparison(kernel) && !returnBool then Err(ScalarsNeedBool)
      else
        var (v, keep) := ScalarBinop(kernel, l.s, r.s);
        Ok(ScalarValue(if !IsComparison(kernel) then v else if keep then 1.0 else 0.0))
    else if l.ScalarValue? && r.VectorValue? then Ok(VectorValue(ScalarVector(kernel, l.s, r.v, true, returnBool)))
    else if l.VectorValue? && r.ScalarValue? then Ok(VectorValue(ScalarVector(kernel, r.s, l.v, false, returnBool)))
    else if l.VectorValue? && r.VectorValue? then Ok(VectorValue(VectorVector(kernel, returnBool, m, l.v, r.v)))
    else Err(OperandsUnsupported)
  }

  method ApplyBinary(op: Syntax.Op, other: (real, real) -> real, returnBool: bool, m: Option<MatchSpec>, l: Value, r: Value)
    returns (result: Result<Value, Failure>)
    ensures result == Applied(op, other, returnBool, m, l, r)
  {
    var setOp, kernel := SetOpOf(op), KernelOf(op, other);
    if setOp.Some? {
      if !l.VectorValue? || !r.VectorValue? {
        return Err(SetOperatorNeedsVectors);
      }
      var out := VectorSetOp(setOp.value, l.v, r.v, m);
      return Ok(VectorValue(out));
    }
    if l.ScalarValue? && r.ScalarValue? {
      if IsComparison(kernel) && !returnBool {
        return Err(ScalarsNeedBool);
      }
      var (v, keep) := ScalarBinop(kernel, l.s, r.s);
      return Ok(ScalarValue(if !IsComparison(kernel) then v else if keep then 1.0 else 0.0));
    } else if l.ScalarValue? && r.VectorValue? {
      var out := ScalarVectorOp(kernel, l.s, r.v, true, returnBool);
      return Ok(VectorValue(out));
    } else if l.VectorValue? && r.ScalarValue? {
      var out := ScalarVectorOp(kernel, r.s, l.v, false, returnBool);
      return Ok(VectorValue(out));
    } else if l.VectorValue? && r.VectorValue? {
      var out := VectorVectorOp(kernel, returnBool, m, l.v, r.v);
      return Ok(VectorValue(out));
    } else {
      return Err(OperandsUnsupported);
    }
  }

  function TotalOf(v: Vector): real {
    if v == [] then 0.0 else TotalOf(v[..|v| - 1]) + v[|v| - 1].v
  }

  /** The ones of the bool form count the samples the filtering form keeps. */
  lemma {:induction false} BoolCountsFilter(test: (real, real) -> bool, scalar: real, vec: Vector, scalarLeft: bool)
    ensures var op := Comparison(test);
            && |ScalarVector(op, scalar, vec, scalarLeft, true)| == |vec|
            && TotalOf(ScalarVector(op, scalar, vec, scalarLeft, true)) == |ScalarVector(op, scalar, vec, scalarLeft, false)| as real
  {
    if vec != [] {
      var front, op := vec[..|vec| - 1], Comparison(test);
      BoolCountsFilter(test, scalar, front, scalarLeft);
      var b := ScalarVector(op, scalar, front, scalarLeft, true);
      var x := ScalarElement(op, scalar, vec[|vec| - 1], scalarLeft, true);
      assert (b + [x.value])[..|b|] == b;
    }
  }

  /** A filter splits a vector: what passes a comparison and what passes its negation interleave to the whole. */
  lemma {:induction false} FilterSplits(test: (real, real) -> bool, negated: (real, real) -> bool, scalar: real, vec: Vector,
                                        scalarLeft: bool)
    requires forall a, b :: negated(a, b) <==> !test(a, b)
    ensures Interleaves(ScalarVector(Comparison(test), scalar, vec, scalarLeft, false),
                        ScalarVector(Comparison(negated), scalar, vec, scalarLeft, false), vec)
  {
    if vec == [] {
    } else {
      hide *;
      var front, s := vec[..|vec| - 1], vec[|vec| - 1];
      FilterSplits(test, negated, scalar, front, scalarLeft);
      FilterStep(test, negated, scalar, front, s, scalarLeft);
      assert vec == front + [s];
      InterleavesMore(ScalarVector(Comparison(test), scalar, front, scalarLeft, false),
                      ScalarVector(Comparison(negated), scalar, front, scalarLeft, false), front, s);
    }
  }

  lemma FilterStep(test: (real, real) -> bool, negated: (real, real) -> bool, scalar: real, front: Vector, s: VectorSample,
                   scalarLeft: bool)
    requires forall a, b :: negated(a, b) <==> !test(a, b)
    ensures var op, no := Comparison(test), Comparison(negated);
            var x, y := ScalarVector(op, scalar, front, scalarLeft, false), ScalarVector(no, scalar, front, scalarLeft, false);
            var p, q := ScalarVector(op, scalar, front + [s], scalarLeft, false), ScalarVector(no, scalar, front + [s], scalarLeft, false);
            (p == x + [s] && q == y) || (p == x && q == y + [s])
  {
    assert (front + [s])[..|front|] == front;
  }

  /** Exchanging the operands of a scalar comparison or arithmetic exchanges the operator. */
  lemma {:induction false} ScalarSides(op: Kernel, scalar: real, vec: Vector, returnBool: bool)
    ensures ScalarVector(op, scalar, vec, true, returnBool) == ScalarVector(Flipped(op), scalar, vec, false, returnBool)
  {
    if vec != [] {
      ScalarSides(op, scalar, vec[..|vec| - 1], returnBool);
    }
  }
}
