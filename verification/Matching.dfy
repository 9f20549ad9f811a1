/** Binary operators between instant vectors: matching by label signature, and the set operators. */
module Matching {
  import opened Base
  import opened Labels
  import opened LabelText
  import opened Vectors
  import opened Arithmetic
  import Syntax

  datatype Cardinality = OneToOne | ManyToOne | OneToMany

  /** on(labels) or ignoring(labels), with the labels group_left or group_right copies over. */
  datatype MatchSpec = MatchSpec(card: Cardinality, on: bool, labels: set<Bytes>, included: seq<Bytes>)

  /** What an operator does with two numbers. */
  datatype Kernel = Arithmetic(f: (real, real) -> real) | Comparison(test: (real, real) -> bool)

  function CardOf(m: Option<MatchSpec>): Cardinality {
    if m.None? then OneToOne else m.value.card
  }

  /** Where division, remainder and power have no real result, or only an inexact one, they are given by other. */
  function KernelOf(op: Syntax.Op, other: (real, real) -> real): Kernel {
    match op
    case OpEql => Comparison((a, b) => a == b)
    case OpNeq => Comparison((a, b) => a != b)
    case OpGtr => Comparison((a, b) => a > b)
    case OpLss => Comparison((a, b) => a < b)
    case OpGte => Comparison((a, b) => a >= b)
    case OpLte => Comparison((a, b) => a <= b)
    case OpAdd => Arithmetic((a, b) => a + b)
    case OpSub => Arithmetic((a, b) => a - b)
    case OpMul => Arithmetic((a, b) => a * b)
    case OpDiv => Arithmetic((a, b) => if b != 0.0 then a / b else other(a, b))
    case OpMod => Arithmetic((a, b) => if b != 0.0 then Remainder(a, b) else other(a, b))
    case OpPow => Arithmetic((a, b) => if IsWhole(b) && (b >= 0.0 || a != 0.0) then Power(a, b) else other(a, b))
    case _ => Arithmetic((a, b) => 0.0)
  }

  // ---- Signatures ----

  /** The labels two elements must share to be matched. */
  function SignatureLabels(l: LabelList, m: Option<MatchSpec>, includeName: bool): LabelList {
    match m
    case None => if includeName then l else DropMetricName(l)
    case Some(s) => if s.on then ProjectKeep(l, s.labels) else DropLabels(l, {METRIC_NAME} + s.labels)
  }

  function Signature(l: LabelList, m: Option<MatchSpec>, includeName: bool): Bytes {
    Text(SignatureLabels(l, m, includeName))
  }

  /** Whether a label name takes part in the matching. */
  predicate Matched(name: Bytes, m: Option<MatchSpec>, includeName: bool) {
    match m
    case None => includeName || name != METRIC_NAME
    case Some(s) => if s.on then name in s.labels else name != METRIC_NAME && name !in s.labels
  }

  lemma {:induction false} FilteredLastWins(ls: LabelList, keep: Bytes -> bool)
    ensures LastWins(Filtered(ls, keep)) == map k | k in LastWins(ls) && keep(k) :: LastWins(ls)[k]
  {
    if ls != [] {
      var front, l := ls[..|ls| - 1], ls[|ls| - 1];
      FilteredLastWins(front, keep);
      FilteredSnoc(front, l, keep);
      assert ls == front + [l];
      var r := Filtered(front, keep);
      assert (r + [l])[..|r|] == r;
    }
  }

  lemma SignatureLastWins(l: LabelList, m: Option<MatchSpec>, includeName: bool)
    ensures LastWins(SignatureLabels(l, m, includeName)) ==
            map k | k in LastWins(l) && Matched(k, m, includeName) :: LastWins(l)[k]
  {
    hide LastWins;
    hide Filtered;
    match m
    case None =>
      FilteredLastWins(l, n => n != METRIC_NAME);
    case Some(s) =>
      FilteredLastWins(l, n => n in s.labels);
      FilteredLastWins(l, n => n !in {METRIC_NAME} + s.labels);
  }

  lemma SignatureNormal(l: LabelList, m: Option<MatchSpec>, includeName: bool)
    requires Canonical(l) && NamesPlain(l)
    ensures var s := SignatureLabels(l, m, includeName); Canonical(s) && NamesPlain(s)
  {
    hide Canonical;
    hide NamesPlain;
    hide Filtered;
    match m
    case None =>
      FilteredPlain(l, n => n != METRIC_NAME);
      FilteredCanonical(l, n => n != METRIC_NAME);
    case Some(s) =>
      FilteredPlain(l, n => n in s.labels);
      FilteredCanonical(l, n => n in s.labels);
      FilteredPlain(l, n => n !in {METRIC_NAME} + s.labels);
      FilteredCanonical(l, n => n !in {METRIC_NAME} + s.labels);
  }

  ghost predicate AgreeOn(a: map<Bytes, Bytes>, b: map<Bytes, Bytes>, m: Option<MatchSpec>, includeName: bool) {
    forall n :: Matched(n, m, includeName) ==> (n in a <==> n in b) && (n in a ==> a[n] == b[n])
  }

  /** Signatures are equal exactly when the label sets agree on every label that takes part, "" being no metric name. */
  lemma SignatureIsAgreement(a: LabelList, b: LabelList, m: Option<MatchSpec>, includeName: bool)
    requires Canonical(a) && Canonical(b) && NamesPlain(a) && NamesPlain(b)
    ensures Signature(a, m, includeName) == Signature(b, m, includeName) <==>
            AgreeOn(Shown(LastWins(a)), Shown(LastWins(b)), m, includeName)
  {
    hide Text;
    hide LastWins;
    hide SignatureLabels;
    hide Matched;
    hide Canonical;
    hide NamesPlain;
    var x, y := SignatureLabels(a, m, includeName), SignatureLabels(b, m, includeName);
    SignatureLastWins(a, m, includeName);
    SignatureLastWins(b, m, includeName);
    SignatureNormal(a, m, includeName);
    SignatureNormal(b, m, includeName);
    TextIsShownMap(x, y);
    ghost var p, q, sa, sb := Shown(LastWins(x)), Shown(LastWins(y)), Shown(LastWins(a)), Shown(LastWins(b));
    assert p == map k | k in sa && Matched(k, m, includeName) :: sa[k];
    assert q == map k | k in sb && Matched(k, m, includeName) :: sb[k];
    if p == q {
      forall n | Matched(n, m, includeName) ensures (n in sa <==> n in sb) && (n in sa ==> sa[n] == sb[n]) {
        assert (n in p <==> n in sa) && (n in q <==> n in sb);
      }
    }
  }

  // ---- Result labels ----

  function ResultMetric(l: LabelList, m: Option<MatchSpec>): LabelList {
    if m.Some? && m.value.on then ProjectKeep(l, m.value.labels) else DropMetricName(l)
  }

  /** The label list with one label set. */
  function SetLabel(l: LabelList, name: Bytes, value: Bytes): LabelList {
    Normalized(l + [Label(name, value)])
  }

  lemma SetLabelIsUpdate(l: LabelList, name: Bytes, value: Bytes)
    ensures Canonical(SetLabel(l, name, value))
    ensures LastWins(SetLabel(l, name, value)) == LastWins(l)[name := value]
  {
    assert (l + [Label(name, value)])[..|l|] == l;
    NormalizedIsCanonical(l + [Label(name, value)]);
  }

  method WithLabel(l: LabelList, name: Bytes, value: Bytes) returns (r: LabelList)
    ensures r == SetLabel(l, name, value)
  {
    r := FromMap(LastWins(l)[name := value]);
    SetLabelIsUpdate(l, name, value);
    CanonicalUnique(r, SetLabel(l, name, value));
  }

  /** Copies the non-empty included labels of the other side. */
  function Extended(metric: LabelList, from: LabelList, included: seq<Bytes>): LabelList {
    if included == [] then metric
    else
      var front, name := Extended(metric, from, included[..|included| - 1]), included[|included| - 1];
      if Get(from, name) != [] then SetLabel(front, name, Get(from, name)) else front
  }

  /** An included label the other side has wins; every other label stays. */
  lemma {:induction false} ExtendedExact(metric: LabelList, from: LabelList, included: seq<Bytes>, n: Bytes)
    ensures var r := LastWins(Extended(metric, from, included));
            if n in included && Get(from, n) != [] then n in r && r[n] == Get(from, n)
            else (n in r <==> n in LastWins(metric)) && (n in r ==> r[n] == LastWins(metric)[n])
  {
    hide SetLabel;
    hide Get;
    hide LastWins;
    if included != [] {
      var front, name := included[..|included| - 1], included[|included| - 1];
      assert included == front + [name];
      ExtendedExact(metric, from, front, n);
      SetLabelIsUpdate(Extended(metric, from, front), name, Get(from, name));
    }
  }

  method Extend(metric: LabelList, from: LabelList, included: seq<Bytes>) returns (r: LabelList)
    ensures r == Extended(metric, from, included)
  {
    hide SetLabel;
    r := metric;
    for i := 0 to |included|
      invariant r == Extended(metric, from, included[..i])
    {
      assert included[..i + 1][..i] == included[..i];
      var value := GetValue(from, included[i]);
      if value != [] {
        r := WithLabel(r, included[i], value);
      }
    }
    assert included[..|included|] == included;
  }

  // ---- Matching two vectors ----

  /** The result of a matched pair: a plain comparison keeps or drops the reported sample. */
  function Emit(op: Kernel, returnBool: bool, metric: LabelList, lv: real, rv: real, lsamp: VectorSample): Option<VectorSample> {
    match op
    case Arithmetic(f) => Some(VectorSample(metric, lsamp.t, f(lv, rv)))
    case Comparison(test) =>
      if returnBool then Some(VectorSample(metric, lsamp.t, if test(lv, rv) then 1.0 else 0.0))
      else if test(lv, rv) then Some(lsamp)
      else None
  }

  /** The sample on the "one" side that a signature selects: the last that has it. */
  function LastMatch(one: Vector, m: Option<MatchSpec>, key: Bytes): Option<VectorSample> {
    if one == [] then None
    else if Signature(one[|one| - 1].metric, m, false) == key then Some(one[|one| - 1])
    else LastMatch(one[..|one| - 1], m, key)
  }

  lemma {:induction false} LastMatchExact(one: Vector, m: Option<MatchSpec>, key: Bytes) returns (j: int)
    ensures var r := LastMatch(one, m, key);
            if r.Some? then
              && 0 <= j < |one| && one[j] == r.value && Signature(one[j].metric, m, false) == key
              && (forall k :: j < k < |one| ==> Signature(one[k].metric, m, false) != key)
            else
              forall k :: 0 <= k < |one| ==> Signature(one[k].metric, m, false) != key
  {
    hide Signature;
    j := |one| - 1;
    if one != [] && Signature(one[j].metric, m, false) != key {
      j := LastMatchExact(one[..|one| - 1], m, key);
    }
  }

  /** What a sample of the "many" side and its match on the "one" side give. */
  function Combined(op: Kernel, returnBool: bool, m: Option<MatchSpec>, s: VectorSample, o: VectorSample): Option<VectorSample> {
    match CardOf(m)
    case OneToOne => Emit(op, returnBool, ResultMetric(s.metric, m), s.v, o.v, s)
    case ManyToOne => Emit(op, returnBool, Extended(DropMetricName(s.metric), o.metric, m.value.included), s.v, o.v, s)
    case OneToMany => Emit(op, returnBool, Extended(DropMetricName(s.metric), o.metric, m.value.included), o.v, s.v, s)
  }

  function Row(op: Kernel, returnBool: bool, m: Option<MatchSpec>, s: VectorSample, one: Vector): (r: Vector)
    ensures |r| <= 1
  {
    match LastMatch(one, m, Signature(s.metric, m, false))
    case None => []
    case Some(o) =>
      match Combined(op, returnBool, m, s, o)
      case None => []
      case Some(x) => [x]
  }

  /** The nested-loop join: for each sample of the "many" side in order, its last match on the other side. */
  function Joined(op: Kernel, returnBool: bool, m: Option<MatchSpec>, many: Vector, one: Vector): Vector {
    if many == [] then []
    else Joined(op, returnBool, m, many[..|many| - 1], one) + Row(op, returnBool, m, many[|many| - 1], one)
  }

  function VectorVector(op: Kernel, returnBool: bool, m: Option<MatchSpec>, lhs: Vector, rhs: Vector): Vector {
    if CardOf(m).OneToMany? then Joined(op, returnBool, m, rhs, lhs) else Joined(op, returnBool, m, lhs, rhs)
  }

  ghost predicate Indexes(index: map<Bytes, VectorSample>, one: Vector, m: Option<MatchSpec>) {
    forall key :: LastMatch(one, m, key) == if key in index then Some(index[key]) else None
  }

  /** A map from signatures to samples, where a later sample replaces an earlier one. */
  method BuildIndex(one: Vector, m: Option<MatchSpec>) returns (index: map<Bytes, VectorSample>)
    ensures Indexes(index, one, m)
  {
    hide Signature;
    index := map[];
    for i := 0 to |one|
      invariant Indexes(index, one[..i], m)
    {
      assert one[..i + 1][..i] == one[..i];
      index := index[Signature(one[i].metric, m, false) := one[i]];
    }
    assert one[..|one|] == one;
  }

  lemma RowByIndex(op: Kernel, returnBool: bool, m: Option<MatchSpec>, s: VectorSample, one: Vector,
                   index: map<Bytes, VectorSample>)
    requires Indexes(index, one, m)
    ensures var key := Signature(s.metric, m, false);
            Row(op, returnBool, m, s, one) ==
            if key in index then Listed(Combined(op, returnBool, m, s, index[key])) else []
  {
    hide Signature;
    hide Combined;
    var key := Signature(s.metric, m, false);
    assert LastMatch(one, m, key) == if key in index then Some(index[key]) else None;
  }

  /** Matching through the map is the nested-loop join, for all three cardinalities. */
  method VectorVectorOp(op: Kernel, returnBool: bool, m: Option<MatchSpec>, lhs: Vector, rhs: Vector) returns (out: Vector)
    ensures out == VectorVector(op, returnBool, m, lhs, rhs)
  {
    hide Signature;
    hide Row;
    hide Indexes;
    hide Extended;
    hide Emit;
    out := [];
    match CardOf(m) {
      case ManyToOne =>
        var index := BuildIndex(rhs, m);
        for i := 0 to |lhs|
          invariant out == Joined(op, returnBool, m, lhs[..i], rhs)
        {
          assert lhs[..i + 1][..i] == lhs[..i];
          var ls, key := lhs[i], Signature(lhs[i].metric, m, false);
          RowByIndex(op, returnBool, m, ls, rhs, index);
          if key in index {
            var rs := index[key];
            var metric := Extend(DropMetricName(ls.metric), rs.metric, m.value.included);
            out := out + Listed(Emit(op, returnBool, metric, ls.v, rs.v, ls));
          }
        }
        assert lhs[..|lhs|] == lhs;
      case OneToMany =>
        var index := BuildIndex(lhs, m);
        for i := 0 to |rhs|
          invariant out == Joined(op, returnBool, m, rhs[..i], lhs)
        {
          assert rhs[..i + 1][..i] == rhs[..i];
          var rs, key := rhs[i], Signature(rhs[i].metric, m, false);
          RowByIndex(op, returnBool, m, rs, lhs, index);
          if key in index {
            var ls := index[key];
            var metric := Extend(DropMetricName(rs.metric), ls.metric, m.value.included);
            out := out + Listed(Emit(op, returnBool, metric, ls.v, rs.v, rs));
          }
        }
        assert rhs[..|rhs|] == rhs;
      case OneToOne =>
        var index := BuildIndex(rhs, m);
        for i := 0 to |lhs|
          invariant out == Joined(op, returnBool, m, lhs[..i], rhs)
        {
          assert lhs[..i + 1][..i] == lhs[..i];
          var ls, key := lhs[i], Signature(lhs[i].metric, m, false);
          RowByIndex(op, returnBool, m, ls, rhs, index);
          if key in index {
            out := out + Listed(Emit(op, returnBool, ResultMetric(ls.metric, m), ls.v, index[key].v, ls));
          }
        }
        assert lhs[..|lhs|] == lhs;
    }
  }

  function Listed(x: Option<VectorSample>): Vector {
    if x.Some? then [x.value] else []
  }

  /** The operator with its operands exchanged. */
  function Flipped(op: Kernel): Kernel {
    match op
    case Arithmetic(f) => Arithmetic((a, b) => f(b, a))
    case Comparison(test) => Comparison((a, b) => test(b, a))
  }

  /** group_left is group_right of the exchanged operands. */
  lemma {:induction false} GroupLeftIsGroupRight(op: Kernel, returnBool: bool, m: MatchSpec, lhs: Vector, rhs: Vector)
    ensures VectorVector(op, returnBool, Some(m.(card := ManyToOne)), lhs, rhs) ==
            VectorVector(Flipped(op), returnBool, Some(m.(card := OneToMany)), rhs, lhs)
  {
    hide Signature;
    hide Extended;
    var a, b := Some(m.(card := ManyToOne)), Some(m.(card := OneToMany));
    if lhs != [] {
      var front, s := lhs[..|lhs| - 1], lhs[|lhs| - 1];
      GroupLeftIsGroupRight(op, returnBool, m, front, rhs);
      SameSignature(s.metric, m);
      SameMatches(rhs, m, Signature(s.metric, a, false));
    }
  }

  lemma SameSignature(l: LabelList, m: MatchSpec)
    ensures Signature(l, Some(m.(card := ManyToOne)), false) == Signature(l, Some(m.(card := OneToMany)), false)
  {
    hide Text;
  }

  lemma {:induction false} SameMatches(one: Vector, m: MatchSpec, key: Bytes)
    ensures LastMatch(one, Some(m.(card := ManyToOne)), key) == LastMatch(one, Some(m.(card := OneToMany)), key)
  {
    hide Signature;
    if one != [] {
      SameSignature(one[|one| - 1].metric, m);
      SameMatches(one[..|one| - 1], m, key);
    }
  }

  // ---- Set operators ----

  datatype SetOp = And | Or | Unless

  predicate HasSignature(v: Vector, m: Option<MatchSpec>, key: Bytes) {
    exists i :: 0 <= i < |v| && Signature(v[i].metric, m, true) == key
  }

  /** The samples of v whose signature is, or is not, one of w's. */
  function Kept(v: Vector, w: Vector, m: Option<MatchSpec>, present: bool): Vector {
    if v == [] then []
    else
      var front, s := Kept(v[..|v| - 1], w, m, present), v[|v| - 1];
      if HasSignature(w, m, Signature(s.metric, m, true)) == present then front + [s] else front
  }

  function SetResult(op: SetOp, lhs: Vector, rhs: Vector, m: Option<MatchSpec>): Vector {
    match op
    case And => Kept(lhs, rhs, m, true)
    case Unless => Kept(lhs, rhs, m, false)
    case Or => lhs + Kept(rhs, lhs, m, false)
  }

  method SignaturesOf(v: Vector, m: Option<MatchSpec>) returns (keys: set<Bytes>)
    ensures forall key :: key in keys <==> HasSignature(v, m, key)
  {
    hide Signature;
    keys := {};
    for i := 0 to |v|
      invariant forall key :: key in keys <==> HasSignature(v[..i], m, key)
    {
      HasSignatureSnoc(v[..i], v[i], m);
      assert v[..i + 1] == v[..i] + [v[i]];
      keys := keys + {Signature(v[i].metric, m, true)};
    }
    assert v[..|v|] == v;
  }

  lemma HasSignatureConcat(v: Vector, w: Vector, m: Option<MatchSpec>, key: Bytes)
    ensures HasSignature(v + w, m, key) <==> HasSignature(v, m, key) || HasSignature(w, m, key)
  {
    hide Signature;
    var all := v + w;
    if i :| 0 <= i < |v| && Signature(v[i].metric, m, true) == key {
      assert Signature(all[i].metric, m, true) == key;
    }
    if i :| 0 <= i < |w| && Signature(w[i].metric, m, true) == key {
      assert all[|v| + i] == w[i];
      assert Signature(all[|v| + i].metric, m, true) == key;
    }
    if i :| 0 <= i < |all| && Signature(all[i].metric, m, true) == key {
      if i < |v| {
        assert Signature(v[i].metric, m, true) == key;
      } else {
        assert Signature(w[i - |v|].metric, m, true) == key;
      }
    }
  }

  lemma HasSignatureSnoc(v: Vector, s: VectorSample, m: Option<MatchSpec>)
    ensures forall key :: HasSignature(v + [s], m, key) <==> HasSignature(v, m, key) || Signature(s.metric, m, true) == key
  {
    hide Signature;
    forall key ensures HasSignature(v + [s], m, key) <==> HasSignature(v, m, key) || Signature(s.metric, m, true) == key {
      HasSignatureConcat(v, [s], m, key);
      if Signature(s.metric, m, true) == key {
        assert Signature([s][0].metric, m, true) == key;
      }
    }
  }

  method VectorSetOp(op: SetOp, lhs: Vector, rhs: Vector, m: Option<MatchSpec>) returns (out: Vector)
    ensures out == SetResult(op, lhs, rhs, m)
  {
    hide Signature;
    hide HasSignature;
    var rSigs := SignaturesOf(rhs, m);
    out := [];
    match op {
      case And =>
        for i := 0 to |lhs|
          invariant out == Kept(lhs[..i], rhs, m, true)
        {
          assert lhs[..i + 1][..i] == lhs[..i];
          if Signature(lhs[i].metric, m, true) in rSigs {
            out := out + [lhs[i]];
          }
        }
        assert lhs[..|lhs|] == lhs;
      case Unless =>
        for i := 0 to |lhs|
          invariant out == Kept(lhs[..i], rhs, m, false)
        {
          assert lhs[..i + 1][..i] == lhs[..i];
          if Signature(lhs[i].metric, m, true) !in rSigs {
            out := out + [lhs[i]];
          }
        }
        assert lhs[..|lhs|] == lhs;
      case Or =>
        var lSigs := SignaturesOf(lhs, m);
        out := lhs;
        for i := 0 to |rhs|
          invariant out == lhs + Kept(rhs[..i], lhs, m, false)
        {
          assert rhs[..i + 1][..i] == rhs[..i];
          if Signature(rhs[i].metric, m, true) !in lSigs {
            out := out + [rhs[i]];
          }
        }
        assert rhs[..|rhs|] == rhs;
    }
  }

  /** z is an interleaving of x and y: each keeps its order, and together they are all of z. */
  ghost predicate Interleaves(x: Vector, y: Vector, z: Vector)
    decreases |z|
  {
    if z == [] then x == [] && y == []
    else
      var n, last := |z| - 1, z[|z| - 1];
      || (x != [] && x[|x| - 1] == last && Interleaves(x[..|x| - 1], y, z[..n]))
      || (y != [] && y[|y| - 1] == last && Interleaves(x, y[..|y| - 1], z[..n]))
  }

  lemma InterleavesMore(x: Vector, y: Vector, z: Vector, s: VectorSample)
    requires Interleaves(x, y, z)
    ensures Interleaves(x + [s], y, z + [s]) && Interleaves(x, y + [s], z + [s])
  {
    assert (x + [s])[..|x|] == x && (y + [s])[..|y|] == y && (z + [s])[..|z|] == z;
  }

  /** `and` and `unless` split the left side between them, each keeping its order. */
  lemma {:induction false} AndUnlessPartition(lhs: Vector, rhs: Vector, m: Option<MatchSpec>)
    ensures Interleaves(SetResult(And, lhs, rhs, m), SetResult(Unless, lhs, rhs, m), lhs)
    ensures forall s :: s in SetResult(And, lhs, rhs, m) ==> s !in SetResult(Unless, lhs, rhs, m)
  {
    hide Signature;
    if lhs != [] {
      AndUnlessPartition(lhs[..|lhs| - 1], rhs, m);
    }
    forall s | s in Kept(lhs, rhs, m, true) ensures s !in Kept(lhs, rhs, m, false) {
      KeptMember(lhs, rhs, m, true, s);
      KeptMember(lhs, rhs, m, false, s);
    }
  }

  lemma {:induction false} KeptMember(v: Vector, w: Vector, m: Option<MatchSpec>, present: bool, s: VectorSample)
    ensures s in Kept(v, w, m, present) <==> s in v && HasSignature(w, m, Signature(s.metric, m, true)) == present
  {
    hide Signature;
    hide HasSignature;
    if v != [] {
      KeptMember(v[..|v| - 1], w, m, present, s);
      assert v == v[..|v| - 1] + [v[|v| - 1]];
    }
  }

  lemma {:induction false} KeptConcat(u: Vector, v: Vector, w: Vector, m: Option<MatchSpec>, present: bool)
    ensures Kept(u + v, w, m, present) == Kept(u, w, m, present) + Kept(v, w, m, present)
  {
    hide Signature;
    hide HasSignature;
    if v == [] {
      assert u + v == u;
    } else {
      KeptConcat(u, v[..|v| - 1], w, m, present);
      assert (u + v)[..|u + v| - 1] == u + v[..|v| - 1];
    }
  }

  /** The signatures of a or b are the signatures of a together with those of b. */
  lemma OrSignatures(a: Vector, b: Vector, m: Option<MatchSpec>, key: Bytes)
    ensures HasSignature(SetResult(Or, a, b, m), m, key) <==> HasSignature(a, m, key) || HasSignature(b, m, key)
  {
    hide Signature;
    var rest := Kept(b, a, m, false);
    HasSignatureConcat(a, rest, m, key);
    if HasSignature(rest, m, key) {
      var i :| 0 <= i < |rest| && Signature(rest[i].metric, m, true) == key;
      KeptMember(b, a, m, false, rest[i]);
      var j :| 0 <= j < |b| && b[j] == rest[i];
      assert Signature(b[j].metric, m, true) == key;
    }
    if HasSignature(b, m, key) && !HasSignature(a, m, key) {
      var j :| 0 <= j < |b| && Signature(b[j].metric, m, true) == key;
      KeptMember(b, a, m, false, b[j]);
      var i :| 0 <= i < |rest| && rest[i] == b[j];
      assert Signature(rest[i].metric, m, true) == key;
    }
  }

  /** a unless (b or c) is (a unless b) unless c. */
  lemma {:induction false} UnlessOr(a: Vector, b: Vector, c: Vector, m: Option<MatchSpec>)
    ensures SetResult(Unless, a, SetResult(Or, b, c, m), m) ==
            SetResult(Unless, SetResult(Unless, a, b, m), c, m)
  {
    hide Signature;
    hide HasSignature;
    if a != [] {
      var front, s := a[..|a| - 1], a[|a| - 1];
      UnlessOr(front, b, c, m);
      OrSignatures(b, c, m, Signature(s.metric, m, true));
      var k := Kept(front, b, m, false);
      assert (k + [s])[..|k|] == k;
    }
  }

  /** `or` is associative. */
  lemma OrAssociative(a: Vector, b: Vector, c: Vector, m: Option<MatchSpec>)
    ensures SetResult(Or, SetResult(Or, a, b, m), c, m) == SetResult(Or, a, SetResult(Or, b, c, m), m)
  {
    hide Kept;
    hide HasSignature;
    forall key ensures HasSignature(SetResult(Or, a, b, m), m, key) <==> HasSignature(SetResult(Or, b, a, m), m, key) {
      OrSignatures(a, b, m, key);
      OrSignatures(b, a, m, key);
    }
    UnlessOr(c, b, a, m);
    KeptConcat(b, Kept(c, b, m, false), a, m, false);
    KeptAgree(c, SetResult(Or, a, b, m), SetResult(Or, b, a, m), m);
  }

  /** Only the signatures of the right side matter. */
  lemma {:induction false} KeptAgree(v: Vector, a: Vector, b: Vector, m: Option<MatchSpec>)
    requires forall key :: HasSignature(a, m, key) <==> HasSignature(b, m, key)
    ensures Kept(v, a, m, false) == Kept(v, b, m, false)
  {
    hide Signature;
    hide HasSignature;
    if v != [] {
      KeptAgree(v[..|v| - 1], a, b, m);
    }
  }

  /** (l and r) or (l unless r) has the samples of l. */
  lemma AndOrUnless(lhs: Vector, rhs: Vector, m: Option<MatchSpec>, s: VectorSample)
    ensures s in SetResult(Or, SetResult(And, lhs, rhs, m), SetResult(Unless, lhs, rhs, m), m) <==> s in lhs
  {
    hide Signature;
    var a, u := SetResult(And, lhs, rhs, m), SetResult(Unless, lhs, rhs, m);
    KeptMember(lhs, rhs, m, true, s);
    KeptMember(lhs, rhs, m, false, s);
    KeptMember(u, a, m, false, s);
    if s in u && HasSignature(a, m, Signature(s.metric, m, true)) {
      var i :| 0 <= i < |a| && Signature(a[i].metric, m, true) == Signature(s.metric, m, true);
      KeptMember(lhs, rhs, m, true, a[i]);
    }
  }
}
