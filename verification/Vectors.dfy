/** Instant vectors and range vectors, and the label projections that group and match their elements. */
module Vectors {
  import opened Base
  import opened Labels
  import opened LabelText

  /** Sample values are real numbers here: rounding, NaN and infinities are not modelled. */
  datatype VectorSample = VectorSample(metric: LabelList, t: Int64, v: real)

  type Vector = seq<VectorSample>

  datatype Point = Point(t: Int64, v: real)

  datatype SeriesData = SeriesData(metric: LabelList, points: seq<Point>)

  type Matrix = seq<SeriesData>

  /** What an expression evaluates to. */
  datatype Value = ScalarValue(s: real) | VectorValue(v: Vector) | MatrixValue(m: Matrix) | StringValue(text: string)

  /** Why an evaluation fails. */
  datatype Failure =
    | UnaryNeedsNumbers
    | AggregationNeedsVector
    | BadParameter
    | UnknownAggregation
    | SetOperatorNeedsVectors
    | ScalarsNeedBool
    | OperandsUnsupported
    | SubqueryTooFine
    | NeitherScalarNorVector
    | CallFailed(reason: string)

  /** The labels whose names satisfy keep, in order. */
  function Filtered(ls: LabelList, keep: Bytes -> bool): (r: LabelList)
    ensures |r| <= |ls|
  {
    if ls == [] then []
    else if keep(ls[0].name) then [ls[0]] + Filtered(ls[1..], keep)
    else Filtered(ls[1..], keep)
  }

  function DropMetricName(ls: LabelList): LabelList {
    Filtered(ls, n => n != METRIC_NAME)
  }

  function DropLabels(ls: LabelList, names: set<Bytes>): LabelList {
    Filtered(ls, n => n !in names)
  }

  function ProjectKeep(ls: LabelList, names: set<Bytes>): LabelList {
    Filtered(ls, n => n in names)
  }

  /** by(names) keeps the listed labels; without(names) keeps the others except the metric name. */
  function GroupLabels(ls: LabelList, names: set<Bytes>, without: bool): LabelList {
    Filtered(ls, n => if without then n !in names && n != METRIC_NAME else n in names)
  }

  lemma {:induction false} FilteredMember(ls: LabelList, keep: Bytes -> bool, l: Label)
    ensures l in Filtered(ls, keep) <==> l in ls && keep(l.name)
  {
    if ls != [] {
      FilteredMember(ls[1..], keep, l);
      assert ls == [ls[0]] + ls[1..];
    }
  }

  lemma {:induction false} FilteredSnoc(ls: LabelList, l: Label, keep: Bytes -> bool)
    ensures Filtered(ls + [l], keep) == if keep(l.name) then Filtered(ls, keep) + [l] else Filtered(ls, keep)
  {
    if ls == [] {
      assert (ls + [l])[1..] == [];
    } else {
      FilteredSnoc(ls[1..], l, keep);
      assert (ls + [l])[1..] == ls[1..] + [l];
    }
  }

  /** Projecting twice is projecting once with both conditions. */
  lemma {:induction false} FilteredTwice(ls: LabelList, p: Bytes -> bool, q: Bytes -> bool, both: Bytes -> bool)
    requires forall n :: both(n) <==> p(n) && q(n)
    ensures Filtered(Filtered(ls, p), q) == Filtered(ls, both)
  {
    if ls != [] {
      FilteredTwice(ls[1..], p, q, both);
      if p(ls[0].name) {
        assert ([ls[0]] + Filtered(ls[1..], p))[1..] == Filtered(ls[1..], p);
      }
    }
  }

  lemma {:induction false} FilteredCanonical(ls: LabelList, keep: Bytes -> bool)
    requires Canonical(ls)
    ensures Canonical(Filtered(ls, keep))
  {
    hide LexLess;
    if ls != [] {
      FilteredCanonical(ls[1..], keep);
      var rest := Filtered(ls[1..], keep);
      forall j | 0 <= j < |rest| ensures LexLess(ls[0].name, rest[j].name) {
        FilteredMember(ls[1..], keep, rest[j]);
        var i :| 0 <= i < |ls[1..]| && ls[1..][i] == rest[j];
        assert ls[i + 1] == rest[j];
      }
    }
  }

  lemma {:induction false} FilteredPlain(ls: LabelList, keep: Bytes -> bool)
    requires NamesPlain(ls)
    ensures NamesPlain(Filtered(ls, keep))
  {
    if ls != [] {
      assert forall i :: 0 <= i < |ls[1..]| ==> ls[1..][i] == ls[i + 1];
      FilteredPlain(ls[1..], keep);
    }
  }

  lemma {:induction false} FilteredParts(ls: LabelList, keep: Bytes -> bool, name: Bytes)
    ensures Get(Filtered(ls, keep), name) == if keep(name) then Get(ls, name) else []
    ensures Without(Filtered(ls, keep), name) == Filtered(Without(ls, name), keep)
  {
    if ls != [] {
      FilteredParts(ls[1..], keep, name);
      var r, w := Filtered(ls[1..], keep), Without(ls[1..], name);
      assert ([ls[0]] + r)[1..] == r && ([ls[0]] + w)[1..] == w;
    }
  }

  /** Label sets with one text keep one text under every projection, so grouping can go on from a group's text. */
  lemma FilteredSameText(a: LabelList, b: LabelList, keep: Bytes -> bool)
    requires NamesPlain(a) && NamesPlain(b)
    requires Text(a) == Text(b)
    ensures Text(Filtered(a, keep)) == Text(Filtered(b, keep))
  {
    hide Text;
    TextEqualIff(a, b);
    FilteredParts(a, keep, METRIC_NAME);
    FilteredParts(b, keep, METRIC_NAME);
    FilteredPlain(a, keep);
    FilteredPlain(b, keep);
    TextEqualIff(Filtered(a, keep), Filtered(b, keep));
  }
}
