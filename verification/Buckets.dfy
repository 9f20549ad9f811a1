/** Collecting values under label sets that are told apart by their text. */
module Buckets {
  import opened Base
  import opened Labels

  /** A group: the labels it stands for and the values collected for it, in order. */
  datatype Bucket<T> = Bucket(labels: LabelList, values: seq<T>)

  /** Adds a value to the bucket with the same label text, or opens a new bucket at the end. */
  function Collect<T>(bs: seq<Bucket<T>>, labels: LabelList, v: T): (r: seq<Bucket<T>>)
    ensures |bs| <= |r| <= |bs| + 1
  {
    if bs == [] then [Bucket(labels, [v])]
    else if Text(bs[0].labels) == Text(labels) then [bs[0].(values := bs[0].values + [v])] + bs[1..]
    else [bs[0]] + Collect(bs[1..], labels, v)
  }

  ghost predicate DistinctTexts<T>(bs: seq<Bucket<T>>) {
    forall i, j :: 0 <= i < j < |bs| ==> Text(bs[i].labels) != Text(bs[j].labels)
  }

  ghost predicate HasText<T>(bs: seq<Bucket<T>>, text: Bytes) {
    exists i :: 0 <= i < |bs| && Text(bs[i].labels) == text
  }

  lemma {:induction false} CollectAt<T>(bs: seq<Bucket<T>>, labels: LabelList, v: T, j: nat)
    requires DistinctTexts(bs) && j < |bs| && Text(bs[j].labels) == Text(labels)
    ensures Collect(bs, labels, v) == bs[j := bs[j].(values := bs[j].values + [v])]
  {
    hide Text;
    if j > 0 {
      assert Text(bs[0].labels) != Text(bs[j].labels);
      forall i, k | 0 <= i < k < |bs[1..]| ensures Text(bs[1..][i].labels) != Text(bs[1..][k].labels) {
        assert bs[1..][i] == bs[i + 1] && bs[1..][k] == bs[k + 1];
      }
      CollectAt(bs[1..], labels, v, j - 1);
    }
  }

  lemma {:induction false} CollectNew<T>(bs: seq<Bucket<T>>, labels: LabelList, v: T)
    requires !HasText(bs, Text(labels))
    ensures Collect(bs, labels, v) == bs + [Bucket(labels, [v])]
  {
    hide Text;
    if bs != [] {
      assert Text(bs[0].labels) != Text(labels);
      forall i | 0 <= i < |bs[1..]| ensures Text(bs[1..][i].labels) != Text(labels) {
        assert bs[1..][i] == bs[i + 1];
      }
      CollectNew(bs[1..], labels, v);
    }
  }

  lemma CollectDistinct<T>(bs: seq<Bucket<T>>, labels: LabelList, v: T)
    requires DistinctTexts(bs)
    ensures DistinctTexts(Collect(bs, labels, v))
    ensures forall text :: HasText(Collect(bs, labels, v), text) <==> HasText(bs, text) || text == Text(labels)
  {
    hide Text;
    var r := Collect(bs, labels, v);
    if HasText(bs, Text(labels)) {
      var j :| 0 <= j < |bs| && Text(bs[j].labels) == Text(labels);
      CollectAt(bs, labels, v, j);
      assert forall i :: 0 <= i < |bs| ==> r[i].labels == bs[i].labels;
      forall text ensures HasText(r, text) <==> HasText(bs, text) || text == Text(labels) {
        if i :| 0 <= i < |bs| && Text(bs[i].labels) == text {
          assert Text(r[i].labels) == text;
        }
        if HasText(r, text) {
          var i :| 0 <= i < |r| && Text(r[i].labels) == text;
          assert Text(bs[i].labels) == text;
        }
        if text == Text(labels) {
          assert Text(r[j].labels) == text;
        }
      }
    } else {
      CollectNew(bs, labels, v);
      assert forall i :: 0 <= i < |bs| ==> r[i] == bs[i];
      forall i, j | 0 <= i < j < |r| ensures Text(r[i].labels) != Text(r[j].labels) {
        if j == |bs| {
          assert Text(bs[i].labels) != Text(labels);
        }
      }
      forall text ensures HasText(r, text) <==> HasText(bs, text) || text == Text(labels) {
        if i :| 0 <= i < |bs| && Text(bs[i].labels) == text {
          assert Text(r[i].labels) == text;
        }
        if text == Text(labels) {
          assert Text(r[|bs|].labels) == text;
        }
      }
    }
  }

  lemma CollectValues<T>(bs: seq<Bucket<T>>, labels: LabelList, v: T)
    requires DistinctTexts(bs)
    ensures var r := Collect(bs, labels, v);
            && (forall i :: 0 <= i < |bs| ==>
                  && r[i].labels == bs[i].labels
                  && r[i].values == if Text(bs[i].labels) == Text(labels) then bs[i].values + [v] else bs[i].values)
            && (|r| > |bs| ==> r[|bs|] == Bucket(labels, [v]) && !HasText(bs, Text(labels)))
  {
    hide Text;
    if HasText(bs, Text(labels)) {
      var j :| 0 <= j < |bs| && Text(bs[j].labels) == Text(labels);
      CollectAt(bs, labels, v, j);
    } else {
      CollectNew(bs, labels, v);
      assert forall i :: 0 <= i < |bs| ==> Text(bs[i].labels) != Text(labels);
    }
  }

  /** The buckets in the order of their keys, looked up in the map the loop fills. */
  ghost predicate Represents<T>(order: seq<Bytes>, groups: map<Bytes, Bucket<T>>, bs: seq<Bucket<T>>) {
    && |order| == |bs|
    && (forall i :: 0 <= i < |bs| ==> order[i] == Text(bs[i].labels) && order[i] in groups && groups[order[i]] == bs[i])
    && (forall k :: k in groups ==> k in order)
    && DistinctTexts(bs)
  }

  lemma RepresentsStep<T>(order: seq<Bytes>, groups: map<Bytes, Bucket<T>>, bs: seq<Bucket<T>>, labels: LabelList, x: T)
    requires Represents(order, groups, bs)
    ensures var key := Text(labels);
            if key in groups
            then Represents(order, groups[key := groups[key].(values := groups[key].values + [x])], Collect(bs, labels, x))
            else Represents(order + [key], groups[key := Bucket(labels, [x])], Collect(bs, labels, x))
  {
    hide Text;
    var key := Text(labels);
    CollectDistinct(bs, labels, x);
    if key in groups {
      var j :| 0 <= j < |order| && order[j] == key;
      CollectAt(bs, labels, x, j);
    } else {
      assert !HasText(bs, key);
      CollectNew(bs, labels, x);
    }
  }
}
