/** Sorting distinct byte strings, as sort.Strings does with map keys. */
module ByteSort {
  import opened Base
  import Sorting

  const BytesLess: (Bytes, Bytes) -> bool := (a: Bytes, b: Bytes) => LexLess(a, b)

  lemma BytesLessIsOrder()
    ensures Sorting.StrictWeakOrder(BytesLess)
  {
    hide LexLess;
    forall x, y, z
      ensures BytesLess(x, y) ==> !BytesLess(y, x)
      ensures !BytesLess(y, x) && !BytesLess(z, y) ==> !BytesLess(z, x)
    {
      LexOrder(x, y, z);
    }
  }

  /** The keys of a set, ascending. */
  method SortedKeys(keys: set<Bytes>) returns (out: seq<Bytes>)
    ensures forall k :: k in out <==> k in keys
    ensures forall i, j :: 0 <= i < j < |out| ==> LexLess(out[i], out[j])
  {
    hide LexLess;
    out := [];
    var todo := keys;
    while todo != {}
      invariant todo <= keys
      invariant forall k :: k in out <==> k in keys - todo
      invariant forall i, j :: 0 <= i < j < |out| ==> out[i] != out[j]
    {
      var k :| k in todo;
      out := out + [k];
      todo := todo - {k};
    }
    ghost var unsorted := out;
    out := Sorting.StableSort(BytesLess, out);
    BytesLessIsOrder();
    Sorting.StableSortSorts(BytesLess, unsorted);
    Sorting.SameMembers(unsorted, out);
    StrictlySorted(unsorted, out);
  }

  lemma StrictlySorted(a: seq<Bytes>, b: seq<Bytes>)
    requires multiset(a) == multiset(b) && Sorting.SortedBy(BytesLess, b)
    requires forall i, j :: 0 <= i < j < |a| ==> a[i] != a[j]
    ensures forall i, j :: 0 <= i < j < |b| ==> LexLess(b[i], b[j])
  {
    hide LexLess;
    forall i, j | 0 <= i < j < |b| ensures LexLess(b[i], b[j]) {
      Sorting.CountOnce(a, b[i]);
      if b[i] == b[j] {
        Sorting.DuplicateCounts(b, i, j);
      }
      assert !BytesLess(b[j], b[i]);
      LexTotal(b[i], b[j]);
    }
  }
}
