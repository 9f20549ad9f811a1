/** The contract of Go's sort.SliceStable, as an insertion sort on sequences. */
module Sorting {

  /** `lt` is a strict weak order. */
  ghost predicate StrictWeakOrder<T(!new)>(lt: (T, T) -> bool) {
    && (forall x, y :: lt(x, y) ==> !lt(y, x))
    && (forall x, y, z :: !lt(y, x) && !lt(z, y) ==> !lt(z, x))
  }

  ghost predicate SortedBy<T(!new)>(lt: (T, T) -> bool, s: seq<T>) {
    forall i, j :: 0 <= i < j < |s| ==> !lt(s[j], s[i])
  }

  /** Inserts x behind every element it is not less than. */
  function Insert<T>(lt: (T, T) -> bool, s: seq<T>, x: T): (r: seq<T>)
    ensures |r| == |s| + 1
  {
    if s == [] || !lt(x, s[|s| - 1]) then s + [x]
    else Insert(lt, s[..|s| - 1], x) + [s[|s| - 1]]
  }

  function StableSort<T>(lt: (T, T) -> bool, s: seq<T>): (r: seq<T>)
    ensures |r| == |s|
  {
    if s == [] then [] else Insert(lt, StableSort(lt, s[..|s| - 1]), s[|s| - 1])
  }

  lemma {:induction false} InsertSorted<T(!new)>(lt: (T, T) -> bool, s: seq<T>, x: T)
    requires StrictWeakOrder(lt) && SortedBy(lt, s)
    ensures SortedBy(lt, Insert(lt, s, x))
    ensures multiset(Insert(lt, s, x)) == multiset(s) + multiset{x}
  {
    if s == [] {
    } else if !lt(x, s[|s| - 1]) {
    } else {
      var front, last := s[..|s| - 1], s[|s| - 1];
      assert s == front + [last];
      InsertSorted(lt, front, x);
      var r := Insert(lt, front, x);
      forall i | 0 <= i < |r|
        ensures !lt(last, r[i])
      {
        assert r[i] in multiset(r);
        if r[i] != x {
          assert r[i] in front;
        }
      }
    }
  }

  lemma {:induction false} StableSortSorts<T(!new)>(lt: (T, T) -> bool, s: seq<T>)
    requires StrictWeakOrder(lt)
    ensures SortedBy(lt, StableSort(lt, s))
    ensures multiset(StableSort(lt, s)) == multiset(s)
  {
    if s != [] {
      var front := s[..|s| - 1];
      assert s == front + [s[|s| - 1]];
      StableSortSorts(lt, front);
      InsertSorted(lt, StableSort(lt, front), s[|s| - 1]);
    }
  }

  /** A sorted list is left as it is. */
  lemma {:induction false} StableSortFixed<T(!new)>(lt: (T, T) -> bool, s: seq<T>)
    requires SortedBy(lt, s)
    ensures StableSort(lt, s) == s
  {
    if s != [] {
      var front := s[..|s| - 1];
      StableSortFixed(lt, front);
      assert s == front + [s[|s| - 1]];
    }
  }

  /** Any two different elements compare. */
  ghost predicate Separates<T(!new)>(lt: (T, T) -> bool, s: seq<T>) {
    forall x, y :: x in s && y in s && x != y ==> lt(x, y) || lt(y, x)
  }

  /** The last elements of two sorted lists of the same elements agree. */
  lemma SameLast<T(!new)>(lt: (T, T) -> bool, a: seq<T>, b: seq<T>)
    requires SortedBy(lt, a) && SortedBy(lt, b) && multiset(a) == multiset(b) && Separates(lt, a)
    requires a != [] && b != []
    ensures a[|a| - 1] == b[|b| - 1]
  {
    var x, y := a[|a| - 1], b[|b| - 1];
    SameMembers(a, b);
    assert x in a && y in b;
    var i :| 0 <= i < |b| && b[i] == x;
    var j :| 0 <= j < |a| && a[j] == y;
  }

  lemma SameSize<T>(a: seq<T>, b: seq<T>)
    requires multiset(a) == multiset(b)
    ensures |a| == |b|
  {
    assert |a| == |multiset(a)| == |multiset(b)| == |b|;
  }

  lemma MultisetFront<T>(a: seq<T>)
    requires a != []
    ensures multiset(a[..|a| - 1]) == multiset(a) - multiset{a[|a| - 1]}
  {
    assert a == a[..|a| - 1] + [a[|a| - 1]];
  }

  lemma SortedFront<T(!new)>(lt: (T, T) -> bool, a: seq<T>)
    requires a != [] && SortedBy(lt, a)
    ensures SortedBy(lt, a[..|a| - 1])
    ensures Separates(lt, a) ==> Separates(lt, a[..|a| - 1])
  {
  }

  lemma SameFronts<T>(a: seq<T>, b: seq<T>)
    requires a != [] && b != [] && multiset(a) == multiset(b) && a[|a| - 1] == b[|b| - 1]
    ensures multiset(a[..|a| - 1]) == multiset(b[..|b| - 1])
  {
    MultisetFront(a);
    MultisetFront(b);
  }

  lemma {:induction false} SeparatedUnique<T(!new)>(lt: (T, T) -> bool, a: seq<T>, b: seq<T>)
    requires SortedBy(lt, a) && SortedBy(lt, b) && multiset(a) == multiset(b) && Separates(lt, a)
    ensures a == b
    decreases |a|
  {
    hide SortedBy;
    hide Separates;
    SameSize(a, b);
    if a != [] {
      var m := |a| - 1;
      SameLast(lt, a, b);
      SameFronts(a, b);
      SortedFront(lt, a);
      SortedFront(lt, b);
      SeparatedUnique(lt, a[..m], b[..m]);
      assert a == a[..m] + [a[m]] && b == b[..m] + [b[m]];
    }
  }

  /** Sorted lists of the same elements, no two of which compare equal, are the same list. */
  lemma SortedUnique<T(!new)>(lt: (T, T) -> bool, a: seq<T>, b: seq<T>)
    requires StrictWeakOrder(lt) && SortedBy(lt, a) && SortedBy(lt, b) && multiset(a) == multiset(b)
    requires forall x, y :: x in a && y in a && x != y ==> lt(x, y) || lt(y, x)
    ensures a == b
  {
    SeparatedUnique(lt, a, b);
  }

  ghost function Mapped<A, B>(f: A -> B, s: seq<A>): (r: seq<B>)
    ensures |r| == |s| && forall i :: 0 <= i < |s| ==> r[i] == f(s[i])
  {
    seq(|s|, i requires 0 <= i < |s| => f(s[i]))
  }

  lemma MappedConcat<A, B>(f: A -> B, a: seq<A>, b: seq<A>)
    ensures Mapped(f, a + b) == Mapped(f, a) + Mapped(f, b)
  {
  }

  /** Taking one element out of a list takes its image out of the list's image. */
  lemma MappedWithout<A, B>(f: A -> B, s: seq<A>, j: nat)
    requires j < |s|
    ensures multiset(s) == multiset(s[..j] + s[j + 1..]) + multiset{s[j]}
    ensures multiset(Mapped(f, s)) == multiset(Mapped(f, s[..j] + s[j + 1..])) + multiset{f(s[j])}
  {
    assert s == s[..j] + ([s[j]] + s[j + 1..]);
    MappedConcat(f, s[..j], s[j + 1..]);
    MappedConcat(f, s[..j], [s[j]] + s[j + 1..]);
    MappedConcat(f, [s[j]], s[j + 1..]);
    assert Mapped(f, [s[j]]) == [f(s[j])];
  }

  /** Rearranging a list rearranges its image. */
  lemma {:induction false} MappedRearranged<A, B>(f: A -> B, a: seq<A>, b: seq<A>)
    requires multiset(a) == multiset(b)
    ensures multiset(Mapped(f, a)) == multiset(Mapped(f, b))
  {
    hide Mapped;
    assert |a| == |multiset(a)| == |multiset(b)| == |b|;
    if a != [] {
      var x := a[0];
      assert x in multiset(b);
      var j :| 0 <= j < |b| && b[j] == x;
      var fewerA, fewerB := a[..0] + a[1..], b[..j] + b[j + 1..];
      MappedWithout(f, a, 0);
      MappedWithout(f, b, j);
      assert multiset(fewerA) == multiset(a) - multiset{x};
      assert multiset(fewerB) == multiset(b) - multiset{x};
      MappedRearranged(f, fewerA, fewerB);
    }
  }

  /** Lists without repetitions of the same set are rearrangements of each other. */
  lemma {:induction false} SameSetRearranged<T>(a: seq<T>, b: seq<T>)
    requires forall i, j :: 0 <= i < j < |a| ==> a[i] != a[j]
    requires forall i, j :: 0 <= i < j < |b| ==> b[i] != b[j]
    requires forall x :: x in a <==> x in b
    ensures multiset(a) == multiset(b)
  {
    forall x ensures multiset(a)[x] == multiset(b)[x] {
      CountOnce(a, x);
      CountOnce(b, x);
    }
  }

  lemma {:induction false} CountOnce<T>(s: seq<T>, x: T)
    requires forall i, j :: 0 <= i < j < |s| ==> s[i] != s[j]
    ensures multiset(s)[x] == if x in s then 1 else 0
  {
    if s != [] {
      CountOnce(s[..|s| - 1], x);
      assert s == s[..|s| - 1] + [s[|s| - 1]];
    }
  }

  lemma SameMembers<T>(a: seq<T>, b: seq<T>)
    requires multiset(a) == multiset(b)
    ensures forall x :: x in a <==> x in b
  {
    assert forall x :: x in a <==> x in multiset(a);
    assert forall x :: x in b <==> x in multiset(b);
  }

  lemma {:induction false} DuplicateCounts<T>(s: seq<T>, i: nat, j: nat)
    requires i < j < |s| && s[i] == s[j]
    ensures multiset(s)[s[i]] >= 2
  {
    assert s == s[..j] + [s[j]] + s[j + 1..];
    assert s[i] in multiset(s[..j]);
  }
}
