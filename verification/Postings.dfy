/** The inverted index of the head: label name -> label value -> refs of the series that carry the pair. */
module Postings {
  import opened Base
  import opened Labels

  type Index = map<Bytes, map<Bytes, set<Uint64>>>

  ghost predicate Posted(p: Index, name: Bytes, value: Bytes, ref: Uint64) {
    name in p && value in p[name] && ref in p[name][value]
  }

  /** No name without values, no value without refs. */
  ghost predicate NoEmpty(p: Index) {
    forall n :: n in p ==> p[n] != map[] && forall v :: v in p[n] ==> p[n][v] != {}
  }

  /** The refs posted under a pair; nothing for an unknown name or value. */
  function Refs(p: Index, name: Bytes, value: Bytes): set<Uint64> {
    if name in p && value in p[name] then p[name][value] else {}
  }

  function Add(p: Index, l: Label, ref: Uint64): Index {
    var vals := if l.name in p then p[l.name] else map[];
    p[l.name := vals[l.value := Refs(p, l.name, l.value) + {ref}]]
  }

  function AddAll(p: Index, ls: LabelList, ref: Uint64): Index
    decreases ls
  {
    if ls == [] then p else AddAll(Add(p, ls[0], ref), ls[1..], ref)
  }

  function ValuesLeft(vals: map<Bytes, set<Uint64>>, value: Bytes, ref: Uint64): map<Bytes, set<Uint64>> {
    if value !in vals then vals
    else if vals[value] - {ref} == {} then vals - {value}
    else vals[value := vals[value] - {ref}]
  }

  /** Deletes a ref from a pair, then the value and the name if nothing is left of them. */
  function Remove(p: Index, l: Label, ref: Uint64): Index {
    if l.name !in p then p
    else
      var left := ValuesLeft(p[l.name], l.value, ref);
      if left == map[] then p - {l.name} else p[l.name := left]
  }

  function RemoveAll(p: Index, ls: LabelList, ref: Uint64): Index
    decreases ls
  {
    if ls == [] then p else RemoveAll(Remove(p, ls[0], ref), ls[1..], ref)
  }

  /** An index without empty parts is determined by what it posts. */
  lemma IndexUnique(p: Index, q: Index)
    requires NoEmpty(p) && NoEmpty(q)
    requires forall n, v, r :: Posted(p, n, v, r) <==> Posted(q, n, v, r)
    ensures p == q
  {
    SamePart(p, q);
    SamePart(q, p);
    forall n | n in p ensures p[n] == q[n] {
      forall v | v in p[n] ensures v in q[n] && p[n][v] == q[n][v] {
        forall r ensures r in p[n][v] <==> r in q[n][v] {
          assert Posted(p, n, v, r) <==> Posted(q, n, v, r);
        }
      }
      assert p[n].Keys == q[n].Keys;
    }
    assert p.Keys == q.Keys;
  }

  lemma SamePart(p: Index, q: Index)
    requires NoEmpty(p)
    requires forall n, v, r :: Posted(p, n, v, r) ==> Posted(q, n, v, r)
    ensures forall n :: n in p ==> n in q
    ensures forall n, v :: n in p && v in p[n] ==> v in q[n]
  {
    forall n | n in p ensures n in q {
      var v :| v in p[n];
      var r :| r in p[n][v];
      assert Posted(p, n, v, r);
    }
    forall n, v | n in p && v in p[n] ensures v in q[n] {
      var r :| r in p[n][v];
      assert Posted(p, n, v, r);
    }
  }

  lemma AddPosts(p: Index, l: Label, ref: Uint64)
    requires NoEmpty(p)
    ensures NoEmpty(Add(p, l, ref))
    ensures forall n, v, r :: Posted(Add(p, l, ref), n, v, r) <==>
                              Posted(p, n, v, r) || (r == ref && Label(n, v) == l)
  {
    assert l.value in Add(p, l, ref)[l.name];
  }

  lemma RemovePosts(p: Index, l: Label, ref: Uint64)
    requires NoEmpty(p)
    ensures NoEmpty(Remove(p, l, ref))
    ensures forall n, v, r :: Posted(Remove(p, l, ref), n, v, r) <==>
                              Posted(p, n, v, r) && !(r == ref && Label(n, v) == l)
  {
    if l.name in p {
      var vals, left := p[l.name], ValuesLeft(p[l.name], l.value, ref);
      forall v, r ensures (v in left && r in left[v]) <==> (v in vals && r in vals[v] && !(r == ref && v == l.value)) {
        if l.value in vals {
          assert r in vals[l.value] - {ref} <==> r in vals[l.value] && r != ref;
        }
      }
    }
  }

  /** Adding a series posts its ref under exactly its pairs. */
  lemma {:induction false} AddAllPosts(p: Index, ls: LabelList, ref: Uint64)
    requires NoEmpty(p)
    ensures NoEmpty(AddAll(p, ls, ref))
    ensures forall n, v, r :: Posted(AddAll(p, ls, ref), n, v, r) <==>
                              Posted(p, n, v, r) || (r == ref && HasPair(ls, n, v))
    decreases ls
  {
    hide Add;
    hide Posted;
    if ls != [] {
      AddPosts(p, ls[0], ref);
      AddAllPosts(Add(p, ls[0], ref), ls[1..], ref);
      assert ls == [ls[0]] + ls[1..];
    }
  }

  /** Removing a series withdraws its ref from exactly its pairs. */
  lemma {:induction false} RemoveAllPosts(p: Index, ls: LabelList, ref: Uint64)
    requires NoEmpty(p)
    ensures NoEmpty(RemoveAll(p, ls, ref))
    ensures forall n, v, r :: Posted(RemoveAll(p, ls, ref), n, v, r) <==>
                              Posted(p, n, v, r) && !(r == ref && HasPair(ls, n, v))
    decreases ls
  {
    hide Remove;
    hide Posted;
    if ls != [] {
      RemovePosts(p, ls[0], ref);
      RemoveAllPosts(Remove(p, ls[0], ref), ls[1..], ref);
      assert ls == [ls[0]] + ls[1..];
    }
  }

  /** Removal is the exact inverse of addition, for a ref that was not posted before. */
  lemma RemoveUndoesAdd(p: Index, ls: LabelList, ref: Uint64)
    requires NoEmpty(p)
    requires forall n, v :: !Posted(p, n, v, ref)
    ensures RemoveAll(AddAll(p, ls, ref), ls, ref) == p
  {
    hide Posted;
    var q := AddAll(p, ls, ref);
    AddAllPosts(p, ls, ref);
    RemoveAllPosts(q, ls, ref);
    forall n, v, r ensures Posted(RemoveAll(q, ls, ref), n, v, r) <==> Posted(p, n, v, r) {
      assert Posted(q, n, v, r) <==> Posted(p, n, v, r) || (r == ref && HasPair(ls, n, v));
    }
    IndexUnique(RemoveAll(q, ls, ref), p);
  }
}
