/** The store of alert instances and of the append-only history. */
module AlertStore {
  import opened Base
  import opened AlertState
  import Sorting

  /** An instance belongs to one rule and one label fingerprint. */
  datatype Key = Key(rule: Bytes, fp: Bytes)

  datatype Instance = Instance(
    id: nat, state: State, value: real, activeAt: int, startedAt: int, updatedAt: int,
    labels: map<Bytes, Bytes>, annotations: map<Bytes, Bytes>)

  datatype Entry = Entry(key: Key, prev: State, next: State, at: int, value: real)

  const MILLISECOND: int := 1_000_000

  /** Times are stored in whole milliseconds. */
  function Stored(t: int): (r: int)
    ensures r <= t < r + MILLISECOND && r % MILLISECOND == 0
  {
    t / MILLISECOND * MILLISECOND
  }

  lemma StoredTwice(t: int)
    ensures Stored(Stored(t)) == Stored(t)
  {
  }

  function Lookup<K, V>(m: map<K, V>, k: K): Option<V> {
    if k in m then Some(m[k]) else None
  }

  const ByStart: ((Key, Instance), (Key, Instance)) -> bool :=
    (a: (Key, Instance), b: (Key, Instance)) =>
      a.1.startedAt < b.1.startedAt || (a.1.startedAt == b.1.startedAt && a.1.id < b.1.id)

  class Store {
    var instances: map<Key, Instance>
    var history: seq<Entry>
    var issued: nat

    constructor ()
      ensures Valid() && instances == map[] && history == []
    {
      instances, history, issued := map[], [], 0;
    }

    /** Identifiers are unique, stored states are pending or firing, and times are in whole milliseconds. */
    ghost predicate Valid()
      reads this
    {
      && (forall k :: k in instances ==>
            && instances[k].id < issued
            && (instances[k].state.StatePending? || instances[k].state.StateFiring?)
            && instances[k].activeAt % MILLISECOND == 0)
      && (forall k, l :: k in instances && l in instances && instances[k].id == instances[l].id ==> k == l)
    }

    /** A fresh identifier. */
    method NewId() returns (id: nat)
      requires Valid()
      modifies this`issued
      ensures Valid() && id == old(issued) && issued == old(issued) + 1
    {
      id := issued;
      issued := issued + 1;
    }

    /** Inserts, or on conflict updates everything but the identifier and the start time. */
    method UpsertInstance(k: Key, x: Instance)
      requires Valid() && (x.state.StatePending? || x.state.StateFiring?)
      requires x.id < issued && (k !in instances ==> forall l :: l in instances ==> instances[l].id != x.id)
      modifies this`instances
      ensures Valid()
      ensures var y := x.(activeAt := Stored(x.activeAt), startedAt := Stored(x.startedAt), updatedAt := Stored(x.updatedAt));
              instances == old(instances)[k :=
                if k in old(instances) then y.(id := old(instances)[k].id, startedAt := old(instances)[k].startedAt) else y]
    {
      hide Stored;
      var y := x.(activeAt := Stored(x.activeAt), startedAt := Stored(x.startedAt), updatedAt := Stored(x.updatedAt));
      if k in instances {
        y := y.(id := instances[k].id, startedAt := instances[k].startedAt);
      }
      instances := instances[k := y];
    }

    /** Deletes by identifier. */
    method DeleteInstance(id: nat)
      requires Valid()
      modifies this`instances
      ensures Valid()
      ensures instances == map k | k in old(instances) && old(instances)[k].id != id :: old(instances)[k]
    {
      instances := map k | k in instances && instances[k].id != id :: instances[k];
    }

    method AppendHistory(e: Entry)
      modifies this`history
      ensures history == old(history) + [e]
    {
      history := history + [e];
    }

    /** The instances of a rule by start time and identifier. */
    method ListInstancesByRule(rule: Bytes) returns (list: seq<(Key, Instance)>)
      requires Valid()
      ensures forall x :: x in list <==> x.0 in instances && x.0.rule == rule && x.1 == instances[x.0]
      ensures forall i, j :: 0 <= i < j < |list| ==> list[i].0 != list[j].0
      ensures Sorting.SortedBy(ByStart, list)
      ensures |list| == |set k | k in instances && k.rule == rule|
    {
      var found: seq<(Key, Instance)> := [];
      ghost var all := set k | k in instances && k.rule == rule;
      var todo := set k | k in instances && k.rule == rule;
      while todo != {}
        invariant todo <= all
        invariant forall x :: x in found <==> x.0 in all && x.0 !in todo && x.1 == instances[x.0]
        invariant forall i, j :: 0 <= i < j < |found| ==> found[i].0 != found[j].0
        invariant |found| + |todo| == |all|
      {
        var k :| k in todo;
        assert forall x :: x in found ==> x.0 != k;
        found := found + [(k, instances[k])];
        todo := todo - {k};
      }
      list := Sorting.StableSort(ByStart, found);
      Sorting.StableSortSorts(ByStart, found);
      Sorting.SameMembers(found, list);
      KeysStayDistinct(found, list);
    }
  }

  lemma KeysStayDistinct(a: seq<(Key, Instance)>, b: seq<(Key, Instance)>)
    requires multiset(a) == multiset(b)
    requires forall i, j :: 0 <= i < j < |a| ==> a[i].0 != a[j].0
    ensures forall i, j :: 0 <= i < j < |b| ==> b[i].0 != b[j].0
  {
    Sorting.SameMembers(a, b);
    forall i, j | 0 <= i < j < |b| ensures b[i].0 != b[j].0 {
      assert b[i] in a && b[j] in a;
      Sorting.CountOnce(a, b[i]);
      if b[i] == b[j] {
        Sorting.DuplicateCounts(b, i, j);
      }
      var k :| 0 <= k < |a| && a[k] == b[i];
      var l :| 0 <= l < |a| && a[l] == b[j];
    }
  }
}
