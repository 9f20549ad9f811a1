/** Label sets: lists of name/value pairs sorted by name, without repeated names. */
module Labels {
  import opened Base
  import Sorting

  datatype Label = Label(name: Bytes, value: Bytes)

  type LabelList = seq<Label>

  /** The bytes of "__name__". */
  const METRIC_NAME: Bytes := [95, 95, 110, 97, 109, 101, 95, 95]

  const QUOTE: byte := 34
  const COMMA: byte := 44
  const EQUALS: byte := 61
  const BACKSLASH: byte := 92
  const LOWER_N: byte := 110
  const OPEN_BRACE: byte := 123
  const CLOSE_BRACE: byte := 125
  const NEWLINE: byte := 10

  /** The invariant every LabelList is meant to satisfy. */
  ghost predicate Canonical(ls: LabelList) {
    forall i, j :: 0 <= i < j < |ls| ==> LexLess(ls[i].name, ls[j].name)
  }

  /** The map a list of pairs denotes when a later pair overrides an earlier one. */
  function LastWins(ls: LabelList): map<Bytes, Bytes> {
    if ls == [] then map[] else LastWins(ls[..|ls| - 1])[ls[|ls| - 1].name := ls[|ls| - 1].value]
  }

  lemma {:induction false} NameIsKey(ls: LabelList, i: nat)
    requires i < |ls|
    ensures ls[i].name in LastWins(ls)
  {
    if i < |ls| - 1 {
      NameIsKey(ls[..|ls| - 1], i);
    }
  }

  lemma {:induction false} IndexOfKey(ls: LabelList, n: Bytes) returns (i: nat)
    requires n in LastWins(ls)
    ensures i < |ls| && ls[i].name == n
  {
    if ls[|ls| - 1].name == n {
      i := |ls| - 1;
    } else {
      i := IndexOfKey(ls[..|ls| - 1], n);
    }
  }

  const NameLess: (Label, Label) -> bool := (a: Label, b: Label) => LexLess(a.name, b.name)

  /** Collapses neighbours with equal names, keeping the later value. */
  function Compact(ls: LabelList): (r: LabelList)
    ensures |r| <= |ls|
  {
    if ls == [] then []
    else
      var d, l := Compact(ls[..|ls| - 1]), ls[|ls| - 1];
      if d != [] && d[|d| - 1].name == l.name
      then d[|d| - 1 := d[|d| - 1].(value := l.value)]
      else d + [l]
  }

  function Normalized(ls: LabelList): LabelList {
    Compact(Sorting.StableSort(NameLess, ls))
  }

  // ---- Normalisation is the canonical form of the last-wins map ----

  lemma NameLessIsOrder()
    ensures Sorting.StrictWeakOrder(NameLess)
  {
    hide LexLess;
    forall x, y, z
      ensures NameLess(x, y) ==> !NameLess(y, x)
      ensures !NameLess(y, x) && !NameLess(z, y) ==> !NameLess(z, x)
    {
      LexOrder(x.name, y.name, z.name);
    }
  }

  /** Inserting into a sorted list has the effect of appending, read last-wins. */
  lemma {:induction false} InsertLastWins(s: LabelList, x: Label)
    ensures LastWins(Sorting.Insert(NameLess, s, x)) == LastWins(s)[x.name := x.value]
  {
    if s == [] || !NameLess(x, s[|s| - 1]) {
      assert (s + [x])[..|s|] == s;
    } else {
      var front, last := s[..|s| - 1], s[|s| - 1];
      InsertLastWins(front, x);
      var r := Sorting.Insert(NameLess, front, x);
      assert (r + [last])[..|r|] == r;
      LexAsymmetric(x.name, last.name);
    }
  }

  lemma {:induction false} SortLastWins(s: LabelList)
    ensures LastWins(Sorting.StableSort(NameLess, s)) == LastWins(s)
  {
    if s != [] {
      SortLastWins(s[..|s| - 1]);
      InsertLastWins(Sorting.StableSort(NameLess, s[..|s| - 1]), s[|s| - 1]);
    }
  }

  lemma {:induction false} CompactLastWins(s: LabelList)
    ensures LastWins(Compact(s)) == LastWins(s)
  {
    if s != [] {
      var d, l := Compact(s[..|s| - 1]), s[|s| - 1];
      CompactLastWins(s[..|s| - 1]);
      if d != [] && d[|d| - 1].name == l.name {
        assert d[|d| - 1 := d[|d| - 1].(value := l.value)][..|d| - 1] == d[..|d| - 1];
      } else {
        assert (d + [l])[..|d|] == d;
      }
    }
  }

  lemma {:induction false} CompactCanonical(s: LabelList)
    requires Sorting.SortedBy(NameLess, s)
    ensures Canonical(Compact(s))
    ensures s != [] ==> Compact(s) != [] && Compact(s)[|Compact(s)| - 1].name == s[|s| - 1].name
  {
    hide LexLess;
    if s != [] {
      var front, l := s[..|s| - 1], s[|s| - 1];
      CompactCanonical(front);
      var d := Compact(front);
      if d != [] && d[|d| - 1].name != l.name {
        var p := front[|front| - 1];
        assert !NameLess(l, p);
        LexTotal(p.name, l.name);
        forall i | 0 <= i < |d| ensures LexLess(d[i].name, l.name) {
          if i < |d| - 1 {
            LexTrans(d[i].name, p.name, l.name);
          }
        }
      }
    }
  }

  /** The last name of a canonical list is above every name of another list with no larger name. */
  lemma LastName(a: LabelList, b: LabelList)
    requires Canonical(a) && a != [] && b != []
    requires LastWins(a) == LastWins(b)
    ensures a[|a| - 1].name == b[|b| - 1].name || LexLess(b[|b| - 1].name, a[|a| - 1].name)
  {
    NameIsKey(b, |b| - 1);
    var i := IndexOfKey(a, b[|b| - 1].name);
  }

  lemma LastNotInFront(a: LabelList)
    requires Canonical(a) && a != []
    ensures LastWins(a[..|a| - 1]) == LastWins(a) - {a[|a| - 1].name}
  {
    hide LexLess;
    var front, last := a[..|a| - 1], a[|a| - 1];
    if last.name in LastWins(front) {
      var i := IndexOfKey(front, last.name);
      LexIrreflexive(last.name);
    }
    hide Canonical;
    assert LastWins(a) == LastWins(front)[last.name := last.value];
    hide LastWins;
    AddedRemoved(LastWins(front), last.name, last.value);
  }

  lemma AddedRemoved(m: map<Bytes, Bytes>, k: Bytes, v: Bytes)
    requires k !in m
    ensures m[k := v] - {k} == m
  {
  }

  /** Two canonical lists that denote the same map are the same list. */
  lemma {:induction false} CanonicalUnique(a: LabelList, b: LabelList)
    requires Canonical(a) && Canonical(b)
    requires LastWins(a) == LastWins(b)
    ensures a == b
  {
    if a == [] || b == [] {
      if a != [] {
        NameIsKey(a, 0);
      }
      if b != [] {
        NameIsKey(b, 0);
      }
    } else {
      var x, y := a[|a| - 1], b[|b| - 1];
      LastName(a, b);
      LastName(b, a);
      if x.name != y.name {
        LexAsymmetric(x.name, y.name);
      }
      LastNotInFront(a);
      LastNotInFront(b);
      CanonicalUnique(a[..|a| - 1], b[..|b| - 1]);
      assert x == Label(x.name, LastWins(a)[x.name]) && y == Label(y.name, LastWins(b)[y.name]);
      assert a == a[..|a| - 1] + [x] && b == b[..|b| - 1] + [y];
    }
  }

  /** Normalising gives the one canonical list that denotes the last-wins map of the input. */
  lemma NormalizedIsCanonical(ls: LabelList)
    ensures Canonical(Normalized(ls))
    ensures LastWins(Normalized(ls)) == LastWins(ls)
  {
    NameLessIsOrder();
    Sorting.StableSortSorts(NameLess, ls);
    SortLastWins(ls);
    CompactCanonical(Sorting.StableSort(NameLess, ls));
    CompactLastWins(Sorting.StableSort(NameLess, ls));
  }

  /** The result depends on the denoted map only: neither order nor overridden pairs matter. */
  lemma NormalizedOfSameMap(a: LabelList, b: LabelList)
    requires LastWins(a) == LastWins(b)
    ensures Normalized(a) == Normalized(b)
  {
    NormalizedIsCanonical(a);
    NormalizedIsCanonical(b);
    CanonicalUnique(Normalized(a), Normalized(b));
  }

  lemma NormalizedFixed(ls: LabelList)
    requires Canonical(ls)
    ensures Normalized(ls) == ls
  {
    NormalizedIsCanonical(ls);
    CanonicalUnique(Normalized(ls), ls);
  }

  /** sort.SliceStable on an array. */
  method SortInPlace(a: array<Label>)
    modifies a
    ensures a[..] == Sorting.StableSort(NameLess, old(a[..]))
  {
    var sorted := Sorting.StableSort(NameLess, a[..]);
    forall i | 0 <= i < a.Length {
      a[i] := sorted[i];
    }
  }

  /** Sorts by name and compacts repeated names to their last value, in place. */
  method Normalize(a: array<Label>) returns (n: nat)
    modifies a
    ensures n <= a.Length
    ensures a[..n] == Normalized(old(a[..]))
  {
    SortInPlace(a);
    n := CompactInPlace(a);
  }

  method CompactInPlace(a: array<Label>) returns (n: nat)
    modifies a
    ensures n <= a.Length
    ensures a[..n] == Compact(old(a[..]))
  {
    hide Compact;
    ghost var s := a[..];
    n := 0;
    for i := 0 to a.Length
      invariant n <= i && (i > 0 ==> n > 0)
      invariant a[..n] == Compact(s[..i])
      invariant forall k :: i <= k < a.Length ==> a[k] == s[k]
    {
      CompactStep(s, i);
      ghost var d := a[..n];
      var l := a[i];
      if i > 0 && l.name == a[n - 1].name {
        a[n - 1] := Label(a[n - 1].name, l.value);
        assert a[..n] == d[n - 1 := d[n - 1].(value := l.value)];
      } else {
        a[n] := l;
        n := n + 1;
        assert a[..n] == d + [l];
      }
    }
    assert s[..a.Length] == s;
  }

  lemma CompactStep(s: LabelList, i: nat)
    requires i < |s|
    ensures var d := Compact(s[..i]);
            Compact(s[..i + 1]) ==
            if d != [] && d[|d| - 1].name == s[i].name then d[|d| - 1 := d[|d| - 1].(value := s[i].value)]
            else d + [s[i]]
  {
    assert s[..i + 1][..i] == s[..i];
  }

  /** Any listing of a map, normalised, is the one canonical list that denotes the map. */
  method FromMap(m: map<Bytes, Bytes>) returns (ls: LabelList)
    ensures Canonical(ls) && LastWins(ls) == m
  {
    hide *;
    var pairs: LabelList := [];
    var todo := m.Keys;
    NothingListed(m);
    while todo != {}
      invariant todo <= m.Keys
      invariant LastWins(pairs) == m - todo
    {
      var k :| k in todo;
      ListedMore(m, todo, k);
      LastWinsSnoc(pairs, Label(k, m[k]));
      pairs := pairs + [Label(k, m[k])];
      todo := todo - {k};
    }
    assert m - {} == m;
    NormalizedIsCanonical(pairs);
    return Normalized(pairs);
  }

  lemma NothingListed(m: map<Bytes, Bytes>)
    ensures LastWins([]) == m - m.Keys
  {
  }

  lemma ListedMore(m: map<Bytes, Bytes>, todo: set<Bytes>, k: Bytes)
    requires k in todo && k in m
    ensures m - (todo - {k}) == (m - todo)[k := m[k]]
  {
  }

  // ---- Reading ----

  /** The value of the first label called `name`, or "". */
  function Get(ls: LabelList, name: Bytes): Bytes {
    if ls == [] then [] else if ls[0].name == name then ls[0].value else Get(ls[1..], name)
  }

  method GetValue(ls: LabelList, name: Bytes) returns (v: Bytes)
    ensures v == Get(ls, name)
  {
    for i := 0 to |ls|
      invariant Get(ls, name) == Get(ls[i..], name)
    {
      if ls[i].name == name {
        return ls[i].value;
      }
    }
    return [];
  }

  lemma {:induction false} HeadOfLastWins(x: Label, ls: LabelList)
    ensures LastWins([x] + ls) == map[x.name := x.value] + LastWins(ls)
  {
    var s := [x] + ls;
    if ls != [] {
      HeadOfLastWins(x, ls[..|ls| - 1]);
      assert s[..|s| - 1] == [x] + ls[..|ls| - 1];
    }
  }

  /** Get is a lookup in the denoted map, with "" for a missing name. */
  lemma {:induction false} GetIsLookup(ls: LabelList, name: Bytes)
    requires Canonical(ls)
    ensures Get(ls, name) == if name in LastWins(ls) then LastWins(ls)[name] else []
  {
    if ls != [] {
      GetIsLookup(ls[1..], name);
      HeadOfLastWins(ls[0], ls[1..]);
      assert ls == [ls[0]] + ls[1..];
      if ls[0].name == name && name in LastWins(ls[1..]) {
        var i := IndexOfKey(ls[1..], name);
        LexIrreflexive(name);
      }
    }
  }

  /** Whether the pair (name, value) is in the list. */
  predicate HasPair(ls: LabelList, name: Bytes, value: Bytes) {
    Label(name, value) in ls
  }

  lemma {:induction false} GetFindsPair(ls: LabelList, name: Bytes)
    ensures Get(ls, name) != [] ==> HasPair(ls, name, Get(ls, name))
  {
    if ls != [] && ls[0].name != name {
      GetFindsPair(ls[1..], name);
    }
  }

  lemma {:induction false} PairDeterminesGet(ls: LabelList, name: Bytes, value: Bytes)
    requires Canonical(ls) && HasPair(ls, name, value)
    ensures Get(ls, name) == value
  {
    if ls[0] != Label(name, value) {
      assert HasPair(ls[1..], name, value);
      PairDeterminesGet(ls[1..], name, value);
      var i :| 0 <= i < |ls[1..]| && ls[1..][i] == Label(name, value);
      LexAsymmetric(ls[0].name, ls[i + 1].name);
    }
  }

  // ---- Text form ----

  function EscapeByte(c: byte): Bytes {
    if c == BACKSLASH then [BACKSLASH, BACKSLASH]
    else if c == QUOTE then [BACKSLASH, QUOTE]
    else if c == NEWLINE then [BACKSLASH, LOWER_N]
    else [c]
  }

  function Escaped(v: Bytes): Bytes {
    if v == [] then [] else EscapeByte(v[0]) + Escaped(v[1..])
  }

  function RenderPair(l: Label): Bytes {
    l.name + [EQUALS, QUOTE] + Escaped(l.value) + [QUOTE]
  }

  /** The list without the labels called `name`. */
  function Without(ls: LabelList, name: Bytes): LabelList {
    if ls == [] then []
    else if ls[0].name == name then Without(ls[1..], name)
    else [ls[0]] + Without(ls[1..], name)
  }

  function RenderPairs(ls: LabelList): Bytes {
    if ls == [] then []
    else if |ls| == 1 then RenderPair(ls[0])
    else RenderPair(ls[0]) + [COMMA] + RenderPairs(ls[1..])
  }

  /** name{k="v",...}, the metric name standing before the braces. */
  function Text(ls: LabelList): Bytes {
    Get(ls, METRIC_NAME) + [OPEN_BRACE] + RenderPairs(Without(ls, METRIC_NAME)) + [CLOSE_BRACE]
  }

  lemma {:induction false} EscapedSnoc(v: Bytes, c: byte)
    ensures Escaped(v + [c]) == Escaped(v) + EscapeByte(c)
  {
    if v == [] {
    } else {
      EscapedSnoc(v[1..], c);
      assert (v + [c])[1..] == v[1..] + [c];
    }
  }

  lemma {:induction false} PlainIsUnchanged(v: Bytes)
    requires BACKSLASH !in v && QUOTE !in v && NEWLINE !in v
    ensures Escaped(v) == v
  {
    if v != [] {
      PlainIsUnchanged(v[1..]);
    }
  }

  method EscapeValue(v: Bytes) returns (r: Bytes)
    ensures r == Escaped(v)
  {
    if !(BACKSLASH in v || QUOTE in v || NEWLINE in v) {
      PlainIsUnchanged(v);
      return v;
    }
    r := [];
    for i := 0 to |v|
      invariant r == Escaped(v[..i])
    {
      EscapedSnoc(v[..i], v[i]);
      assert v[..i + 1] == v[..i] + [v[i]];
      if v[i] == BACKSLASH {
        r := r + [BACKSLASH, BACKSLASH];
      } else if v[i] == QUOTE {
        r := r + [BACKSLASH, QUOTE];
      } else if v[i] == NEWLINE {
        r := r + [BACKSLASH, LOWER_N];
      } else {
        r := r + [v[i]];
      }
    }
    assert v[..|v|] == v;
  }

  lemma {:induction false} WithoutSnoc(ls: LabelList, l: Label, name: Bytes)
    ensures Without(ls + [l], name) == if l.name == name then Without(ls, name) else Without(ls, name) + [l]
  {
    if ls == [] {
    } else {
      WithoutSnoc(ls[1..], l, name);
      assert (ls + [l])[1..] == ls[1..] + [l];
    }
  }

  lemma {:induction false} RenderPairsSnoc(ls: LabelList, l: Label)
    ensures RenderPairs(ls + [l]) ==
            if ls == [] then RenderPair(l) else RenderPairs(ls) + [COMMA] + RenderPair(l)
  {
    if ls != [] {
      RenderPairsSnoc(ls[1..], l);
      assert (ls + [l])[1..] == ls[1..] + [l];
    }
  }

  lemma LastWinsSnoc(ls: LabelList, l: Label)
    ensures LastWins(ls + [l]) == LastWins(ls)[l.name := l.value]
  {
    assert (ls + [l])[..|ls|] == ls;
  }

  lemma UpdateThenRemove(m: map<Bytes, Bytes>, k: Bytes, v: Bytes, name: Bytes)
    ensures m[k := v] - {name} == if k == name then m - {name} else (m - {name})[k := v]
  {
  }

  lemma {:induction false} WithoutLastWins(ls: LabelList, name: Bytes)
    ensures LastWins(Without(ls, name)) == LastWins(ls) - {name}
  {
    if ls != [] {
      var front, l := ls[..|ls| - 1], ls[|ls| - 1];
      WithoutLastWins(front, name);
      hide LastWins;
      hide Without;
      WithoutSnoc(front, l, name);
      assert ls == front + [l];
      LastWinsSnoc(front, l);
      LastWinsSnoc(Without(front, name), l);
      UpdateThenRemove(LastWins(front), l.name, l.value, name);
    }
  }

  method String(ls: LabelList) returns (r: Bytes)
    ensures r == Text(ls)
  {
    var metric := GetValue(ls, METRIC_NAME);
    var pairs: Bytes := [];
    var first := true;
    for i := 0 to |ls|
      invariant first <==> Without(ls[..i], METRIC_NAME) == []
      invariant pairs == RenderPairs(Without(ls[..i], METRIC_NAME))
    {
      assert ls[..i + 1] == ls[..i] + [ls[i]];
      WithoutSnoc(ls[..i], ls[i], METRIC_NAME);
      if ls[i].name == METRIC_NAME {
        continue;
      }
      RenderPairsSnoc(Without(ls[..i], METRIC_NAME), ls[i]);
      if !first {
        pairs := pairs + [COMMA];
      }
      first := false;
      var v := EscapeValue(ls[i].value);
      pairs := pairs + (ls[i].name + [EQUALS, QUOTE] + v + [QUOTE]);
    }
    assert ls[..|ls|] == ls;
    r := metric + [OPEN_BRACE] + pairs + [CLOSE_BRACE];
  }
}
