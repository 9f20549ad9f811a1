/** Evaluating one alert rule: advancing the state of every series and recording the transitions. */
module Evaluator {
  import opened Base
  import opened AlertState
  import opened AlertStore
  import opened ByteSort
  import Sorting

  datatype Sample = Sample(labels: map<Bytes, Bytes>, value: real)

  datatype Rule = Rule(id: Bytes, forS: int, labels: map<Bytes, Bytes>, annotations: map<Bytes, Bytes>)

  /** A state change handed to the caller. */
  datatype Transition = Transition(
    key: Key, prev: State, next: State, value: real, time: int, labels: map<Bytes, Bytes>, annotations: map<Bytes, Bytes>)

  datatype Outcome = Outcome(active: nat, pending: nat, changes: seq<Transition>, failed: bool, capped: bool)

  const DEFAULT_MAX_INSTANCES: int := 1000

  /** The "for" duration of a rule in nanoseconds, in int64 arithmetic. */
  function ForDuration(rule: Rule): Int64 { Wrap64(rule.forS * 1_000_000_000) }

  /** Samples by fingerprint; of two with the same fingerprint the later wins. */
  function Indexed(fingerprint: map<Bytes, Bytes> -> Bytes, samples: seq<Sample>): map<Bytes, Sample> {
    if samples == [] then map[]
    else
      var s := samples[|samples| - 1];
      Indexed(fingerprint, samples[..|samples| - 1])[fingerprint(s.labels) := s]
  }

  method IndexSamples(fingerprint: map<Bytes, Bytes> -> Bytes, samples: seq<Sample>) returns (out: map<Bytes, Sample>)
    ensures out == Indexed(fingerprint, samples)
  {
    out := map[];
    for i := 0 to |samples|
      invariant out == Indexed(fingerprint, samples[..i])
    {
      assert samples[..i + 1][..i] == samples[..i];
      out := out[fingerprint(samples[i].labels) := samples[i]];
    }
    assert samples[..|samples|] == samples;
  }

  // ---- What one evaluation does to one series ----

  /** How one evaluation sees a series: not in the result, in it, or in it but refused by the instance cap. */
  datatype Observation = Absent | Present(sample: Sample) | Refused

  function NextInstance(was: Option<Instance>, obs: Observation, rule: Rule, now: int, id: nat): Option<Instance> {
    match obs
    case Absent => None
    case Refused => was
    case Present(s) =>
      match was
      case Some(cur) =>
        Some(Instance(cur.id, Next(cur.state, true, cur.activeAt, now, ForDuration(rule)).0, s.value,
                      Stored(cur.activeAt), cur.startedAt, Stored(now), s.labels + rule.labels, rule.annotations))
      case None =>
        Some(Instance(id, Next(StateOk, true, now, now, ForDuration(rule)).0, s.value,
                      Stored(now), Stored(now), Stored(now), s.labels + rule.labels, rule.annotations))
  }

  /** The transition one evaluation records for a series, if any. */
  function ChangeOf(key: Key, was: Option<Instance>, obs: Observation, rule: Rule, now: int): seq<Transition> {
    match obs
    case Refused => []
    case Absent =>
      if was.None? then []
      else
        var x := was.value;
        var (next, changed) := Next(x.state, false, x.activeAt, now, ForDuration(rule));
        if changed then [Transition(key, x.state, next, 0.0, now, x.labels, x.annotations)] else []
    case Present(s) =>
      var cur, activeAt := if was.Some? then was.value.state else StateOk, if was.Some? then was.value.activeAt else now;
      var (next, changed) := Next(cur, true, activeAt, now, ForDuration(rule));
      if changed then [Transition(key, cur, next, s.value, now, s.labels + rule.labels, rule.annotations)] else []
  }

  /** The series that are evaluated: those with an instance, and new ones in order until the cap is reached. */
  function Admitted(fps: seq<Bytes>, existing: set<Bytes>, tracked: nat, max: int): (r: set<Bytes>)
    ensures forall fp :: fp in r ==> fp in fps
  {
    if fps == [] then {}
    else
      var front, fp := Admitted(fps[..|fps| - 1], existing, tracked, max), fps[|fps| - 1];
      if fp in existing || tracked + |front - existing| < max then front + {fp} else front
  }

  /** The new series among the first i. */
  function NewAmong(fps: seq<Bytes>, existing: set<Bytes>): set<Bytes> {
    set fp | fp in fps && fp !in existing
  }

  ghost predicate Distinct(fps: seq<Bytes>) {
    forall i, j :: 0 <= i < j < |fps| ==> fps[i] != fps[j]
  }

  lemma NewAmongSnoc(fps: seq<Bytes>, fp: Bytes, existing: set<Bytes>)
    ensures NewAmong(fps + [fp], existing) == if fp in existing then NewAmong(fps, existing) else NewAmong(fps, existing) + {fp}
  {
    assert forall x :: x in fps + [fp] <==> x in fps || x == fp;
  }

  /** How many of n new series fit. */
  function Room(n: nat, tracked: nat, max: int): nat {
    if tracked + n <= max then n else if max <= tracked then 0 else max - tracked
  }

  lemma AdmittedSnoc(fps: seq<Bytes>, fp: Bytes, existing: set<Bytes>, tracked: nat, max: int)
    requires fp !in fps
    ensures var b, a := Admitted(fps, existing, tracked, max) - existing, Admitted(fps + [fp], existing, tracked, max) - existing;
            fp !in b && a == if fp !in existing && tracked + |b| < max then b + {fp} else b
  {
    assert (fps + [fp])[..|fps|] == fps;
  }

  /** Of the new series as many are admitted as the cap leaves room for. */
  lemma {:induction false} AdmittedCount(fps: seq<Bytes>, existing: set<Bytes>, tracked: nat, max: int)
    requires Distinct(fps)
    ensures |Admitted(fps, existing, tracked, max) - existing| == Room(|NewAmong(fps, existing)|, tracked, max)
  {
    if fps == [] {
      assert NewAmong(fps, existing) == {};
    } else {
      var front, fp := fps[..|fps| - 1], fps[|fps| - 1];
      assert fps == front + [fp];
      AdmittedCount(front, existing, tracked, max);
      assert fp !in front;
      hide Distinct;
      NewAmongSnoc(front, fp, existing);
      AdmittedSnoc(front, fp, existing, tracked, max);
      assert fp !in NewAmong(front, existing);
      hide NewAmong;
      hide Admitted;
    }
  }

  /** Series with an instance are always admitted, however many there are. */
  lemma {:induction false} ExistingAdmitted(fps: seq<Bytes>, existing: set<Bytes>, tracked: nat, max: int, fp: Bytes)
    requires fp in fps && fp in existing
    ensures fp in Admitted(fps, existing, tracked, max)
  {
    if fps[|fps| - 1] != fp {
      ExistingAdmitted(fps[..|fps| - 1], existing, tracked, max, fp);
    }
  }

  function ObservationOf(present: map<Bytes, Sample>, admitted: set<Bytes>, fp: Bytes): Observation {
    if fp !in present then Absent else if fp in admitted then Present(present[fp]) else Refused
  }

  /** The changes of one series, in order. */
  function Own(changes: seq<Transition>, key: Key): seq<Transition> {
    if changes == [] then []
    else
      var front, c := Own(changes[..|changes| - 1], key), changes[|changes| - 1];
      if c.key == key then front + [c] else front
  }

  /** What the history keeps of a transition. */
  function EntryOf(c: Transition): Entry { Entry(c.key, c.prev, c.next, Stored(c.time), c.value) }

  function Logged(changes: seq<Transition>): (r: seq<Entry>)
    ensures |r| == |changes| && forall i :: 0 <= i < |r| ==> r[i] == EntryOf(changes[i])
  {
    seq(|changes|, i requires 0 <= i < |changes| => EntryOf(changes[i]))
  }

  function IdOf(x: Option<Instance>): nat { if x.Some? then x.value.id else 0 }

  /** One series over one evaluation. */
  ghost predicate Advances(key: Key, was: Option<Instance>, got: Option<Instance>, own: seq<Transition>, obs: Observation,
                           rule: Rule, now: int)
  {
    && got == NextInstance(was, obs, rule, now, IdOf(got))
    && own == ChangeOf(key, was, obs, rule, now)
  }

  datatype Db = Db(instances: map<Key, Instance>, history: seq<Entry>)

  /** One successful evaluation: every series of the rule advances, other rules stay, and exactly the changes are logged. */
  ghost predicate Evaluated(before: Db, after: Db, changes: seq<Transition>, rule: Rule, present: map<Bytes, Sample>,
                            admitted: set<Bytes>, now: int)
  {
    && after.history == before.history + Logged(changes)
    && (forall i :: 0 <= i < |changes| ==> changes[i].key.rule == rule.id)
    && (forall k: Key :: k.rule != rule.id ==> Lookup(after.instances, k) == Lookup(before.instances, k))
    && (forall k: Key :: k.rule == rule.id ==>
          Advances(k, Lookup(before.instances, k), Lookup(after.instances, k), Own(changes, k),
                   ObservationOf(present, admitted, k.fp), rule, now))
  }

  /** The fingerprints a rule has instances for. */
  function Existing(instances: map<Key, Instance>, rule: Bytes): set<Bytes> {
    set k | k in instances && k.rule == rule :: k.fp
  }

  lemma {:induction false} OwnSnoc(changes: seq<Transition>, c: Transition, key: Key)
    ensures Own(changes + [c], key) == if c.key == key then Own(changes, key) + [c] else Own(changes, key)
  {
    assert (changes + [c])[..|changes|] == changes;
  }

  // ---- Progress through the series of a rule ----

  /** The series in done have advanced as observed; everything else is as before and has no change. */
  ghost predicate Progress(before: map<Key, Instance>, instances: map<Key, Instance>, changes: seq<Transition>, rule: Rule,
                           done: map<Bytes, Observation>, now: int)
  {
    && (forall i :: 0 <= i < |changes| ==> changes[i].key.rule == rule.id)
    && (forall k: Key :: k.rule == rule.id && k.fp in done ==>
          Advances(k, Lookup(before, k), Lookup(instances, k), Own(changes, k), done[k.fp], rule, now))
    && (forall k: Key :: !(k.rule == rule.id && k.fp in done) ==>
          Lookup(instances, k) == Lookup(before, k) && Own(changes, k) == [])
  }

  lemma NoProgress(before: map<Key, Instance>, rule: Rule, now: int)
    ensures Progress(before, before, [], rule, map[], now)
  {
  }

  lemma OwnConcat(changes: seq<Transition>, more: seq<Transition>, key: Key)
    requires |more| <= 1
    ensures Own(changes + more, key) == Own(changes, key) + if more != [] && more[0].key == key then more else []
  {
    if more == [] {
      assert changes + more == changes;
    } else {
      OwnSnoc(changes, more[0], key);
      assert more == [more[0]];
    }
  }

  lemma ChangeOfIsOwn(key: Key, was: Option<Instance>, obs: Observation, rule: Rule, now: int)
    ensures var c := ChangeOf(key, was, obs, rule, now); |c| <= 1 && (c != [] ==> c[0].key == key)
  {
  }

  /** One more series advances. */
  lemma ProgressStep(before: map<Key, Instance>, instances: map<Key, Instance>, changes: seq<Transition>, rule: Rule,
                     done: map<Bytes, Observation>, now: int, key: Key, obs: Observation, after: map<Key, Instance>, id: nat)
    requires Progress(before, instances, changes, rule, done, now)
    requires key.rule == rule.id && key.fp !in done
    requires forall k: Key :: k != key ==> Lookup(after, k) == Lookup(instances, k)
    requires Lookup(after, key) == NextInstance(Lookup(before, key), obs, rule, now, id)
    ensures Progress(before, after, changes + ChangeOf(key, Lookup(before, key), obs, rule, now), rule, done[key.fp := obs], now)
  {
    hide Own;
    hide Lookup;
    hide ChangeOf;
    var c := ChangeOf(key, Lookup(before, key), obs, rule, now);
    ChangeOfIsOwn(key, Lookup(before, key), obs, rule, now);
    var all := changes + c;
    forall k: Key ensures Own(all, k) == Own(changes, k) + if k == key then c else [] {
      OwnConcat(changes, c, k);
    }
    var more := done[key.fp := obs];
    forall k: Key | k.rule == rule.id && k.fp in more
      ensures Advances(k, Lookup(before, k), Lookup(after, k), Own(all, k), more[k.fp], rule, now)
    {
      if k.fp == key.fp {
        assert k == key;
        assert Own(changes, k) == [];
        assert Own(all, k) == c;
      } else {
        assert Own(all, k) == Own(changes, k);
      }
    }
    forall k: Key | !(k.rule == rule.id && k.fp in more)
      ensures Lookup(after, k) == Lookup(before, k) && Own(all, k) == []
    {
      assert k != key;
      assert Own(all, k) == Own(changes, k);
    }
  }

  lemma ProgressSame(before: map<Key, Instance>, instances: map<Key, Instance>, changes: seq<Transition>, rule: Rule,
                     done: map<Bytes, Observation>, now: int, key: Key)
    requires Progress(before, instances, changes, rule, done, now) && key.rule == rule.id && key.fp !in done
    ensures Lookup(instances, key) == Lookup(before, key)
  {
  }

  /** A series of the result advances by an upsert. */
  lemma ProgressUpsert(before: map<Key, Instance>, instances: map<Key, Instance>, changes: seq<Transition>, rule: Rule,
                       done: map<Bytes, Observation>, now: int, key: Key, s: Sample, id: nat)
    requires Progress(before, instances, changes, rule, done, now)
    requires key.rule == rule.id && key.fp !in done
    ensures Lookup(instances, key) == Lookup(before, key)
    ensures var x := NextInstance(Lookup(before, key), Present(s), rule, now, id);
            && x.Some?
            && Progress(before, instances[key := x.value], changes + ChangeOf(key, Lookup(before, key), Present(s), rule, now),
                        rule, done[key.fp := Present(s)], now)
  {
    hide Progress;
    hide ChangeOf;
    var x := NextInstance(Lookup(before, key), Present(s), rule, now, id);
    ProgressSame(before, instances, changes, rule, done, now, key);
    hide NextInstance;
    ProgressStep(before, instances, changes, rule, done, now, key, Present(s), instances[key := x.value], id);
  }

  /** An instance whose series is gone advances by a deletion. */
  lemma ProgressDelete(before: map<Key, Instance>, instances: map<Key, Instance>, changes: seq<Transition>, rule: Rule,
                       done: map<Bytes, Observation>, now: int, key: Key)
    requires Progress(before, instances, changes, rule, done, now)
    requires key.rule == rule.id && key.fp !in done
    ensures Lookup(instances, key) == Lookup(before, key)
    ensures Progress(before, instances - {key}, changes + ChangeOf(key, Lookup(before, key), Absent, rule, now),
                     rule, done[key.fp := Absent], now)
  {
    hide Progress;
    hide ChangeOf;
    ProgressSame(before, instances, changes, rule, done, now, key);
    ProgressStep(before, instances, changes, rule, done, now, key, Absent, instances - {key}, 0);
  }

  lemma ExistingHas(instances: map<Key, Instance>, k: Key)
    ensures k.fp in Existing(instances, k.rule) <==> k in instances
  {
    if k.fp in Existing(instances, k.rule) {
      var l :| l in instances && l.rule == k.rule && l.fp == k.fp;
      assert l == k;
    }
  }

  /** When every admitted series of the result and every vanished instance has advanced, the evaluation is complete. */
  lemma ProgressDone(before: Db, after: Db, changes: seq<Transition>, rule: Rule, done: map<Bytes, Observation>, now: int,
                     present: map<Bytes, Sample>, admitted: set<Bytes>)
    requires Progress(before.instances, after.instances, changes, rule, done, now)
    requires after.history == before.history + Logged(changes)
    requires admitted <= present.Keys
    requires forall fp :: fp in present && fp in Existing(before.instances, rule.id) ==> fp in admitted
    requires forall fp :: fp in done <==> fp in admitted || (fp in Existing(before.instances, rule.id) && fp !in present)
    requires forall fp :: fp in done ==> done[fp] == ObservationOf(present, admitted, fp)
    ensures Evaluated(before, after, changes, rule, present, admitted, now)
  {
    hide Own;
    hide Next;
    forall k: Key | k.rule == rule.id
      ensures Advances(k, Lookup(before.instances, k), Lookup(after.instances, k), Own(changes, k),
                       ObservationOf(present, admitted, k.fp), rule, now)
    {
      ExistingHas(before.instances, k);
      if k.fp !in done {
        assert Lookup(before.instances, k) == None;
      }
    }
  }

  // ---- The evaluation ----

  /** Advances a series of the result: upserts its instance and records a change. */
  method AdvancePresent(store: Store, key: Key, cur: Option<Instance>, sample: Sample, rule: Rule, now: int)
    returns (change: seq<Transition>, next: State)
    requires store.Valid() && cur == Lookup(store.instances, key) && key.rule == rule.id
    modifies store
    ensures store.Valid()
    ensures change == ChangeOf(key, cur, Present(sample), rule, now)
    ensures var x := NextInstance(cur, Present(sample), rule, now, old(store.issued));
            store.instances == old(store.instances)[key := x.value] && next == x.value.state
    ensures store.history == old(store.history) + Logged(change)
  {
    hide Stored;
    hide Next;
    var curState, activeAt, started := StateOk, now, now;
    var id := store.NewId();
    if cur.Some? {
      curState, activeAt, started, id := cur.value.state, cur.value.activeAt, cur.value.startedAt, cur.value.id;
    }
    var step := Next(curState, true, activeAt, now, ForDuration(rule));
    ChangesAreAllowed(curState, true, activeAt, now, ForDuration(rule));
    var changed := step.1;
    next := step.0;
    var labels := sample.labels + rule.labels;
    store.UpsertInstance(key, Instance(id, next, sample.value, activeAt, started, now, labels, rule.annotations));
    change := [];
    if changed {
      change := [Transition(key, curState, next, sample.value, now, labels, rule.annotations)];
      store.AppendHistory(EntryOf(change[0]));
    }
  }

  /** Resolves an instance whose series is gone: records the change and deletes it. */
  method ResolveGone(store: Store, key: Key, x: Instance, rule: Rule, now: int) returns (change: seq<Transition>)
    requires store.Valid() && Lookup(store.instances, key) == Some(x) && key.rule == rule.id
    modifies store
    ensures store.Valid()
    ensures change == ChangeOf(key, Some(x), Absent, rule, now)
    ensures store.instances == old(store.instances) - {key}
    ensures store.history == old(store.history) + Logged(change)
  {
    hide Stored;
    var step := Next(x.state, false, x.activeAt, now, ForDuration(rule));
    change := [];
    if step.1 {
      change := [Transition(key, x.state, step.0, 0.0, now, x.labels, x.annotations)];
      store.AppendHistory(EntryOf(change[0]));
    }
    store.DeleteInstance(x.id);
  }

  ghost predicate IsListing(fps: seq<Bytes>, keys: set<Bytes>) {
    && (forall fp :: fp in fps <==> fp in keys)
    && (forall i, j :: 0 <= i < j < |fps| ==> LexLess(fps[i], fps[j]))
  }

  lemma ListingDistinct(fps: seq<Bytes>)
    requires forall i, j :: 0 <= i < j < |fps| ==> LexLess(fps[i], fps[j])
    ensures Distinct(fps)
  {
    forall i, j | 0 <= i < j < |fps| ensures fps[i] != fps[j] {
      LexIrreflexive(fps[i]);
    }
  }

  /** What the first loop has seen: the admitted series with their samples. */
  ghost function Seen(present: map<Bytes, Sample>, admitted: set<Bytes>): (r: map<Bytes, Observation>)
    requires admitted <= present.Keys
    ensures r.Keys == admitted
  {
    map fp | fp in admitted :: Present(present[fp])
  }

  /** Holds the history appended so far. */
  ghost predicate Appended(before: seq<Entry>, now: seq<Entry>, changes: seq<Transition>) {
    now == before + Logged(changes)
  }

  lemma AppendedMore(before: seq<Entry>, now: seq<Entry>, changes: seq<Transition>, more: seq<Transition>)
    requires Appended(before, now, changes)
    ensures Appended(before, now + Logged(more), changes + more)
  {
    assert Logged(changes + more) == Logged(changes) + Logged(more);
  }

  lemma AdmittedStep(fps: seq<Bytes>, i: nat, existing: set<Bytes>, tracked: nat, max: int)
    requires i < |fps| && Distinct(fps)
    ensures var a := Admitted(fps[..i], existing, tracked, max);
            && fps[i] !in a
            && Admitted(fps[..i + 1], existing, tracked, max) ==
               (if fps[i] in existing || tracked + |a - existing| < max then a + {fps[i]} else a)
            && |(a + {fps[i]}) - existing| == |a - existing| + (if fps[i] in existing then 0 else 1)
  {
    assert fps[..i + 1][..i] == fps[..i] && fps[..i + 1][i] == fps[i];
    var a, fp := Admitted(fps[..i], existing, tracked, max), fps[i];
    if fp in existing {
      assert (a + {fp}) - existing == a - existing;
    } else {
      assert (a + {fp}) - existing == (a - existing) + {fp};
    }
  }

  lemma SeenMore(present: map<Bytes, Sample>, admitted: set<Bytes>, fp: Bytes)
    requires admitted <= present.Keys && fp in present
    ensures Seen(present, admitted + {fp}) == Seen(present, admitted)[fp := Present(present[fp])]
  {
  }

  /** The admitted series that are firing after the evaluation. */
  ghost function FiringAfter(before: Db, rule: Rule, present: map<Bytes, Sample>, admitted: set<Bytes>, now: int): set<Bytes>
    requires admitted <= present.Keys
  {
    set fp | fp in admitted && StateAfter(Lookup(before.instances, Key(rule.id, fp)), present[fp], rule, now).StateFiring?
  }

  function StateAfter(was: Option<Instance>, s: Sample, rule: Rule, now: int): State {
    NextInstance(was, Present(s), rule, now, 0).value.state
  }

  lemma FiringAfterMore(before: Db, rule: Rule, present: map<Bytes, Sample>, admitted: set<Bytes>, now: int, fp: Bytes)
    requires admitted <= present.Keys && fp in present && fp !in admitted
    ensures |FiringAfter(before, rule, present, admitted + {fp}, now)| ==
            |FiringAfter(before, rule, present, admitted, now)| +
            if StateAfter(Lookup(before.instances, Key(rule.id, fp)), present[fp], rule, now).StateFiring? then 1 else 0
  {
    hide StateAfter;
    var a, b := FiringAfter(before, rule, present, admitted, now), FiringAfter(before, rule, present, admitted + {fp}, now);
    if StateAfter(Lookup(before.instances, Key(rule.id, fp)), present[fp], rule, now).StateFiring? {
      assert b == a + {fp};
    } else {
      assert b == a;
    }
  }

  datatype Counts = Counts(tracked: nat, active: nat, pending: nat, capped: bool)

  /** After the first i series of the result. */
  ghost predicate Advanced(before: Db, after: Db, changes: seq<Transition>, rule: Rule, present: map<Bytes, Sample>,
                           fps: seq<Bytes>, i: nat, existing: set<Bytes>, max: int, now: int, c: Counts)
  {
    && i <= |fps|
    && var admitted := Admitted(fps[..i], existing, |existing|, max);
    && admitted <= present.Keys
    && Progress(before.instances, after.instances, changes, rule, Seen(present, admitted), now)
    && Appended(before.history, after.history, changes)
    && c.tracked == |existing| + |admitted - existing|
    && c.active == |FiringAfter(before, rule, present, admitted, now)|
    && c.active + c.pending == |admitted|
    && (c.capped <==> |admitted| < i)
    && |admitted| <= i
  }

  function Counted(c: Counts, tracked: nat, next: State): Counts {
    if next.StateFiring? then c.(tracked := tracked, active := c.active + 1)
    else c.(tracked := tracked, pending := c.pending + 1)
  }

  lemma AdvancedStart(before: Db, rule: Rule, present: map<Bytes, Sample>, fps: seq<Bytes>, existing: set<Bytes>, max: int, now: int)
    ensures Advanced(before, before, [], rule, present, fps, 0, existing, max, now, Counts(|existing|, 0, 0, false))
  {
    NoProgress(before.instances, rule, now);
    assert Seen(present, {}) == map[];
    assert FiringAfter(before, rule, present, {}, now) == {};
  }

  lemma AdvancedRefuse(before: Db, after: Db, changes: seq<Transition>, rule: Rule, present: map<Bytes, Sample>,
                       fps: seq<Bytes>, i: nat, existing: set<Bytes>, max: int, now: int, c: Counts)
    requires Advanced(before, after, changes, rule, present, fps, i, existing, max, now, c)
    requires i < |fps| && Distinct(fps) && fps[i] !in existing && c.tracked >= max
    ensures Advanced(before, after, changes, rule, present, fps, i + 1, existing, max, now, c.(capped := true))
  {
    hide Progress;
    hide Appended;
    hide Admitted;
    AdmittedStep(fps, i, existing, |existing|, max);
  }

  lemma AdvancedAdmit(before: Db, after: Db, changes: seq<Transition>, rule: Rule, present: map<Bytes, Sample>,
                      fps: seq<Bytes>, i: nat, existing: set<Bytes>, max: int, now: int, c: Counts, id: nat)
    requires Advanced(before, after, changes, rule, present, fps, i, existing, max, now, c)
    requires i < |fps| && Distinct(fps) && fps[i] in present && (fps[i] in existing || c.tracked < max)
    ensures var key, s := Key(rule.id, fps[i]), present[fps[i]];
            var was := Lookup(before.instances, key);
            var x := NextInstance(was, Present(s), rule, now, id);
            var change := ChangeOf(key, was, Present(s), rule, now);
            var tracked := if fps[i] in existing then c.tracked else c.tracked + 1;
            && Lookup(after.instances, key) == was
            && x.Some?
            && Advanced(before, Db(after.instances[key := x.value], after.history + Logged(change)), changes + change, rule,
                        present, fps, i + 1, existing, max, now, Counted(c, tracked, x.value.state))
  {
    hide Progress;
    hide Appended;
    hide Admitted;
    hide NextInstance;
    hide ChangeOf;
    hide Lookup;
    var key, s := Key(rule.id, fps[i]), present[fps[i]];
    var admitted := Admitted(fps[..i], existing, |existing|, max);
    AdmittedStep(fps, i, existing, |existing|, max);
    ProgressUpsert(before.instances, after.instances, changes, rule, Seen(present, admitted), now, key, s, id);
    SeenMore(present, admitted, fps[i]);
    FiringAfterMore(before, rule, present, admitted, now, fps[i]);
    StateWithoutId(Lookup(before.instances, key), s, rule, now, id);
    hide FiringAfter;
    AppendedMore(before.history, after.history, changes, ChangeOf(key, Lookup(before.instances, key), Present(s), rule, now));
  }

  lemma StateWithoutId(was: Option<Instance>, s: Sample, rule: Rule, now: int, id: nat)
    ensures NextInstance(was, Present(s), rule, now, id).Some?
    ensures NextInstance(was, Present(s), rule, now, id).value.state == StateAfter(was, s, rule, now)
  {
  }

  /** The instances of a rule by fingerprint. */
  ghost predicate OfRule(byFP: map<Bytes, Instance>, instances: map<Key, Instance>, rule: Bytes) {
    forall fp :: Lookup(byFP, fp) == Lookup(instances, Key(rule, fp))
  }

  /** One series of the result: refused when it is new and the cap is reached, otherwise advanced. */
  method AdvanceOne(store: Store, rule: Rule, s: Sample, fp: Bytes, byFP: map<Bytes, Instance>, max: int, now: int, c: Counts,
                    ghost before: Db, ghost changes: seq<Transition>, ghost present: map<Bytes, Sample>,
                    ghost fps: seq<Bytes>, ghost i: nat)
    returns (change: seq<Transition>, d: Counts)
    requires store.Valid() && i < |fps| && Distinct(fps)
    requires fp == fps[i] && fp in present && s == present[fp]
    requires OfRule(byFP, before.instances, rule.id)
    requires Advanced(before, Db(store.instances, store.history), changes, rule, present, fps, i, byFP.Keys, max, now, c)
    modifies store
    ensures store.Valid()
    ensures Advanced(before, Db(store.instances, store.history), changes + change, rule, present, fps, i + 1, byFP.Keys, max, now, d)
  {
    hide Advanced;
    hide Distinct;
    hide Counted;
    hide StateAfter;
    hide NextInstance;
    hide ChangeOf;
    hide LexLess;
    ghost var existing, db := byFP.Keys, Db(store.instances, store.history);
    assert Lookup(byFP, fp) == Lookup(before.instances, Key(rule.id, fp));
    hide OfRule;
    if fp !in byFP && c.tracked >= max {
      AdvancedRefuse(before, db, changes, rule, present, fps, i, existing, max, now, c);
      assert changes + [] == changes;
      return [], c.(capped := true);
    }
    AdvancedAdmit(before, db, changes, rule, present, fps, i, existing, max, now, c, store.issued);
    var key, cur := Key(rule.id, fp), Lookup(byFP, fp);
    ghost var x := NextInstance(cur, Present(s), rule, now, store.issued);
    var next;
    change, next := AdvancePresent(store, key, cur, s, rule, now);
    assert Db(store.instances, store.history) == Db(db.instances[key := x.value], db.history + Logged(change));
    d := Counted(c, if fp in byFP then c.tracked else c.tracked + 1, next);
  }

  /** The first loop: series of the result in order, refusing new ones beyond the cap. */
  method AdvanceAll(store: Store, rule: Rule, present: map<Bytes, Sample>, fps: seq<Bytes>, byFP: map<Bytes, Instance>,
                    max: int, now: int)
    returns (changes: seq<Transition>, c: Counts)
    requires store.Valid() && IsListing(fps, present.Keys)
    requires OfRule(byFP, store.instances, rule.id)
    modifies store
    ensures store.Valid()
    ensures Advanced(Db(old(store.instances), old(store.history)), Db(store.instances, store.history), changes, rule, present, fps, |fps|, byFP.Keys, max, now, c)
  {
    hide *;
    ListingParts(fps, present.Keys);
    ghost var before := Db(store.instances, store.history);
    changes, c := [], Counts(|byFP.Keys|, 0, 0, false);
    AdvancedStart(before, rule, present, fps, byFP.Keys, max, now);
    for i := 0 to |fps|
      invariant store.Valid()
      invariant Advanced(before, Db(store.instances, store.history), changes, rule, present, fps, i, byFP.Keys, max, now, c)
    {
      var change;
      change, c := AdvanceOne(store, rule, present[fps[i]], fps[i], byFP, max, now, c, before, changes, present, fps, i);
      changes := changes + change;
    }
  }

  lemma ListingParts(fps: seq<Bytes>, keys: set<Bytes>)
    requires IsListing(fps, keys)
    ensures Distinct(fps) && forall i :: 0 <= i < |fps| ==> fps[i] in keys
  {
    ListingDistinct(fps);
  }

  /** A listing names each instance of one rule once. */
  ghost predicate IsInstanceList(list: seq<(Key, Instance)>, instances: map<Key, Instance>, rule: Bytes) {
    && (forall x :: x in list <==> x.0 in instances && x.0.rule == rule && x.1 == instances[x.0])
    && (forall i, j :: 0 <= i < j < |list| ==> list[i].0 != list[j].0)
  }

  lemma FingerprintsDistinct(list: seq<(Key, Instance)>, instances: map<Key, Instance>, rule: Bytes)
    requires IsInstanceList(list, instances, rule)
    ensures forall i :: 0 <= i < |list| ==> list[i].0 == Key(rule, list[i].0.fp) && Lookup(instances, list[i].0) == Some(list[i].1)
    ensures forall i, j :: 0 <= i < j < |list| ==> list[i].0.fp != list[j].0.fp
  {
    forall i | 0 <= i < |list|
      ensures list[i].0 == Key(rule, list[i].0.fp) && Lookup(instances, list[i].0) == Some(list[i].1)
    {
      assert list[i] in list;
    }
    forall i, j | 0 <= i < j < |list| ensures list[i].0.fp != list[j].0.fp {
      assert list[i].0 != list[j].0;
    }
  }

  function FromList(list: seq<(Key, Instance)>): map<Bytes, Instance> {
    if list == [] then map[] else FromList(list[..|list| - 1])[list[|list| - 1].0.fp := list[|list| - 1].1]
  }

  lemma {:induction false} FromListHas(list: seq<(Key, Instance)>, fp: Bytes) returns (i: nat)
    requires fp in FromList(list)
    ensures i < |list| && list[i].0.fp == fp && FromList(list)[fp] == list[i].1
  {
    i := |list| - 1;
    if list[i].0.fp != fp {
      i := FromListHas(list[..|list| - 1], fp);
    }
  }

  lemma {:induction false} FromListAt(list: seq<(Key, Instance)>, i: nat)
    requires i < |list| && forall j :: i < j < |list| ==> list[j].0.fp != list[i].0.fp
    ensures list[i].0.fp in FromList(list) && FromList(list)[list[i].0.fp] == list[i].1
  {
    if i < |list| - 1 {
      FromListAt(list[..|list| - 1], i);
    }
  }

  lemma {:induction false} FromListSize(list: seq<(Key, Instance)>)
    requires forall i, j :: 0 <= i < j < |list| ==> list[i].0.fp != list[j].0.fp
    ensures |FromList(list).Keys| == |list|
  {
    if list != [] {
      var front, x := list[..|list| - 1], list[|list| - 1];
      FromListSize(front);
      var m := FromList(front);
      if x.0.fp in m {
        var i := FromListHas(front, x.0.fp);
      }
      assert m[x.0.fp := x.1].Keys == m.Keys + {x.0.fp};
    }
  }

  /** The instances that are listed, by fingerprint. */
  method ByFingerprint(list: seq<(Key, Instance)>) returns (byFP: map<Bytes, Instance>)
    ensures byFP == FromList(list)
  {
    byFP := map[];
    for i := 0 to |list|
      invariant byFP == FromList(list[..i])
    {
      assert list[..i + 1][..i] == list[..i];
      byFP := byFP[list[i].0.fp := list[i].1];
    }
    assert list[..|list|] == list;
  }

  lemma FromListLooksUp(list: seq<(Key, Instance)>, instances: map<Key, Instance>, rule: Bytes)
    requires IsInstanceList(list, instances, rule)
    ensures var byFP := FromList(list);
            && (forall fp :: Lookup(byFP, fp) == Lookup(instances, Key(rule, fp)))
            && byFP.Keys == Existing(instances, rule)
            && |byFP.Keys| == |list|
  {
    FingerprintsDistinct(list, instances, rule);
    FromListSize(list);
    hide FromList;
    var byFP := FromList(list);
    forall fp ensures Lookup(byFP, fp) == Lookup(instances, Key(rule, fp)) {
      if Key(rule, fp) in instances {
        var x := (Key(rule, fp), instances[Key(rule, fp)]);
        assert x in list;
        var i :| 0 <= i < |list| && list[i] == x;
        FromListAt(list, i);
      } else if fp in byFP {
        var i := FromListHas(list, fp);
      }
    }
    forall fp ensures fp in byFP <==> fp in Existing(instances, rule) {
      ExistingHas(instances, Key(rule, fp));
      assert Lookup(byFP, fp) == Lookup(instances, Key(rule, fp));
    }
  }

  /** What the second loop has resolved among the first i listed instances. */
  ghost function Vanished(list: seq<(Key, Instance)>, i: nat, present: set<Bytes>): set<Bytes>
    requires i <= |list|
  {
    set j | 0 <= j < i && list[j].0.fp !in present :: list[j].0.fp
  }

  /** The series that have advanced once some instances are resolved as well. */
  ghost function WithVanished(done: map<Bytes, Observation>, gone: set<Bytes>): (r: map<Bytes, Observation>)
    ensures r.Keys == done.Keys + gone
  {
    done + map fp | fp in gone :: Absent
  }

  /** The second loop: resolves listed instances whose series is no longer in the result. */
  method ResolveAll(store: Store, rule: Rule, present: map<Bytes, Sample>, list: seq<(Key, Instance)>, first: seq<Transition>,
                    ghost before: Db, ghost done: map<Bytes, Observation>, now: int)
    returns (changes: seq<Transition>)
    requires store.Valid() && done.Keys <= present.Keys
    requires Progress(before.instances, store.instances, first, rule, done, now)
    requires Appended(before.history, store.history, first)
    requires forall i :: 0 <= i < |list| ==> list[i].0.rule == rule.id && Lookup(before.instances, list[i].0) == Some(list[i].1)
    requires forall i, j :: 0 <= i < j < |list| ==> list[i].0.fp != list[j].0.fp
    modifies store
    ensures store.Valid()
    ensures Progress(before.instances, store.instances, changes, rule, WithVanished(done, Vanished(list, |list|, present.Keys)), now)
    ensures Appended(before.history, store.history, changes)
  {
    hide Progress;
    hide Appended;
    hide ChangeOf;
    hide WithVanished;
    hide Vanished;
    changes := first;
    NothingVanished(list, present.Keys, done);
    for i := 0 to |list|
      invariant store.Valid()
      invariant Progress(before.instances, store.instances, changes, rule, WithVanished(done, Vanished(list, i, present.Keys)), now)
      invariant Appended(before.history, store.history, changes)
    {
      VanishedStep(list, i, present.Keys, done);
      var key, x := list[i].0, list[i].1;
      if key.fp in present {
        continue;
      }
      ProgressDelete(before.instances, store.instances, changes, rule, WithVanished(done, Vanished(list, i, present.Keys)), now, key);
      ghost var history := store.history;
      var change := ResolveGone(store, key, x, rule, now);
      AppendedMore(before.history, history, changes, change);
      changes := changes + change;
    }
  }

  lemma NothingVanished(list: seq<(Key, Instance)>, present: set<Bytes>, done: map<Bytes, Observation>)
    ensures WithVanished(done, Vanished(list, 0, present)) == done
  {
  }

  lemma VanishedStep(list: seq<(Key, Instance)>, i: nat, present: set<Bytes>, done: map<Bytes, Observation>)
    requires i < |list| && done.Keys <= present
    requires forall i, j :: 0 <= i < j < |list| ==> list[i].0.fp != list[j].0.fp
    ensures var fp, a, b := list[i].0.fp, WithVanished(done, Vanished(list, i, present)), WithVanished(done, Vanished(list, i + 1, present));
            if fp in present then b == a else fp !in a && b == a[fp := Absent]
  {
    VanishedSet(list, i, present);
    var fp, a, b := list[i].0.fp, Vanished(list, i, present), Vanished(list, i + 1, present);
    hide Vanished;
    if fp !in present {
      OneMoreVanished(done, a, fp);
    }
  }

  lemma OneMoreVanished(done: map<Bytes, Observation>, gone: set<Bytes>, fp: Bytes)
    ensures WithVanished(done, gone + {fp}) == WithVanished(done, gone)[fp := Absent]
  {
  }

  lemma VanishedSet(list: seq<(Key, Instance)>, i: nat, present: set<Bytes>)
    requires i < |list|
    requires forall i, j :: 0 <= i < j < |list| ==> list[i].0.fp != list[j].0.fp
    ensures var fp, a, b := list[i].0.fp, Vanished(list, i, present), Vanished(list, i + 1, present);
            fp !in a && b == if fp in present then a else a + {fp}
  {
    var fp, a, b := list[i].0.fp, Vanished(list, i, present), Vanished(list, i + 1, present);
    forall x ensures x in b <==> x in a || (x == fp && fp !in present) {
      if x in b {
        var j :| 0 <= j < i + 1 && list[j].0.fp !in present && list[j].0.fp == x;
      }
    }
  }

  lemma AllAdvanced(before: Db, after: Db, changes: seq<Transition>, rule: Rule, present: map<Bytes, Sample>, fps: seq<Bytes>,
                    list: seq<(Key, Instance)>, admitted: set<Bytes>, now: int)
    requires IsInstanceList(list, before.instances, rule.id) && IsListing(fps, present.Keys)
    requires admitted <= present.Keys
    requires forall fp :: fp in present && fp in Existing(before.instances, rule.id) ==> fp in admitted
    requires Progress(before.instances, after.instances, changes, rule,
                      WithVanished(Seen(present, admitted), Vanished(list, |list|, present.Keys)), now)
    requires Appended(before.history, after.history, changes)
    ensures Evaluated(before, after, changes, rule, present, admitted, now)
  {
    hide Progress;
    hide Evaluated;
    FingerprintsDistinct(list, before.instances, rule.id);
    var gone := Vanished(list, |list|, present.Keys);
    var done := WithVanished(Seen(present, admitted), gone);
    forall fp ensures fp in gone <==> fp in Existing(before.instances, rule.id) && fp !in present {
      ExistingHas(before.instances, Key(rule.id, fp));
      if fp in Existing(before.instances, rule.id) && fp !in present {
        var x := (Key(rule.id, fp), before.instances[Key(rule.id, fp)]);
        assert x in list;
        var i :| 0 <= i < |list| && list[i] == x;
        assert list[i].0.fp in gone;
      }
    }
    ProgressDone(before, after, changes, rule, done, now, present, admitted);
  }

  /** The configured cap, or the default when it is not positive. */
  function CapOf(maxInstances: int): int {
    if maxInstances <= 0 then DEFAULT_MAX_INSTANCES else maxInstances
  }

  /** Evaluates a rule on a query result; a failed query, given as None, holds all state.
      The fingerprints of the result, in order, are returned for the statement about the cap. */
  method EvaluateRule(store: Store, rule: Rule, result: Option<seq<Sample>>, fingerprint: map<Bytes, Bytes> -> Bytes,
                      maxInstances: int, now: int)
    returns (out: Outcome, ghost fps: seq<Bytes>)
    requires store.Valid()
    modifies store
    ensures store.Valid()
    ensures result.None? ==> out == Outcome(0, 0, [], true, false) && unchanged(store)
    ensures result.Some? ==>
              var present := Indexed(fingerprint, result.value);
              var existing := Existing(old(store.instances), rule.id);
              var admitted := Admitted(fps, existing, |existing|, CapOf(maxInstances));
              && !out.failed
              && IsListing(fps, present.Keys)
              && Evaluated(Db(old(store.instances), old(store.history)), Db(store.instances, store.history), out.changes, rule,
                           present, admitted, now)
              && admitted <= present.Keys
              && out.active == |FiringAfter(Db(old(store.instances), old(store.history)), rule, present, admitted, now)|
              && out.active + out.pending == |admitted|
              && (out.capped <==> |admitted| < |fps|)
  {
    hide Advanced;
    hide Progress;
    hide Appended;
    hide Evaluated;
    hide IsListing;
    fps := [];
    if result.None? {
      return Outcome(0, 0, [], true, false), [];
    }
    ghost var before := Db(store.instances, store.history);
    var list := store.ListInstancesByRule(rule.id);
    var byFP := ByFingerprint(list);
    assert IsInstanceList(list, before.instances, rule.id);
    FromListLooksUp(list, store.instances, rule.id);
    FingerprintsDistinct(list, before.instances, rule.id);
    hide FromList;
    hide IsInstanceList;
    var present := IndexSamples(fingerprint, result.value);
    var sorted := SortedKeys(present.Keys);
    fps := sorted;
    assert IsListing(sorted, present.Keys) by { SortedIsListing(sorted, present.Keys); }
    var first, c := AdvanceAll(store, rule, present, sorted, byFP, CapOf(maxInstances), now);
    ghost var admitted := Admitted(sorted, byFP.Keys, |byFP.Keys|, CapOf(maxInstances));
    AdvancedMeans(before, Db(store.instances, store.history), first, rule, present, sorted, byFP.Keys, CapOf(maxInstances), now, c);
    var changes := ResolveAll(store, rule, present, list, first, before, Seen(present, admitted), now);
    AllAdvanced(before, Db(store.instances, store.history), changes, rule, present, sorted, list, admitted, now);
    out := Outcome(c.active, c.pending, changes, false, c.capped);
  }

  lemma SortedIsListing(fps: seq<Bytes>, keys: set<Bytes>)
    requires forall k :: k in fps <==> k in keys
    requires forall i, j :: 0 <= i < j < |fps| ==> LexLess(fps[i], fps[j])
    ensures IsListing(fps, keys)
  {
  }

  lemma AdvancedMeans(before: Db, after: Db, changes: seq<Transition>, rule: Rule, present: map<Bytes, Sample>,
                      fps: seq<Bytes>, existing: set<Bytes>, max: int, now: int, c: Counts)
    requires Advanced(before, after, changes, rule, present, fps, |fps|, existing, max, now, c)
    requires IsListing(fps, present.Keys)
    ensures var admitted := Admitted(fps, existing, |existing|, max);
            && admitted <= present.Keys
            && Progress(before.instances, after.instances, changes, rule, Seen(present, admitted), now)
            && Appended(before.history, after.history, changes)
            && c.active == |FiringAfter(before, rule, present, admitted, now)|
            && c.active + c.pending == |admitted|
            && (c.capped <==> |admitted| < |fps|)
            && (forall fp :: fp in present && fp in existing ==> fp in admitted)
  {
    hide Progress;
    hide Appended;
    hide Admitted;
    assert fps[..|fps|] == fps;
    forall fp | fp in present && fp in existing ensures fp in Admitted(fps, existing, |existing|, max) {
      ExistingAdmitted(fps, existing, |existing|, max, fp);
    }
  }
}
