/** What the stored instances and the reported changes say: the sample, the rule and the times they stem from. */
module AlertInstances {
  import opened Base
  import opened AlertState
  import opened AlertStore
  import opened Evaluator
  import opened AlertRuns

  function WholeMillis(t: int): int { t / 1_000_000 * 1_000_000 }

  /** The rule's label where the rule has one, the sample's otherwise. */
  ghost predicate LabelledBy(labels: map<Bytes, Bytes>, rule: Rule, s: Sample) {
    && (forall n :: n in labels <==> n in rule.labels || n in s.labels)
    && (forall n :: n in labels ==> labels[n] == if n in rule.labels then rule.labels[n] else s.labels[n])
  }

  /** An instance tells of the streak that began with `first`, as the evaluation `last` saw it. */
  ghost predicate Tells(x: Instance, first: Evaluation, last: Evaluation, fp: Bytes)
    requires fp in last.present
  {
    && x.value == last.present[fp].value
    && x.updatedAt == WholeMillis(last.now)
    && x.startedAt == WholeMillis(first.now) && x.activeAt == WholeMillis(first.now)
    && LabelledBy(x.labels, last.rule, last.present[fp])
    && x.annotations == last.rule.annotations
  }

  ghost predicate SeenLast(evs: seq<Evaluation>, key: Key, l: nat) {
    l < |evs| && Sees(evs[l], key) && forall k :: l < k < |evs| ==> !Sees(evs[k], key)
  }

  /** What one evaluation leaves of one series. */
  lemma OneStep(before: Db, ev: Evaluation, after: Db, changes: seq<Transition>, key: Key)
    requires Steps(before, ev, after, changes)
    ensures Sight(ev, key).None? ==> Lookup(after.instances, key) == Lookup(before.instances, key)
    ensures Breaks(ev, key) && key in before.instances ==> key !in after.instances
    ensures Breaks(ev, key) && key !in before.instances ==> key !in after.instances
    ensures Sees(ev, key) ==> key.fp in ev.present && key in after.instances
    ensures Sees(ev, key) && key !in before.instances ==> Tells(after.instances[key], ev, ev, key.fp)
    ensures Sees(ev, key) && key in before.instances ==>
              var x, y, s := before.instances[key], after.instances[key], ev.present[key.fp];
              && y.value == s.value && y.updatedAt == WholeMillis(ev.now) && LabelledBy(y.labels, ev.rule, s)
              && y.annotations == ev.rule.annotations
              && y.id == x.id && y.startedAt == x.startedAt && y.activeAt == WholeMillis(x.activeAt)
  {
    hide Next;
    hide ChangeOf;
    hide Own;
    hide ForDuration;
    if Sight(ev, key).Some? {
      assert Advances(key, Lookup(before.instances, key), Lookup(after.instances, key), Own(changes, key),
                      ObservationOf(ev.present, ev.admitted, key.fp), ev.rule, ev.now);
    }
  }

  lemma WholeTwice(t: int)
    ensures WholeMillis(WholeMillis(t)) == WholeMillis(t)
  {
  }

  /** An instance is there exactly while a streak lasts. */
  lemma StoredDuringStreak(dbs: seq<Db>, evs: seq<Evaluation>, outs: seq<seq<Transition>>, key: Key)
    requires IsRun(dbs, evs, outs)
    ensures key in dbs[|evs|].instances <==> StreakStart(evs, key).Some?
  {
    RunProjects(dbs, evs, outs, key);
    RunNeverRefuses(dbs, evs, outs, key);
    TrackForm(evs, key);
  }

  /**
   * Over any run: a stored instance has the value, labels, annotations and time of the last evaluation that saw its
   * series, and the start and identifier it was given when the streak began.
   */
  lemma {:induction false} RunInstance(dbs: seq<Db>, evs: seq<Evaluation>, outs: seq<seq<Transition>>, key: Key)
    returns (j: nat, l: nat)
    requires IsRun(dbs, evs, outs) && key in dbs[|evs|].instances
    ensures StreakStart(evs, key) == Some(j) && j <= l && SeenLast(evs, key, l) && key.fp in evs[l].present
    ensures Tells(dbs[|evs|].instances[key], evs[j], evs[l], key.fp)
    ensures key !in dbs[j].instances
    ensures forall i :: j < i <= |evs| ==> key in dbs[i].instances && dbs[i].instances[key].id == dbs[|evs|].instances[key].id
    decreases |evs|
  {
    hide Steps;
    hide Sight;
    hide Tells;
    var n := |evs| - 1;
    StoredDuringStreak(dbs, evs, outs, key);
    RunPrefix(dbs, evs, outs);
    var fdbs, fevs, fouts := dbs[..n + 1], evs[..n], outs[..n];
    StoredDuringStreak(fdbs, fevs, fouts, key);
    OneStep(dbs[n], evs[n], dbs[n + 1], outs[n], key);
    if Sees(evs[n], key) && key !in dbs[n].instances {
      j, l := n, n;
    } else {
      SightCases(evs[n], key);
      var before: nat;
      j, before := RunInstance(fdbs, fevs, fouts, key);
      assert fevs[before] == evs[before] && fevs[j] == evs[j];
      assert forall i :: 0 <= i <= n ==> fdbs[i] == dbs[i];
      l := if Sees(evs[n], key) then n else before;
      if Sees(evs[n], key) {
        TellsOn(dbs[n].instances[key], dbs[n + 1].instances[key], evs[j], evs[before], evs[n], key.fp);
      } else {
        assert forall k :: before < k < n ==> fevs[k] == evs[k];
      }
    }
  }

  lemma SightCases(ev: Evaluation, key: Key)
    ensures Sight(ev, key).None? ==> !Sees(ev, key) && !Breaks(ev, key)
    ensures Sight(ev, key).Some? ==> (Sees(ev, key) <==> !Breaks(ev, key))
  {
  }

  lemma TellsOn(x: Instance, y: Instance, first: Evaluation, last: Evaluation, ev: Evaluation, fp: Bytes)
    requires fp in last.present && fp in ev.present && Tells(x, first, last, fp)
    requires y.value == ev.present[fp].value && y.updatedAt == WholeMillis(ev.now) && LabelledBy(y.labels, ev.rule, ev.present[fp])
    requires y.annotations == ev.rule.annotations && y.startedAt == x.startedAt && y.activeAt == WholeMillis(x.activeAt)
    ensures Tells(y, first, ev, fp)
  {
    hide LabelledBy;
    WholeTwice(first.now);
    hide WholeMillis;
  }

  // ---- What is reported ----

  lemma {:induction false} OwnHas(changes: seq<Transition>, key: Key, c: Transition)
    ensures c in Own(changes, key) <==> c in changes && c.key == key
  {
    if changes != [] {
      OwnHas(changes[..|changes| - 1], key, c);
      assert changes == changes[..|changes| - 1] + [changes[|changes| - 1]];
    }
  }

  function StateBefore(x: Option<Instance>): State { if x.Some? then x.value.state else StateOk }

  /** A change tells of the instance it leaves, or with value zero of the one that went away. */
  ghost predicate Reports(c: Transition, was: Option<Instance>, got: Option<Instance>, now: int) {
    && c.time == now && c.prev == StateBefore(was) && c.prev != c.next
    && match got
       case Some(x) => c.next == x.state && c.value == x.value && c.labels == x.labels && c.annotations == x.annotations
       case None => was.Some? && c.next == StateResolved && c.value == 0.0 && c.labels == was.value.labels
                    && c.annotations == was.value.annotations
  }

  /** Whether a series changes state: an instance that goes away is resolved. */
  ghost predicate Changes(was: Option<Instance>, got: Option<Instance>) {
    StateBefore(was) != if got.Some? then got.value.state else if was.Some? then StateResolved else StateOk
  }

  lemma Advanced(key: Key, was: Option<Instance>, got: Option<Instance>, own: seq<Transition>, obs: Observation, rule: Rule, now: int)
    requires Advances(key, was, got, own, obs, rule, now)
    requires was.Some? ==> was.value.state.StatePending? || was.value.state.StateFiring?
    ensures forall c :: c in own ==> Reports(c, was, got, now)
    ensures own != [] <==> Changes(was, got)
  {
    hide ForDuration;
    hide Elapsed;
    hide Stored;
  }

  lemma StoredStates(dbs: seq<Db>, evs: seq<Evaluation>, outs: seq<seq<Transition>>, n: nat, key: Key)
    requires IsRun(dbs, evs, outs) && n <= |evs| && key in dbs[n].instances
    ensures dbs[n].instances[key].state.StatePending? || dbs[n].instances[key].state.StateFiring?
  {
    hide Steps;
    var (fdbs, fevs, fouts) := (dbs[..n + 1], evs[..n], outs[..n]);
    assert IsRun(fdbs, fevs, fouts) by {
      forall i | 0 <= i < |fevs| ensures Steps(fdbs[i], fevs[i], fdbs[i + 1], fouts[i]) {
        assert Steps(dbs[i], evs[i], dbs[i + 1], outs[i]);
      }
    }
    RunProjects(fdbs, fevs, fouts, key);
    LifeIsChain(fevs, key);
    StateOfChain(LifeOf(fevs, key).marks);
    ChainLives(fevs, key);
  }

  lemma StateOfChain(m: seq<Mark>)
    requires Chain(m)
    ensures Current(m) in [StateOk, StatePending, StateFiring]
  {
  }

  /** A stored series is pending or firing. */
  lemma {:induction false} ChainLives(evs: seq<Evaluation>, key: Key)
    ensures var track := LifeOf(evs, key).track; track.Some? ==> track.value.state.StatePending? || track.value.state.StateFiring?
  {
    hide Stored;
    hide ForDuration;
    hide Elapsed;
    if evs != [] {
      ChainLives(evs[..|evs| - 1], key);
    }
  }

  /** Over any run: every reported change tells of the evaluated rule, the time, and what the store held before and after. */
  lemma ChangeReports(dbs: seq<Db>, evs: seq<Evaluation>, outs: seq<seq<Transition>>, i: nat, c: Transition)
    requires IsRun(dbs, evs, outs) && i < |evs| && c in outs[i]
    ensures c.key.rule == evs[i].rule.id
    ensures Reports(c, Lookup(dbs[i].instances, c.key), Lookup(dbs[i + 1].instances, c.key), evs[i].now)
  {
    hide Advances;
    hide ObservationOf;
    assert Steps(dbs[i], evs[i], dbs[i + 1], outs[i]);
    OwnHas(outs[i], c.key, c);
    hide Own;
    if c.key in dbs[i].instances {
      StoredStates(dbs, evs, outs, i, c.key);
    }
    var ev := evs[i];
    assert c.key.rule == ev.rule.id;
    Advanced(c.key, Lookup(dbs[i].instances, c.key), Lookup(dbs[i + 1].instances, c.key), Own(outs[i], c.key),
             ObservationOf(ev.present, ev.admitted, c.key.fp), ev.rule, ev.now);
  }

  /** Over any run: a series is reported by an evaluation exactly when that evaluation changes its state. */
  lemma ChangesReportedIff(dbs: seq<Db>, evs: seq<Evaluation>, outs: seq<seq<Transition>>, i: nat, key: Key)
    requires IsRun(dbs, evs, outs) && i < |evs|
    ensures (exists c :: c in outs[i] && c.key == key) <==>
            Changes(Lookup(dbs[i].instances, key), Lookup(dbs[i + 1].instances, key))
  {
    hide Advances;
    hide ObservationOf;
    var ev, was, got := evs[i], Lookup(dbs[i].instances, key), Lookup(dbs[i + 1].instances, key);
    assert Steps(dbs[i], ev, dbs[i + 1], outs[i]);
    var own := Own(outs[i], key);
    if was.Some? {
      StoredStates(dbs, evs, outs, i, key);
    }
    forall c ensures c in own <==> c in outs[i] && c.key == key {
      OwnHas(outs[i], key, c);
    }
    if !ev.failed && key.rule == ev.rule.id {
      Advanced(key, was, got, own, ObservationOf(ev.present, ev.admitted, key.fp), ev.rule, ev.now);
      if own != [] {
        assert own[0] in own;
      }
    }
  }

  /** Over any run: the history is the changes of all evaluations, each with its time in whole milliseconds. */
  lemma HistoryTells(dbs: seq<Db>, evs: seq<Evaluation>, outs: seq<seq<Transition>>, i: nat)
    requires IsRun(dbs, evs, outs) && i < |evs|
    ensures |dbs[i + 1].history| == |dbs[i].history| + |outs[i]| && dbs[i].history <= dbs[i + 1].history
    ensures forall k :: 0 <= k < |outs[i]| ==>
              var c := outs[i][k];
              dbs[i + 1].history[|dbs[i].history| + k] == Entry(c.key, c.prev, c.next, WholeMillis(c.time), c.value)
  {
    assert Steps(dbs[i], evs[i], dbs[i + 1], outs[i]);
    StepHistory(dbs[i], evs[i], dbs[i + 1], outs[i]);
    hide Steps;
  }

  lemma StepHistory(before: Db, ev: Evaluation, after: Db, changes: seq<Transition>)
    requires Steps(before, ev, after, changes)
    ensures after.history == before.history + Logged(changes)
  {
    hide Advances;
  }

  // ---- Samples with one fingerprint ----

  /** Of several samples with one fingerprint the last is evaluated. */
  lemma {:induction false} LastSampleWins(fingerprint: map<Bytes, Bytes> -> Bytes, samples: seq<Sample>, fp: Bytes)
    ensures fp in Indexed(fingerprint, samples) <==> exists i :: 0 <= i < |samples| && fingerprint(samples[i].labels) == fp
    ensures fp in Indexed(fingerprint, samples) ==>
              exists i :: 0 <= i < |samples| && fingerprint(samples[i].labels) == fp && Indexed(fingerprint, samples)[fp] == samples[i]
                          && forall k :: i < k < |samples| ==> fingerprint(samples[k].labels) != fp
  {
    if samples != [] {
      var front, n := samples[..|samples| - 1], |samples| - 1;
      LastSampleWins(fingerprint, front, fp);
      if fingerprint(samples[n].labels) != fp && fp in Indexed(fingerprint, front) {
        var i :| 0 <= i < |front| && fingerprint(front[i].labels) == fp && Indexed(fingerprint, front)[fp] == front[i]
                 && forall k :: i < k < |front| ==> fingerprint(front[k].labels) != fp;
        assert samples[i] == front[i];
        forall k | i < k < |samples| ensures fingerprint(samples[k].labels) != fp {
          assert k < n ==> samples[k] == front[k];
        }
      }
      if i :| 0 <= i < |samples| && fingerprint(samples[i].labels) == fp {
        assert i < n ==> front[i] == samples[i];
      }
    }
  }
}
