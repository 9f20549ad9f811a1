/** Whole runs of rule evaluations: alert state in closed form, histories as lifecycles, and what is notified. */
module AlertRuns {
  import opened Base
  import opened AlertState
  import opened AlertStore
  import opened Evaluator

  /** One evaluation of a rule: its outcome, the admitted series, and the time. */
  datatype Evaluation = Evaluation(rule: Rule, failed: bool, present: map<Bytes, Sample>, admitted: set<Bytes>, now: int)

  /** What an evaluation says about a series: nothing if it failed or is of another rule. */
  function Sight(ev: Evaluation, key: Key): Option<Observation> {
    if ev.failed || ev.rule.id != key.rule then None else Some(ObservationOf(ev.present, ev.admitted, key.fp))
  }

  predicate Sees(ev: Evaluation, key: Key) {
    Sight(ev, key).Some? && Sight(ev, key).value.Present?
  }

  predicate Breaks(ev: Evaluation, key: Key) {
    Sight(ev, key).Some? && !Sight(ev, key).value.Present?
  }

  /** One evaluation of a rule on the store. */
  ghost predicate Steps(before: Db, ev: Evaluation, after: Db, changes: seq<Transition>) {
    if ev.failed then after == before && changes == []
    else
      && Evaluated(before, after, changes, ev.rule, ev.present, ev.admitted, ev.now)
      && ev.admitted <= ev.present.Keys
      && (forall fp :: fp in ev.present && Key(ev.rule.id, fp) in before.instances ==> fp in ev.admitted)
  }

  const EMPTY_DB: Db := Db(map[], [])

  /** A run from an empty store: the states, the evaluations and the changes each reports. */
  ghost predicate IsRun(dbs: seq<Db>, evs: seq<Evaluation>, outs: seq<seq<Transition>>) {
    && |dbs| == |evs| + 1 && |outs| == |evs|
    && dbs[0] == EMPTY_DB
    && forall i :: 0 <= i < |evs| ==> Steps(dbs[i], evs[i], dbs[i + 1], outs[i])
  }

  lemma RunPrefix(dbs: seq<Db>, evs: seq<Evaluation>, outs: seq<seq<Transition>>)
    requires IsRun(dbs, evs, outs) && evs != []
    ensures IsRun(dbs[..|evs|], evs[..|evs| - 1], outs[..|evs| - 1])
    ensures Steps(dbs[|evs| - 1], evs[|evs| - 1], dbs[|evs|], outs[|evs| - 1])
  {
    hide Steps;
  }

  // ---- One series ----

  datatype Track = Track(state: State, activeAt: int)

  datatype Mark = Mark(prev: State, next: State, at: int)

  /** The stored instance of a series and its history. */
  datatype Life = Life(track: Option<Track>, marks: seq<Mark>)

  function Observe(life: Life, obs: Observation, forD: Int64, now: int): Life {
    match obs
    case Refused => life
    case Absent =>
      if life.track.None? then life
      else
        var t := life.track.value;
        var (next, changed) := Next(t.state, false, t.activeAt, now, forD);
        Life(None, if changed then life.marks + [Mark(t.state, next, Stored(now))] else life.marks)
    case Present(_) =>
      var cur := if life.track.Some? then life.track.value.state else StateOk;
      var activeAt := if life.track.Some? then life.track.value.activeAt else now;
      var (next, changed) := Next(cur, true, activeAt, now, forD);
      Life(Some(Track(next, Stored(activeAt))), if changed then life.marks + [Mark(cur, next, Stored(now))] else life.marks)
  }

  function LifeOf(evs: seq<Evaluation>, key: Key): Life {
    if evs == [] then Life(None, [])
    else
      var life, ev := LifeOf(evs[..|evs| - 1], key), evs[|evs| - 1];
      match Sight(ev, key)
      case None => life
      case Some(obs) => Observe(life, obs, ForDuration(ev.rule), ev.now)
  }

  function TrackOf(x: Option<Instance>): Option<Track> {
    match x
    case None => None
    case Some(i) => Some(Track(i.state, i.activeAt))
  }

  function MarkOf(c: Transition): Mark { Mark(c.prev, c.next, Stored(c.time)) }

  function MarksOf(own: seq<Transition>): (r: seq<Mark>)
    ensures |r| == |own|
  {
    seq(|own|, i requires 0 <= i < |own| => MarkOf(own[i]))
  }

  /** The history of one series. */
  function MarksIn(h: seq<Entry>, key: Key): seq<Mark> {
    if h == [] then []
    else
      var front, e := MarksIn(h[..|h| - 1], key), h[|h| - 1];
      if e.key == key then front + [Mark(e.prev, e.next, e.at)] else front
  }

  lemma {:induction false} MarksInLogged(h: seq<Entry>, changes: seq<Transition>, key: Key)
    ensures MarksIn(h + Logged(changes), key) == MarksIn(h, key) + MarksOf(Own(changes, key))
  {
    if changes == [] {
      assert h + Logged(changes) == h;
    } else {
      var front, c := changes[..|changes| - 1], changes[|changes| - 1];
      MarksInLogged(h, front, key);
      var all := h + Logged(changes);
      assert all[..|all| - 1] == h + Logged(front);
      assert all[|all| - 1] == EntryOf(c);
    }
  }

  /** One evaluation moves the stored instance and the history of a series as Observe says. */
  lemma StepObserves(before: Db, ev: Evaluation, after: Db, changes: seq<Transition>, key: Key)
    requires Steps(before, ev, after, changes)
    ensures var was := Life(TrackOf(Lookup(before.instances, key)), MarksIn(before.history, key));
            var got := Life(TrackOf(Lookup(after.instances, key)), MarksIn(after.history, key));
            got == match Sight(ev, key) case None => was case Some(obs) => Observe(was, obs, ForDuration(ev.rule), ev.now)
  {
    hide Next;
    hide Stored;
    hide Own;
    hide MarksIn;
    if !ev.failed {
      MarksInLogged(before.history, changes, key);
      if key.rule == ev.rule.id {
        assert Advances(key, Lookup(before.instances, key), Lookup(after.instances, key), Own(changes, key),
                        ObservationOf(ev.present, ev.admitted, key.fp), ev.rule, ev.now);
      } else {
        NotOwn(changes, ev.rule.id, key);
      }
    }
  }

  lemma {:induction false} NotOwn(changes: seq<Transition>, rule: Bytes, key: Key)
    requires (forall i :: 0 <= i < |changes| ==> changes[i].key.rule == rule) && key.rule != rule
    ensures Own(changes, key) == []
  {
    if changes != [] {
      NotOwn(changes[..|changes| - 1], rule, key);
    }
  }

  /** Every series of every rule evolves on its own: interleaved evaluations of other rules do not matter. */
  lemma {:induction false} RunProjects(dbs: seq<Db>, evs: seq<Evaluation>, outs: seq<seq<Transition>>, key: Key)
    requires IsRun(dbs, evs, outs)
    ensures Life(TrackOf(Lookup(dbs[|evs|].instances, key)), MarksIn(dbs[|evs|].history, key)) == LifeOf(evs, key)
    decreases |evs|
  {
    hide Steps;
    hide Observe;
    hide Sight;
    if evs != [] {
      RunPrefix(dbs, evs, outs);
      RunProjects(dbs[..|evs|], evs[..|evs| - 1], outs[..|evs| - 1], key);
      StepObserves(dbs[|evs| - 1], evs[|evs| - 1], dbs[|evs|], outs[|evs| - 1], key);
    }
  }

  // ---- The state in closed form ----

  /** The first evaluation of the unbroken streak of successful evaluations that see the series. */
  function StreakStart(evs: seq<Evaluation>, key: Key): (r: Option<nat>)
    ensures r.Some? ==> r.value < |evs|
  {
    if evs == [] then None
    else
      var n := |evs| - 1;
      var start := StreakStart(evs[..n], key);
      if Breaks(evs[n], key) then None
      else if Sees(evs[n], key) && start.None? then Some(n)
      else start
  }

  /** The last evaluation that says something about the series. */
  function LastSuccess(evs: seq<Evaluation>, key: Key): (r: Option<nat>)
    ensures r.Some? ==> r.value < |evs|
  {
    if evs == [] then None
    else if Sight(evs[|evs| - 1], key).Some? then Some(|evs| - 1)
    else LastSuccess(evs[..|evs| - 1], key)
  }

  ghost predicate ClockOrdered(evs: seq<Evaluation>) {
    forall i, j :: 0 <= i <= j < |evs| ==> evs[i].now <= evs[j].now
  }

  ghost predicate FixedFor(evs: seq<Evaluation>, key: Key, forD: Int64) {
    forall i :: 0 <= i < |evs| && evs[i].rule.id == key.rule ==> ForDuration(evs[i].rule) == forD
  }

  /** A series with an instance is never refused. */
  ghost predicate NeverRefused(evs: seq<Evaluation>, key: Key) {
    forall i :: 0 <= i < |evs| && Sight(evs[i], key) == Some(Refused) ==> LifeOf(evs[..i], key).track.None?
  }

  lemma {:induction false} RunNeverRefuses(dbs: seq<Db>, evs: seq<Evaluation>, outs: seq<seq<Transition>>, key: Key)
    requires IsRun(dbs, evs, outs)
    ensures NeverRefused(evs, key)
    decreases |evs|
  {
    hide Evaluated;
    hide LifeOf;
    if evs != [] {
      var n := |evs| - 1;
      RunPrefix(dbs, evs, outs);
      RunNeverRefuses(dbs[..n + 1], evs[..n], outs[..n], key);
      RunProjects(dbs[..n + 1], evs[..n], outs[..n], key);
      forall i | 0 <= i < |evs| && Sight(evs[i], key) == Some(Refused) ensures LifeOf(evs[..i], key).track.None? {
        if i < n {
          assert evs[..n][i] == evs[i] && evs[..n][..i] == evs[..i];
        }
      }
    }
  }

  /** Whether the k-th evaluation makes a series fire that is seen since the j-th, given how it was seen first. */
  ghost predicate Due(evs: seq<Evaluation>, key: Key, j: nat, k: nat) {
    && j <= k < |evs| && Sees(evs[k], key)
    && if k == j then ForDuration(evs[k].rule) <= 0
       else Elapsed(evs[k].now, Stored(evs[j].now)) >= ForDuration(evs[k].rule)
  }

  ghost function TrackSince(evs: seq<Evaluation>, key: Key, start: Option<nat>): Option<Track>
    requires start.Some? ==> start.value < |evs|
  {
    match start
    case None => None
    case Some(j) => Some(Track(if exists k :: Due(evs, key, j, k) then StateFiring else StatePending, Stored(evs[j].now)))
  }

  lemma DueSnoc(evs: seq<Evaluation>, key: Key, j: nat)
    requires evs != [] && j < |evs| - 1
    ensures var n := |evs| - 1;
            (exists k :: Due(evs, key, j, k)) <==> (exists k :: Due(evs[..n], key, j, k)) || Due(evs, key, j, n)
  {
    hide Sees;
    hide Stored;
    hide ForDuration;
    hide Elapsed;
    var n := |evs| - 1;
    if k: nat :| Due(evs, key, j, k) {
      assert k < n ==> Due(evs[..n], key, j, k);
    }
    if k: nat :| Due(evs[..n], key, j, k) {
      assert Due(evs, key, j, k);
    }
  }

  /** A series has an instance while its streak lasts, active since the streak began; whatever clock and "for" do,
      it fires once some evaluation of the streak was due. */
  lemma {:induction false} TrackForm(evs: seq<Evaluation>, key: Key)
    requires NeverRefused(evs, key)
    ensures LifeOf(evs, key).track == TrackSince(evs, key, StreakStart(evs, key))
  {
    hide Stored;
    hide ForDuration;
    hide Elapsed;
    hide Due;
    if evs != [] {
      var n := |evs| - 1;
      var front, ev := evs[..n], evs[n];
      assert NeverRefused(front, key) by {
        forall i | 0 <= i < |front| && Sight(front[i], key) == Some(Refused) ensures LifeOf(front[..i], key).track.None? {
          assert front[..i] == evs[..i] && front[i] == evs[i];
        }
      }
      TrackForm(front, key);
      var start := StreakStart(front, key);
      if start.Some? {
        var j := start.value;
        DueSnoc(evs, key, j);
        StoredTwice(evs[j].now);
        assert Due(evs, key, j, n) <==> Sees(ev, key) && Elapsed(ev.now, Stored(evs[j].now)) >= ForDuration(ev.rule) by {
          NewlyDue(evs, key, j);
        }
      } else if Sees(ev, key) {
        FirstDue(evs, key);
      }
    }
  }

  lemma NewlyDue(evs: seq<Evaluation>, key: Key, j: nat)
    requires evs != [] && j < |evs| - 1
    ensures var n := |evs| - 1;
            Due(evs, key, j, n) <==> Sees(evs[n], key) && Elapsed(evs[n].now, Stored(evs[j].now)) >= ForDuration(evs[n].rule)
  {
  }

  lemma FirstDue(evs: seq<Evaluation>, key: Key)
    requires evs != [] && Sees(evs[|evs| - 1], key)
    ensures var n := |evs| - 1;
            (exists k :: Due(evs, key, n, k)) <==> ForDuration(evs[n].rule) <= 0
  {
    hide Sees;
    hide Stored;
    hide ForDuration;
    hide Elapsed;
    var n := |evs| - 1;
    assert Due(evs, key, n, n) <==> ForDuration(evs[n].rule) <= 0;
  }

  lemma ElapsedReaches(now: int, since: int, forD: Int64)
    requires now >= since
    ensures Elapsed(now, since) >= forD <==> now - since >= forD
  {
  }

  lemma StoredBefore(t: int)
    ensures Stored(t) <= t < Stored(t) + MILLISECOND
  {
  }

  /** An index that starts a streak lasting to the end: it sees the series, nothing breaks it later,
      and every earlier sighting is broken before it. */
  ghost predicate StartsStreak(evs: seq<Evaluation>, key: Key, j: nat) {
    && j < |evs| && Sees(evs[j], key)
    && (forall i :: j < i < |evs| ==> !Breaks(evs[i], key))
    && (forall i :: 0 <= i < j && Sees(evs[i], key) ==> exists k :: i < k < j && Breaks(evs[k], key))
  }

  /** StreakStart is the one index that starts the final streak. */
  lemma {:induction false} StreakMeaning(evs: seq<Evaluation>, key: Key)
    ensures match StreakStart(evs, key)
            case Some(j) => StartsStreak(evs, key, j)
            case None => forall i :: 0 <= i < |evs| && Sees(evs[i], key) ==> exists k :: i < k < |evs| && Breaks(evs[k], key)
  {
    hide Sight;
    if evs != [] {
      var n := |evs| - 1;
      var front := evs[..n];
      StreakMeaning(front, key);
      if Breaks(evs[n], key) {
      } else if StreakStart(front, key).None? {
        BrokenBefore(evs, key, n);
        forall i | 0 <= i < |evs| && Sees(evs[i], key) && i < n ensures exists k :: i < k < |evs| && Breaks(evs[k], key) {
          var k :| i < k < n && Breaks(evs[k], key);
        }
      } else {
        BrokenWithin(evs, key, n, StreakStart(front, key).value);
      }
    }
  }

  lemma BrokenBefore(evs: seq<Evaluation>, key: Key, n: nat)
    requires n <= |evs|
    requires forall i :: 0 <= i < n && Sees(evs[..n][i], key) ==> exists k :: i < k < n && Breaks(evs[..n][k], key)
    ensures forall i :: 0 <= i < n && Sees(evs[i], key) ==> exists k :: i < k < n && Breaks(evs[k], key)
  {
    forall i | 0 <= i < n && Sees(evs[i], key) ensures exists k :: i < k < n && Breaks(evs[k], key) {
      assert Sees(evs[..n][i], key);
      var k :| i < k < n && Breaks(evs[..n][k], key);
      assert Breaks(evs[k], key);
    }
  }

  lemma BrokenWithin(evs: seq<Evaluation>, key: Key, n: nat, j: nat)
    requires n <= |evs| && j < n
    requires forall i :: 0 <= i < j && Sees(evs[..n][i], key) ==> exists k :: i < k < j && Breaks(evs[..n][k], key)
    ensures forall i :: 0 <= i < j && Sees(evs[i], key) ==> exists k :: i < k < j && Breaks(evs[k], key)
  {
    forall i | 0 <= i < j && Sees(evs[i], key) ensures exists k :: i < k < j && Breaks(evs[k], key) {
      assert Sees(evs[..n][i], key);
      var k :| i < k < j && Breaks(evs[..n][k], key);
      assert Breaks(evs[k], key);
    }
  }

  // ---- With an ordered clock and a fixed "for" ----

  lemma {:induction false} LastSeen(evs: seq<Evaluation>, key: Key, j: nat)
    requires StartsStreak(evs, key, j)
    ensures var last := LastSuccess(evs, key);
            && last.Some? && j <= last.value && Sees(evs[last.value], key)
            && forall k :: 0 <= k < |evs| && Sees(evs[k], key) ==> k <= last.value
  {
    var n := |evs| - 1;
    if Sight(evs[n], key).None? {
      var front := evs[..n];
      assert StartsStreak(front, key, j) by {
        assert forall i :: 0 <= i < n ==> front[i] == evs[i];
        forall i | 0 <= i < j && Sees(front[i], key) ensures exists k :: i < k < j && Breaks(front[k], key) {
          assert Sees(evs[i], key);
          var k :| i < k < j && Breaks(evs[k], key);
          assert Breaks(front[k], key);
        }
      }
      LastSeen(front, key, j);
      forall k | 0 <= k < |evs| && Sees(evs[k], key) ensures k <= LastSuccess(evs, key).value {
        assert Sees(front[k], key);
      }
    }
  }

  /** The first evaluation of a streak fires only if there is nothing to wait for, a later one if the "for" has passed by then. */
  ghost predicate FiresBy(evs: seq<Evaluation>, j: nat, last: nat, forD: Int64)
    requires j <= last < |evs|
  {
    forD <= 0 || (j < last && evs[last].now - Stored(evs[j].now) >= forD)
  }

  lemma DueByLast(evs: seq<Evaluation>, key: Key, forD: Int64, j: nat)
    requires ClockOrdered(evs) && FixedFor(evs, key, forD) && StartsStreak(evs, key, j)
    ensures var last := LastSuccess(evs, key);
            && last.Some? && j <= last.value
            && ((exists k :: Due(evs, key, j, k)) <==> FiresBy(evs, j, last.value, forD))
  {
    hide Stored;
    hide ForDuration;
    hide Elapsed;
    LastSeen(evs, key, j);
    var last := LastSuccess(evs, key).value;
    StoredBefore(evs[j].now);
    if k: nat :| Due(evs, key, j, k) {
      if k > j {
        assert Sees(evs[k], key);
        ElapsedReaches(evs[k].now, Stored(evs[j].now), forD);
      }
    }
    if FiresBy(evs, j, last, forD) {
      if forD <= 0 {
        assert Due(evs, key, j, j);
      } else {
        ElapsedReaches(evs[last].now, Stored(evs[j].now), forD);
        assert Due(evs, key, j, last);
      }
    }
  }

  // ---- Histories are chains of lifecycles ----

  /** The state a history ends in: after a resolution the series is OK again. */
  function Current(m: seq<Mark>): State {
    if m == [] || m[|m| - 1].next.StateResolved? then StateOk else m[|m| - 1].next
  }

  /** Every transition is allowed and starts where the one before it ended. */
  ghost predicate Chain(m: seq<Mark>) {
    if m == [] then true
    else
      var front, last := m[..|m| - 1], m[|m| - 1];
      Chain(front) && Allowed(last.prev, last.next) && last.prev == Current(front)
  }

  /** The history of a series is a chain, and its last state is the stored one. */
  lemma {:induction false} LifeIsChain(evs: seq<Evaluation>, key: Key)
    ensures var life := LifeOf(evs, key);
            Chain(life.marks) && Current(life.marks) == if life.track.Some? then life.track.value.state else StateOk
  {
    hide Stored;
    if evs != [] {
      var life, ev := LifeOf(evs[..|evs| - 1], key), evs[|evs| - 1];
      LifeIsChain(evs[..|evs| - 1], key);
      if Sight(ev, key).Some? {
        ObserveKeepsChain(life, Sight(ev, key).value, ForDuration(ev.rule), ev.now);
      }
    }
  }

  lemma ObserveKeepsChain(life: Life, obs: Observation, forD: Int64, now: int)
    requires Chain(life.marks) && Current(life.marks) == if life.track.Some? then life.track.value.state else StateOk
    ensures var r := Observe(life, obs, forD, now);
            Chain(r.marks) && Current(r.marks) == if r.track.Some? then r.track.value.state else StateOk
  {
    hide Stored;
    hide Chain;
    hide Current;
    if !obs.Refused? && (obs.Present? || life.track.Some?) {
      var seen := obs.Present?;
      var cur := if life.track.Some? then life.track.value.state else StateOk;
      var activeAt := if life.track.Some? then life.track.value.activeAt else now;
      var (next, changed) := Next(cur, seen, activeAt, now, forD);
      StatesOfChain(life.marks);
      ChangesAreAllowed(cur, seen, activeAt, now, forD);
      StaysLive(cur, seen, activeAt, now, forD);
      hide Next;
      if changed {
        ChainSnoc(life.marks, Mark(cur, next, Stored(now)));
      }
    }
  }

  lemma StatesOfChain(m: seq<Mark>)
    ensures !Current(m).StateResolved?
  {
  }

  lemma StaysLive(cur: State, seen: bool, activeAt: int, now: int, forD: Int64)
    requires !cur.StateResolved?
    ensures var (next, changed) := Next(cur, seen, activeAt, now, forD);
            !seen && !cur.StateOk? ==> next.StateResolved? && changed
  {
  }

  lemma ChainSnoc(m: seq<Mark>, x: Mark)
    requires Chain(m) && Allowed(x.prev, x.next) && x.prev == Current(m)
    ensures Chain(m + [x])
    ensures Current(m + [x]) == if x.next.StateResolved? then StateOk else x.next
  {
    assert (m + [x])[..|m|] == m;
  }

  /** The changes the evaluations report are exactly what the history holds. */
  lemma {:induction false} ChangesAreHistory(dbs: seq<Db>, evs: seq<Evaluation>, outs: seq<seq<Transition>>)
    requires IsRun(dbs, evs, outs)
    ensures dbs[|evs|].history == Logged(Flattened(outs))
    decreases |evs|
  {
    if evs != [] {
      RunPrefix(dbs, evs, outs);
      hide Steps;
      hide Logged;
      var n := |evs| - 1;
      ChangesAreHistory(dbs[..|evs|], evs[..n], outs[..n]);
      StepLogs(dbs[n], evs[n], dbs[|evs|], outs[n]);
      LoggedConcat(Flattened(outs[..n]), outs[n]);
    } else {
      assert Logged([]) == [];
    }
  }

  lemma StepLogs(before: Db, ev: Evaluation, after: Db, changes: seq<Transition>)
    requires Steps(before, ev, after, changes)
    ensures after.history == before.history + Logged(changes)
  {
    assert Logged([]) == [];
  }

  lemma LoggedConcat(a: seq<Transition>, b: seq<Transition>)
    ensures Logged(a + b) == Logged(a) + Logged(b)
  {
  }

  function Flattened(outs: seq<seq<Transition>>): seq<Transition> {
    if outs == [] then [] else Flattened(outs[..|outs| - 1]) + outs[|outs| - 1]
  }

  // ---- Notifications ----

  datatype Status = FiringNotice | ResolvedNotice

  datatype Notification = Notification(status: Status, change: Transition)

  function StatusOf(next: State): Option<Status> {
    match next
    case StateFiring => Some(FiringNotice)
    case StateResolved => Some(ResolvedNotice)
    case _ => None
  }

  /** The firing and resolved transitions, in order; pending ones are not forwarded. */
  function Forwarded(changes: seq<Transition>): seq<Notification> {
    if changes == [] then []
    else
      var front, c := Forwarded(changes[..|changes| - 1]), changes[|changes| - 1];
      match StatusOf(c.next)
      case None => front
      case Some(s) => front + [Notification(s, c)]
  }

  method ForwardNotifications(changes: seq<Transition>) returns (sent: seq<Notification>)
    ensures sent == Forwarded(changes)
  {
    sent := [];
    for i := 0 to |changes|
      invariant sent == Forwarded(changes[..i])
    {
      assert changes[..i + 1][..i] == changes[..i];
      match changes[i].next {
        case StateFiring => sent := sent + [Notification(FiringNotice, changes[i])];
        case StateResolved => sent := sent + [Notification(ResolvedNotice, changes[i])];
        case _ =>
      }
    }
    assert changes[..|changes|] == changes;
  }

  /** The notices about one series. */
  function NoticesFor(sent: seq<Notification>, key: Key): seq<Status> {
    if sent == [] then []
    else
      var front, n := NoticesFor(sent[..|sent| - 1], key), sent[|sent| - 1];
      if n.change.key == key then front + [n.status] else front
  }

  function Notices(m: seq<Mark>): seq<Status> {
    if m == [] then []
    else
      var front := Notices(m[..|m| - 1]);
      match StatusOf(m[|m| - 1].next)
      case None => front
      case Some(s) => front + [s]
  }

  /** What is forwarded about a series follows from its own transitions. */
  lemma {:induction false} ForwardedByOwn(changes: seq<Transition>, key: Key)
    ensures NoticesFor(Forwarded(changes), key) == Notices(MarksOf(Own(changes, key)))
  {
    hide Stored;
    if changes != [] {
      var front, c := changes[..|changes| - 1], changes[|changes| - 1];
      ForwardedByOwn(front, key);
      var f := Forwarded(front);
      if StatusOf(c.next).Some? {
        assert (f + [Notification(StatusOf(c.next).value, c)])[..|f|] == f;
      }
      var own := Own(front, key);
      if c.key == key {
        assert MarksOf(own + [c])[..|own|] == MarksOf(own);
      }
    }
  }

  /** The series is firing exactly when its last notice says so. */
  lemma {:induction false} LastNotice(m: seq<Mark>)
    requires Chain(m)
    ensures Current(m).StateFiring? <==> Notices(m) != [] && Notices(m)[|Notices(m)| - 1].FiringNotice?
  {
    if m != [] {
      LastNotice(m[..|m| - 1]);
    }
  }

  /** Between two firing notices there is a resolved one. */
  lemma {:induction false} NoDoubleFiring(m: seq<Mark>)
    requires Chain(m)
    ensures var n := Notices(m); forall i :: 0 <= i < |n| - 1 && n[i].FiringNotice? ==> n[i + 1].ResolvedNotice?
  {
    if m != [] {
      var front := m[..|m| - 1];
      NoDoubleFiring(front);
      LastNotice(front);
    }
  }

  /** A resolved notice follows a firing one exactly when the series was firing, not merely pending. */
  lemma ResolvedFollowsFiringIff(m: seq<Mark>, r: Mark)
    requires Chain(m + [r]) && r.next.StateResolved?
    ensures Notices(m + [r]) == Notices(m) + [ResolvedNotice]
    ensures (Notices(m) != [] && Notices(m)[|Notices(m)| - 1].FiringNotice?) <==> r.prev.StateFiring?
  {
    assert (m + [r])[..|m|] == m;
    LastNotice(m);
  }

  // ---- Runs of the evaluator ----

  /** What an evaluation leaves in the store is a step of a run. */
  lemma EvaluationIsStep(before: Db, after: Db, changes: seq<Transition>, rule: Rule, present: map<Bytes, Sample>,
                         fps: seq<Bytes>, max: int, now: int)
    requires IsListing(fps, present.Keys)
    requires var existing := Existing(before.instances, rule.id);
             Evaluated(before, after, changes, rule, present, Admitted(fps, existing, |existing|, max), now)
    ensures var existing := Existing(before.instances, rule.id);
            Steps(before, Evaluation(rule, false, present, Admitted(fps, existing, |existing|, max), now), after, changes)
  {
    hide Evaluated;
    var existing := Existing(before.instances, rule.id);
    var admitted := Admitted(fps, existing, |existing|, max);
    forall fp | fp in present && Key(rule.id, fp) in before.instances ensures fp in admitted {
      ExistingHas(before.instances, Key(rule.id, fp));
      ExistingAdmitted(fps, existing, |existing|, max, fp);
    }
  }

  /** Over a whole run, no series is announced as firing twice without a resolution between. */
  lemma RunNotifications(dbs: seq<Db>, evs: seq<Evaluation>, outs: seq<seq<Transition>>, key: Key)
    requires IsRun(dbs, evs, outs)
    ensures var n := NoticesFor(Forwarded(Flattened(outs)), key);
            && n == Notices(LifeOf(evs, key).marks)
            && forall i :: 0 <= i < |n| - 1 && n[i].FiringNotice? ==> n[i + 1].ResolvedNotice?
  {
    hide IsRun;
    hide Notices;
    hide Flattened;
    hide LifeOf;
    ForwardedByOwn(Flattened(outs), key);
    ChangesAreHistory(dbs, evs, outs);
    RunProjects(dbs, evs, outs, key);
    MarksInLogged([], Flattened(outs), key);
    assert [] + Logged(Flattened(outs)) == Logged(Flattened(outs));
    var own := MarksOf(Own(Flattened(outs), key));
    assert MarksIn([], key) + own == own;
    LifeIsChain(evs, key);
    NoDoubleFiring(LifeOf(evs, key).marks);
  }

  /** Over a whole run, whatever clock and "for" do: a series has an instance while its streak lasts, active since the
      streak began, and firing exactly when some evaluation of the streak was due. */
  lemma RunFiresOnceDue(dbs: seq<Db>, evs: seq<Evaluation>, outs: seq<seq<Transition>>, key: Key)
    requires IsRun(dbs, evs, outs)
    ensures TrackOf(Lookup(dbs[|evs|].instances, key)) == TrackSince(evs, key, StreakStart(evs, key))
  {
    hide IsRun;
    RunProjects(dbs, evs, outs, key);
    RunNeverRefuses(dbs, evs, outs, key);
    TrackForm(evs, key);
  }

  /** With an ordered clock and a fixed "for", last success and start of the streak decide. */
  lemma RunClosedForm(dbs: seq<Db>, evs: seq<Evaluation>, outs: seq<seq<Transition>>, key: Key, forD: Int64)
    requires IsRun(dbs, evs, outs) && ClockOrdered(evs) && FixedFor(evs, key, forD)
    ensures var x, start, last := Lookup(dbs[|evs|].instances, key), StreakStart(evs, key), LastSuccess(evs, key);
            && (x.None? <==> start.None?)
            && (x.Some? ==>
                  && last.Some? && start.value <= last.value
                  && x.value.activeAt == Stored(evs[start.value].now)
                  && x.value.state == (if FiresBy(evs, start.value, last.value, forD) then StateFiring else StatePending))
  {
    hide IsRun;
    hide Stored;
    hide FiresBy;
    RunFiresOnceDue(dbs, evs, outs, key);
    StreakMeaning(evs, key);
    if StreakStart(evs, key).Some? {
      DueByLast(evs, key, forD, StreakStart(evs, key).value);
    }
  }

  /** Durations of whole seconds are zero or at least a millisecond, unless their nanoseconds overflow int64. */
  lemma WholeSeconds(rule: Rule)
    requires 0 <= rule.forS <= 9223372036
    ensures ForDuration(rule) == rule.forS * 1_000_000_000
    ensures ForDuration(rule) <= 0 || ForDuration(rule) >= MILLISECOND
  {
  }

  /** For such a "for", the instance fires exactly when the last success is at least that long after the start of the streak. */
  lemma RunClosedFormInSeconds(dbs: seq<Db>, evs: seq<Evaluation>, outs: seq<seq<Transition>>, key: Key, forD: Int64)
    requires IsRun(dbs, evs, outs) && ClockOrdered(evs) && FixedFor(evs, key, forD)
    requires forD <= 0 || forD >= MILLISECOND
    ensures var x, start, last := Lookup(dbs[|evs|].instances, key), StreakStart(evs, key), LastSuccess(evs, key);
            x.Some? ==>
              && start.Some? && last.Some?
              && x.value.state == (if evs[last.value].now - Stored(evs[start.value].now) >= forD then StateFiring else StatePending)
  {
    hide IsRun;
    hide Stored;
    RunClosedForm(dbs, evs, outs, key, forD);
    var start, last := StreakStart(evs, key), LastSuccess(evs, key);
    if start.Some? && last.Some? {
      StoredBefore(evs[start.value].now);
    }
  }

  lemma RunUpTo(dbs: seq<Db>, evs: seq<Evaluation>, outs: seq<seq<Transition>>, i: nat)
    requires IsRun(dbs, evs, outs) && i <= |evs|
    ensures IsRun(dbs[..i + 1], evs[..i], outs[..i])
  {
    hide Steps;
  }

  lemma {:induction false} LifeKeepsFiring(evs: seq<Evaluation>, key: Key, i: nat)
    requires i <= |evs|
    requires LifeOf(evs[..i], key).track.Some? && LifeOf(evs[..i], key).track.value.state.StateFiring?
    requires forall k :: i <= k < |evs| ==> Sight(evs[k], key) != Some(Absent)
    ensures LifeOf(evs, key).track.Some? && LifeOf(evs, key).track.value.state.StateFiring?
    decreases |evs|
  {
    hide Stored;
    hide Elapsed;
    if i == |evs| {
      assert evs[..i] == evs;
    } else {
      var front := evs[..|evs| - 1];
      assert front[..i] == evs[..i];
      LifeKeepsFiring(front, key, i);
    }
  }

  /** A firing instance keeps firing, whatever clock and "for" do, until an evaluation misses its series. */
  lemma RunKeepsFiring(dbs: seq<Db>, evs: seq<Evaluation>, outs: seq<seq<Transition>>, key: Key, i: nat)
    requires IsRun(dbs, evs, outs) && i <= |evs|
    requires Lookup(dbs[i].instances, key).Some? && Lookup(dbs[i].instances, key).value.state.StateFiring?
    requires forall k :: i <= k < |evs| ==> Sight(evs[k], key) != Some(Absent)
    ensures Lookup(dbs[|evs|].instances, key).Some? && Lookup(dbs[|evs|].instances, key).value.state.StateFiring?
  {
    assert |dbs| == |evs| + 1 && |outs| == |evs|;
    hide IsRun;
    RunUpTo(dbs, evs, outs, i);
    RunProjects(dbs[..i + 1], evs[..i], outs[..i], key);
    RunProjects(dbs, evs, outs, key);
    LifeKeepsFiring(evs, key, i);
  }

  // ---- A series that was only pending ----

  /** A rule with a "for" of a minute, and a run that sees a series once and then no more. */
  ghost function MinuteRule(id: Bytes): Rule { Rule(id, 60, map[], map[]) }

  ghost function OnceSeen(key: Key, s: Sample): seq<Evaluation> {
    [Evaluation(MinuteRule(key.rule), false, map[key.fp := s], {key.fp}, 0),
     Evaluation(MinuteRule(key.rule), false, map[], {}, 1_000_000_000)]
  }

  ghost function PendingInstance(s: Sample): Instance {
    Instance(0, StatePending, s.value, 0, 0, 0, s.labels, map[])
  }

  ghost function Waited(key: Key, s: Sample): Transition {
    Transition(key, StateOk, StatePending, s.value, 0, s.labels, map[])
  }

  ghost function GaveUp(key: Key, s: Sample): Transition {
    Transition(key, StatePending, StateResolved, 0.0, 1_000_000_000, s.labels, map[])
  }

  ghost function OnceSeenStates(key: Key, s: Sample): seq<Db> {
    [EMPTY_DB, Db(map[key := PendingInstance(s)], Logged([Waited(key, s)])),
     Db(map[], Logged([Waited(key, s)]) + Logged([GaveUp(key, s)]))]
  }

  lemma OwnOfOne(c: Transition, key: Key)
    ensures Own([c], key) == if c.key == key then [c] else []
  {
    assert [c][..0] == [];
  }

  lemma OnceSeenWaits(key: Key, s: Sample)
    ensures Steps(OnceSeenStates(key, s)[0], OnceSeen(key, s)[0], OnceSeenStates(key, s)[1], [Waited(key, s)])
  {
    assert s.labels + map[] == s.labels;
    assert Stored(0) == 0;
    forall k: Key ensures Own([Waited(key, s)], k) == if k == key then [Waited(key, s)] else [] {
      OwnOfOne(Waited(key, s), k);
    }
    hide Own;
    hide Stored;
    hide Elapsed;
  }

  lemma OnceSeenGivesUp(key: Key, s: Sample)
    ensures Steps(OnceSeenStates(key, s)[1], OnceSeen(key, s)[1], OnceSeenStates(key, s)[2], [GaveUp(key, s)])
  {
    forall k: Key ensures Own([GaveUp(key, s)], k) == if k == key then [GaveUp(key, s)] else [] {
      OwnOfOne(GaveUp(key, s), k);
    }
    hide Own;
    hide Stored;
    hide Elapsed;
  }

  lemma OnceSeenIsRun(key: Key, s: Sample)
    ensures IsRun(OnceSeenStates(key, s), OnceSeen(key, s), [[Waited(key, s)], [GaveUp(key, s)]])
  {
    hide Steps;
    OnceSeenWaits(key, s);
    OnceSeenGivesUp(key, s);
  }

  /** In this run the series is announced as resolved without ever having been announced as firing. */
  lemma ResolvedWithoutFiring(key: Key, s: Sample)
    ensures var outs := [[Waited(key, s)], [GaveUp(key, s)]];
            && IsRun(OnceSeenStates(key, s), OnceSeen(key, s), outs)
            && NoticesFor(Forwarded(Flattened(outs)), key) == [ResolvedNotice]
  {
    OnceSeenIsRun(key, s);
    hide IsRun;
    hide OnceSeenStates;
    hide OnceSeen;
    FlattenedPair([Waited(key, s)], [GaveUp(key, s)]);
    ForwardedPair(Waited(key, s), GaveUp(key, s));
    OneNotice(Notification(ResolvedNotice, GaveUp(key, s)));
  }

  lemma FlattenedPair(a: seq<Transition>, b: seq<Transition>)
    ensures Flattened([a, b]) == a + b
  {
    assert [a, b][..1] == [a] && [a][..0] == [];
    assert Flattened([a]) == a;
  }

  lemma ForwardedPair(a: Transition, b: Transition)
    requires a.next.StatePending? && b.next.StateResolved?
    ensures Forwarded([a] + [b]) == [Notification(ResolvedNotice, b)]
  {
    assert ([a] + [b])[..1] == [a] && [a][..0] == [];
    assert Forwarded([a]) == [];
  }

  lemma OneNotice(n: Notification)
    ensures NoticesFor([n], n.change.key) == [n.status]
  {
    assert [n][..0] == [];
  }

  // ---- A "for" below a millisecond ----

  /** So many seconds wrap to 512 nanoseconds. */
  ghost function WrappedRule(id: Bytes): Rule { Rule(id, 20211507185753197, map[], map[]) }

  ghost function OneSighting(key: Key, s: Sample): seq<Evaluation> {
    [Evaluation(WrappedRule(key.rule), false, map[key.fp := s], {key.fp}, 600)]
  }

  ghost function FirstSight(key: Key, s: Sample): Transition {
    Transition(key, StateOk, StatePending, s.value, 600, s.labels, map[])
  }

  ghost function SightedStates(key: Key, s: Sample): seq<Db> {
    [EMPTY_DB, Db(map[key := PendingInstance(s)], Logged([FirstSight(key, s)]))]
  }

  lemma FirstSightStep(key: Key, s: Sample)
    ensures ForDuration(WrappedRule(key.rule)) == 512 && Stored(600) == 0
    ensures Steps(SightedStates(key, s)[0], OneSighting(key, s)[0], SightedStates(key, s)[1], [FirstSight(key, s)])
  {
    assert s.labels + map[] == s.labels;
    assert ForDuration(WrappedRule(key.rule)) == 512;
    assert Stored(600) == 0;
    forall k: Key ensures Own([FirstSight(key, s)], k) == if k == key then [FirstSight(key, s)] else [] {
      OwnOfOne(FirstSight(key, s), k);
    }
    hide Own;
    hide Stored;
    hide Elapsed;
    hide ForDuration;
  }

  /** A run with such a "for": the instance is pending although the stored start already lies that far back. */
  lemma ShortForStillPends(key: Key, s: Sample)
    ensures var dbs, evs := SightedStates(key, s), OneSighting(key, s);
            && IsRun(dbs, evs, [[FirstSight(key, s)]])
            && FixedFor(evs, key, 512)
            && Lookup(dbs[1].instances, key) == Some(PendingInstance(s))
            && evs[0].now - PendingInstance(s).activeAt >= 512
  {
    FirstSightStep(key, s);
    hide Steps;
    hide ForDuration;
  }
}
