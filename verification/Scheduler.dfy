/** One task per enabled rule, reconciled with the desired rules. */
module Scheduler {
  import opened Base

  datatype Rule = Rule(id: Bytes, enabled: bool, interval: int)

  /** A task is derived from a root context; it ends when it is cancelled itself or its root is dead. */
  datatype Task = Task(rule: Bytes, interval: int, root: nat, cancelled: bool)

  /**
   * All tasks ever started, the running ones by rule, and the root in use. Each root has the caller's context it
   * derives from, or none; `dead` are the roots that are done, `gone` the callers' contexts that are. `waiting`
   * counts the calls of Stop that wait for tasks to end.
   */
  datatype State = State(tasks: seq<Task>, running: map<Bytes, nat>, root: Option<nat>, parents: seq<Option<nat>>,
                         dead: set<nat>, gone: set<nat>, waiting: nat)

  const INITIAL: State := State([], map[], None, [], {}, {}, 0)

  /** The intervals of the enabled rules with a positive interval; of equal ids the last wins. */
  function Desired(rules: seq<Rule>): map<Bytes, int> {
    if rules == [] then map[]
    else
      var front, r := Desired(rules[..|rules| - 1]), rules[|rules| - 1];
      if r.enabled && r.interval > 0 then front[r.id := r.interval] else front
  }

  ghost predicate Wanted(r: Rule, id: Bytes) { r.id == id && r.enabled && r.interval > 0 }

  /** A rule is desired exactly when it is enabled with a positive interval, at the interval of the last such entry. */
  lemma {:induction false} DesiredExact(rules: seq<Rule>, id: Bytes)
    ensures id in Desired(rules) <==> exists i :: 0 <= i < |rules| && Wanted(rules[i], id)
    ensures id in Desired(rules) ==>
              exists i :: 0 <= i < |rules| && Wanted(rules[i], id) && Desired(rules)[id] == rules[i].interval
                          && forall k :: i < k < |rules| ==> !Wanted(rules[k], id)
  {
    if rules != [] {
      var front, n := rules[..|rules| - 1], |rules| - 1;
      DesiredExact(front, id);
      if i :| 0 <= i < |rules| && Wanted(rules[i], id) {
        assert i < n ==> Wanted(front[i], id);
      }
      if !Wanted(rules[n], id) && id in Desired(front) {
        var i :| 0 <= i < |front| && Wanted(front[i], id) && Desired(front)[id] == front[i].interval
                 && forall k :: i < k < |front| ==> !Wanted(front[k], id);
        assert Wanted(rules[i], id);
        forall k | i < k < |rules| ensures !Wanted(rules[k], id) {
          assert k < n ==> !Wanted(front[k], id);
        }
      } else if Wanted(rules[n], id) {
        assert Desired(rules)[id] == rules[n].interval;
      }
    }
  }

  predicate Live(s: State, i: nat) {
    i < |s.tasks| && !s.tasks[i].cancelled && s.tasks[i].root !in s.dead
  }

  predicate Runs(s: State, i: nat) {
    i < |s.tasks| && s.tasks[i].rule in s.running && s.running[s.tasks[i].rule] == i
  }

  /** A live task that is not in the running map: nothing the scheduler does reaches it. */
  predicate Stray(s: State, i: nat) {
    Live(s, i) && !Runs(s, i)
  }

  /** The tables fit together, and the tasks of the root in use are running unless they are cancelled. */
  ghost predicate Fits(s: State) {
    && (forall id :: id in s.running ==> s.running[id] < |s.tasks| && s.tasks[s.running[id]].rule == id
                                         && !s.tasks[s.running[id]].cancelled)
    && (forall i: nat :: Stray(s, i) ==> s.root != Some(s.tasks[i].root))
    && (forall i :: 0 <= i < |s.tasks| ==> s.tasks[i].root < |s.parents|)
    && (forall r :: r in s.dead ==> r < |s.parents|)
    && (s.root.Some? ==> s.root.value < |s.parents|)
  }

  ghost predicate NoStray(s: State) {
    forall i: nat :: !Stray(s, i)
  }

  /** Every live running task derives from the root in use. */
  ghost predicate Rooted(s: State) {
    forall id :: id in s.running && Live(s, s.running[id]) ==> s.root == Some(s.tasks[s.running[id]].root)
  }

  ghost predicate AtMostOneEach(s: State) {
    forall i: nat, j: nat :: Live(s, i) && Live(s, j) && s.tasks[i].rule == s.tasks[j].rule ==> i == j
  }

  /** What a call of Stop waits for. */
  ghost predicate NothingLive(s: State) {
    forall i: nat :: !Live(s, i)
  }

  // ---- What happens ----

  function WithRoot(s: State, parent: Option<nat>): State {
    s.(root := Some(|s.parents|), parents := s.parents + [parent],
       dead := if parent.Some? && parent.value in s.gone then s.dead + {|s.parents|} else s.dead)
  }

  /** A fresh root under the caller's context; the one before it is forgotten, not cancelled. */
  function Started(s: State, ctx: nat): State { WithRoot(s, Some(ctx)) }

  /** Stop up to its wait: cancels the root in use and with it the tasks derived from it, and forgets all running tasks. */
  function Stopped(s: State): State {
    s.(running := map[], root := None, dead := if s.root.Some? then s.dead + {s.root.value} else s.dead,
       waiting := s.waiting + 1)
  }

  /** The caller's context is done, and with it every root derived from it. */
  function ContextDone(s: State, ctx: nat): State {
    s.(gone := s.gone + {ctx}, dead := s.dead + set r | 0 <= r < |s.parents| && s.parents[r] == Some(ctx) :: r)
  }

  /** The task of a rule survives when its interval is still the desired one. */
  predicate Survives(s: State, desired: map<Bytes, int>, id: Bytes)
    requires id in s.running && s.running[id] < |s.tasks|
  {
    id in desired && desired[id] == s.tasks[s.running[id]].interval
  }

  predicate Stale(s: State, desired: map<Bytes, int>, i: nat) {
    Runs(s, i) && !(s.tasks[i].rule in desired && desired[s.tasks[i].rule] == s.tasks[i].interval)
  }

  /** What reconciling does, whatever the order in which the maps are walked. */
  ghost predicate Reconciled(s: State, desired: map<Bytes, int>, t: State)
    requires Fits(s)
  {
    var u := if s.root.None? then WithRoot(s, None) else s;
    && t.root == u.root && t.parents == u.parents && t.dead == u.dead && t.gone == u.gone && t.waiting == u.waiting
    && t.running.Keys == desired.Keys
    && |s.tasks| <= |t.tasks|
    && (forall i :: 0 <= i < |s.tasks| ==> t.tasks[i] == s.tasks[i].(cancelled := s.tasks[i].cancelled || Stale(s, desired, i)))
    && (forall id :: id in s.running && Survives(s, desired, id) ==> t.running[id] == s.running[id])
    && (forall id :: id in desired && !(id in s.running && Survives(s, desired, id)) ==>
          |s.tasks| <= t.running[id] < |t.tasks| && t.tasks[t.running[id]] == Task(id, desired[id], t.root.value, false))
    && (forall i :: |s.tasks| <= i < |t.tasks| ==> t.tasks[i].rule in t.running && t.running[t.tasks[i].rule] == i)
  }

  /** The calls, in any order and from any goroutines; a Stop returns when nothing is live any more. */
  datatype Event = Start(ctx: nat) | Reconcile(rules: seq<Rule>) | Stop | StopReturns | Done(ctx: nat)

  ghost predicate Steps(s: State, ev: Event, t: State)
    requires Fits(s)
  {
    match ev
    case Start(ctx) => t == Started(s, ctx)
    case Reconcile(rules) => Reconciled(s, Desired(rules), t)
    case Stop => t == Stopped(s)
    case StopReturns => s.waiting > 0 && NothingLive(s) && t == s.(waiting := s.waiting - 1)
    case Done(ctx) => t == ContextDone(s, ctx)
  }

  // ---- Single steps ----

  lemma ReconcileFits(s: State, desired: map<Bytes, int>, t: State)
    requires Fits(s) && Reconciled(s, desired, t)
    ensures Fits(t)
    ensures forall i: nat :: Stray(t, i) ==> Stray(s, i)
  {
    forall i: nat | Stray(t, i) ensures Stray(s, i) {
      assert i < |s.tasks|;
      if Runs(s, i) {
        assert !Stale(s, desired, i);
        assert Survives(s, desired, s.tasks[i].rule);
      }
    }
    if s.root.None? {
      forall i: nat | Stray(t, i) ensures t.root != Some(t.tasks[i].root) {
        assert Stray(s, i);
      }
    }
  }

  lemma StepFits(s: State, ev: Event, t: State)
    requires Fits(s) && Steps(s, ev, t)
    ensures Fits(t)
  {
    match ev
    case Start(ctx) =>
      forall i: nat | Stray(t, i) ensures t.root != Some(t.tasks[i].root) {
        assert s.tasks[i].root < |s.parents|;
      }
    case Reconcile(rules) => ReconcileFits(s, Desired(rules), t);
    case Stop =>
    case StopReturns =>
    case Done(ctx) =>
      forall i: nat | Stray(t, i) ensures t.root != Some(t.tasks[i].root) {
        assert Stray(s, i);
      }
  }

  /** A Stop is done waiting at once, and leaves no stray, exactly when there is none and all live running tasks derive
      from the root in use. */
  lemma StopExact(s: State)
    requires Fits(s)
    ensures NothingLive(Stopped(s)) <==> Rooted(s) && NoStray(s)
    ensures NoStray(Stopped(s)) <==> Rooted(s) && NoStray(s)
  {
    var t := Stopped(s);
    if Rooted(s) && NoStray(s) {
      forall i: nat ensures !Live(t, i) {
        if Live(t, i) {
          assert Live(s, i) && !Stray(s, i);
        }
      }
    } else if !Rooted(s) {
      var id :| id in s.running && Live(s, s.running[id]) && s.root != Some(s.tasks[s.running[id]].root);
      assert Stray(t, s.running[id]) && Live(t, s.running[id]);
    } else {
      var i: nat :| Stray(s, i);
      assert Stray(t, i) && Live(t, i);
    }
  }

  /** Only a Stop while some live task is of an older root makes strays. */
  lemma StraysComeFromStops(s: State, ev: Event, t: State)
    requires Fits(s) && NoStray(s) && Steps(s, ev, t)
    ensures NoStray(t) <==> !(ev.Stop? && !Rooted(s))
  {
    match ev
    case Start(ctx) =>
      forall i: nat ensures !Stray(t, i) {
        assert !Stray(s, i);
      }
    case Reconcile(rules) => ReconcileFits(s, Desired(rules), t);
    case Stop => StopExact(s);
    case StopReturns =>
    case Done(ctx) =>
      forall i: nat ensures !Stray(t, i) {
        assert !Stray(s, i);
      }
  }

  /** A stray stays one whatever is called; only the end of the caller's context behind its root ends it. */
  lemma StrayStays(s: State, ev: Event, t: State, i: nat)
    requires Fits(s) && Steps(s, ev, t) && Stray(s, i)
    requires ev.Done? ==> s.parents[s.tasks[i].root] != Some(ev.ctx)
    ensures Stray(t, i)
    ensures t.tasks[i].root == s.tasks[i].root && t.parents[t.tasks[i].root] == s.parents[s.tasks[i].root]
  {
    if ev.Reconcile? {
      var desired := Desired(ev.rules);
      hide Desired;
      assert t.tasks[i] == s.tasks[i];
    }
  }

  /** After reconciling, the running tasks are exactly the desired rules with their intervals, unchanged rules keep theirs,
      and what is live is what runs under a root that is not dead, and the strays there were. */
  lemma ReconcileExact(s: State, rules: seq<Rule>, t: State)
    requires Fits(s) && Reconciled(s, Desired(rules), t)
    ensures t.running.Keys == Desired(rules).Keys
    ensures forall id :: id in t.running ==>
              && Runs(t, t.running[id]) && t.tasks[t.running[id]].rule == id && t.tasks[t.running[id]].interval == Desired(rules)[id]
    ensures forall i: nat :: Live(t, i) <==> (Runs(t, i) && t.tasks[i].root !in t.dead) || Stray(s, i)
    ensures forall id :: id in s.running && id in Desired(rules) && s.tasks[s.running[id]].interval == Desired(rules)[id] ==>
              t.running[id] == s.running[id]
  {
    ReconcileFits(s, Desired(rules), t);
    forall i: nat | Stray(s, i) ensures Stray(t, i) {
      StrayStays(s, Reconcile(rules), t, i);
    }
    hide Desired;
    forall i: nat ensures Live(t, i) <==> (Runs(t, i) && t.tasks[i].root !in t.dead) || Stray(s, i) {
      assert Stray(t, i) <==> Stray(s, i);
      assert Runs(t, i) ==> t.running[t.tasks[i].rule] == i;
    }
  }

  /** Every root in use is fit for tasks, and every running task lives. */
  ghost predicate Armed(s: State) {
    && (s.root.Some? ==> s.root.value !in s.dead)
    && forall id :: id in s.running ==> s.running[id] < |s.tasks| && s.tasks[s.running[id]].root !in s.dead
  }

  /** Then the live tasks are exactly the desired rules. */
  lemma ReconcileArmed(s: State, rules: seq<Rule>, t: State)
    requires Fits(s) && NoStray(s) && Armed(s) && Reconciled(s, Desired(rules), t)
    ensures Armed(t)
    ensures forall i: nat :: Live(t, i) ==> t.tasks[i].rule in Desired(rules) && t.running[t.tasks[i].rule] == i
    ensures forall id :: id in Desired(rules) ==> id in t.running && Live(t, t.running[id]) && t.tasks[t.running[id]].rule == id
  {
    ReconcileExact(s, rules, t);
    hide Desired;
    var desired := Desired(rules);
    forall id | id in t.running ensures t.tasks[t.running[id]].root !in t.dead {
      if id in s.running && Survives(s, desired, id) {
        assert t.tasks[s.running[id]].root == s.tasks[s.running[id]].root;
        assert s.tasks[s.running[id]].root < |s.parents|;
      }
    }
  }

  /** Reconciling gives a rule a second live task exactly when a stray of a desired rule is left behind its new task. */
  lemma ReconcileDoublesIff(s: State, rules: seq<Rule>, t: State)
    requires Fits(s) && AtMostOneEach(s) && Reconciled(s, Desired(rules), t)
    ensures AtMostOneEach(t) <==>
            !exists i: nat :: Stray(s, i) && s.tasks[i].rule in Desired(rules) && Live(t, t.running[s.tasks[i].rule])
  {
    ReconcileExact(s, rules, t);
    forall i: nat | Stray(s, i) ensures Stray(t, i) && t.tasks[i].rule == s.tasks[i].rule {
      StrayStays(s, Reconcile(rules), t, i);
    }
    hide Desired;
    if i: nat :| Stray(s, i) && s.tasks[i].rule in Desired(rules) && Live(t, t.running[s.tasks[i].rule]) {
      var k := t.running[s.tasks[i].rule];
      assert Live(t, i) && Live(t, k) && t.tasks[i].rule == t.tasks[k].rule && i != k;
    } else {
      forall i: nat, j: nat | Live(t, i) && Live(t, j) && t.tasks[i].rule == t.tasks[j].rule ensures i == j {
        if Stray(s, i) && Stray(s, j) {
          assert Live(s, i) && Live(s, j);
        }
      }
    }
  }

  /** Reconciling after a stop starts a new live task for every desired rule, whatever was there before. */
  lemma ReconcileRearms(s: State, rules: seq<Rule>, t: State)
    requires Fits(s) && Reconciled(Stopped(s), Desired(rules), t)
    ensures forall id :: id in Desired(rules) ==>
              id in t.running && |s.tasks| <= t.running[id] && Live(t, t.running[id]) && t.tasks[t.running[id]].rule == id
    ensures Rooted(t)
  {
    hide Desired;
    assert |s.parents| !in Stopped(s).dead;
  }

  // ---- Whole runs ----

  /** A run of any calls, interleaved in any way. */
  ghost predicate IsRun(states: seq<State>, evs: seq<Event>) {
    && |states| == |evs| + 1
    && states[0] == INITIAL
    && forall i :: 0 <= i < |evs| ==> Fits(states[i]) && Steps(states[i], evs[i], states[i + 1])
  }

  lemma RunStep(states: seq<State>, evs: seq<Event>, i: nat)
    requires IsRun(states, evs) && i < |evs|
    ensures Fits(states[i]) && Steps(states[i], evs[i], states[i + 1]) && Fits(states[i + 1])
  {
    StepFits(states[i], evs[i], states[i + 1]);
  }

  /** Whether the last call before the n-th step is a Stop that has not returned; callers' contexts may have ended since. */
  ghost predicate Stopping(evs: seq<Event>, n: nat)
    requires n <= |evs|
  {
    n > 0 && (evs[n - 1].Stop? || (evs[n - 1].Done? && Stopping(evs, n - 1)))
  }

  /** The caller of a Stop waits for it before calling anything else. */
  ghost predicate Sequential(evs: seq<Event>) {
    forall n :: 0 <= n < |evs| && Stopping(evs, n) ==> evs[n].StopReturns? || evs[n].Done?
  }

  lemma NoStrayAtMostOne(s: State)
    requires NoStray(s)
    ensures AtMostOneEach(s)
  {
    forall i: nat, j: nat | Live(s, i) && Live(s, j) && s.tasks[i].rule == s.tasks[j].rule ensures i == j {
      assert !Stray(s, i) && !Stray(s, j);
    }
  }

  /** If no other call overlaps a Stop, no order of calls leaves a stray behind it, and a rule never has two live tasks:
      a Start while tasks run and a Reconcile before the first Start included. */
  lemma {:induction false} RunIsSafe(states: seq<State>, evs: seq<Event>, n: nat)
    requires IsRun(states, evs) && Sequential(evs) && n < |states|
    ensures !Stopping(evs, n) ==> NoStray(states[n])
    ensures AtMostOneEach(states[n])
  {
    hide Steps;
    hide Fits;
    hide Stray;
    hide Live;
    if n == 0 {
      InitialFits();
    } else {
      RunIsSafe(states, evs, n - 1);
      RunStep(states, evs, n - 1);
      var s, ev, t := states[n - 1], evs[n - 1], states[n];
      if ev.Done? {
        DoneEndsOnly(s, ev.ctx, t);
      }
      if ev.StopReturns? {
        ReturnsClean(s, ev, t);
      } else if !Stopping(evs, n - 1) {
        StraysComeFromStops(s, ev, t);
        if ev.Stop? {
          StopIs(s, t);
          StopKeepsAtMostOne(s);
        }
      }
      NoStrayAtMostOneIf(t);
    }
  }

  /** The end of a caller's context only ends tasks. */
  lemma DoneEndsOnly(s: State, ctx: nat, t: State)
    requires Fits(s) && Steps(s, Done(ctx), t)
    ensures AtMostOneEach(s) ==> AtMostOneEach(t)
  {
    forall i: nat | Live(t, i) ensures Live(s, i) && t.tasks[i] == s.tasks[i] {
    }
  }

  lemma NoStrayAtMostOneIf(s: State)
    ensures NoStray(s) ==> AtMostOneEach(s)
  {
    if NoStray(s) {
      NoStrayAtMostOne(s);
    }
  }

  lemma InitialFits()
    ensures Fits(INITIAL) && NoStray(INITIAL) && AtMostOneEach(INITIAL)
  {
  }

  lemma StopIs(s: State, t: State)
    requires Fits(s) && Steps(s, Stop, t)
    ensures t == Stopped(s)
  {
  }

  lemma StopKeepsAtMostOne(s: State)
    requires AtMostOneEach(s)
    ensures AtMostOneEach(Stopped(s))
  {
    forall i: nat | Live(Stopped(s), i) ensures Live(s, i) {
    }
  }

  lemma ReturnsClean(s: State, ev: Event, t: State)
    requires Fits(s) && Steps(s, ev, t) && ev.StopReturns?
    ensures NoStray(t)
  {
    forall i: nat ensures !Live(t, i) {
      assert !Live(s, i);
    }
  }

  /** A stray under a root without a caller's context is live for ever, and no Stop returns again. */
  lemma {:induction false} OrphanForever(states: seq<State>, evs: seq<Event>, i: nat, m: nat, n: nat)
    requires IsRun(states, evs) && m <= n < |states|
    requires Stray(states[m], i) && i < |states[m].tasks| && states[m].tasks[i].root < |states[m].parents|
    requires states[m].parents[states[m].tasks[i].root] == None
    ensures Stray(states[n], i) && i < |states[n].tasks| && states[n].tasks[i].root < |states[n].parents|
    ensures states[n].parents[states[n].tasks[i].root] == None
    ensures forall k :: m <= k < n ==> !evs[k].StopReturns?
    decreases n
  {
    if m < n {
      OrphanForever(states, evs, i, m, n - 1);
      var s, ev, t := states[n - 1], evs[n - 1], states[n];
      RunStep(states, evs, n - 1);
      StrayStays(s, ev, t, i);
      assert Live(s, i);
      assert !NothingLive(s);
    }
  }

  /** If a Stop returns in a run in which no caller's context ends, then there was no stray at any time before. */
  lemma ReturnedStopWasSafe(states: seq<State>, evs: seq<Event>, m: nat, n: nat)
    requires IsRun(states, evs) && m <= n < |evs| && evs[n].StopReturns?
    requires forall k :: 0 <= k < n ==> !evs[k].Done?
    ensures NoStray(states[m]) && AtMostOneEach(states[m])
  {
    RunStep(states, evs, n);
    assert forall i: nat :: !Live(states[n], i);
    forall i: nat ensures !Stray(states[m], i) {
      if Stray(states[m], i) {
        StrayLasts(states, evs, i, m, n);
      }
    }
    NoStrayAtMostOne(states[m]);
  }

  lemma {:induction false} StrayLasts(states: seq<State>, evs: seq<Event>, i: nat, m: nat, n: nat)
    requires IsRun(states, evs) && m <= n < |states| && Stray(states[m], i)
    requires forall k :: 0 <= k < n ==> !evs[k].Done?
    ensures Stray(states[n], i)
    decreases n
  {
    if m < n {
      StrayLasts(states, evs, i, m, n - 1);
      RunStep(states, evs, n - 1);
      StrayStays(states[n - 1], evs[n - 1], states[n], i);
    }
  }

  // ---- A Reconcile before the first Start ----

  /** The rule that is scheduled, the state after Reconcile, Start, Stop, and that state reconciled by another goroutine. */
  ghost function Early(rule: Bytes): State {
    State([Task(rule, 1, 0, false)], map[rule := 0], Some(0), [None], {}, {}, 0)
  }

  ghost function Hung(rule: Bytes, ctx: nat): State {
    Stopped(Started(Early(rule), ctx))
  }

  ghost function Doubled(rule: Bytes, ctx: nat): State {
    State([Task(rule, 1, 0, false), Task(rule, 1, 2, false)], map[rule := 1], Some(2), [None, Some(ctx), None], {1}, {}, 1)
  }

  /** Reconcile, Start, Stop is a run after which that Stop never returns, and neither does any other, whatever happens next. */
  lemma EarlyReconcileHangs(rule: Bytes, ctx: nat)
    ensures var evs := [Reconcile([Rule(rule, true, 1)]), Start(ctx), Stop];
            && IsRun([INITIAL, Early(rule), Started(Early(rule), ctx), Hung(rule, ctx)], evs)
            && Stray(Hung(rule, ctx), 0) && Hung(rule, ctx).parents[0] == None && Hung(rule, ctx).waiting == 1
  {
    var r := Rule(rule, true, 1);
    assert [r][..0] == [];
    assert Desired([r]) == map[rule := 1];
    InitialFits();
    assert Reconciled(INITIAL, Desired([r]), Early(rule));
    StepFits(INITIAL, Reconcile([r]), Early(rule));
    StepFits(Early(rule), Start(ctx), Started(Early(rule), ctx));
    assert Live(Hung(rule, ctx), 0);
  }

  /** While it hangs, a Reconcile from another goroutine gives the rule a second live task. */
  lemma HungStopDoubles(rule: Bytes, ctx: nat)
    ensures Fits(Hung(rule, ctx))
    ensures Steps(Hung(rule, ctx), Reconcile([Rule(rule, true, 1)]), Doubled(rule, ctx))
    ensures var t := Doubled(rule, ctx); Live(t, 0) && Live(t, 1) && t.tasks[0].rule == t.tasks[1].rule == rule
  {
    var r := Rule(rule, true, 1);
    assert [r][..0] == [];
    assert Desired([r]) == map[rule := 1];
  }

  // ---- The scheduler object ----

  class Scheduler {
    var tasks: seq<Task>
    var running: map<Bytes, nat>
    var root: Option<nat>
    var parents: seq<Option<nat>>
    var dead: set<nat>
    var gone: set<nat>
    var waiting: nat

    constructor ()
      ensures View() == INITIAL
    {
      tasks, running, root, parents, dead, gone, waiting := [], map[], None, [], {}, {}, 0;
    }

    ghost function View(): State
      reads this
    {
      State(tasks, running, root, parents, dead, gone, waiting)
    }

    /** context.WithCancel: a root under a context that is done is done at once. */
    method NewRoot(parent: Option<nat>)
      modifies this`root, this`parents, this`dead
      ensures View() == WithRoot(old(View()), parent)
    {
      if parent.Some? && parent.value in gone {
        dead := dead + {|parents|};
      }
      root := Some(|parents|);
      parents := parents + [parent];
    }

    method Start(ctx: nat)
      modifies this
      ensures View() == Started(old(View()), ctx)
    {
      NewRoot(Some(ctx));
    }

    /** Cancels, forgets, and waits; `returned` says whether the wait is over without anything else happening. */
    method Stop() returns (returned: bool)
      modifies this
      ensures returned <==> NothingLive(Stopped(old(View())))
      ensures View() == if returned then Stopped(old(View())).(waiting := old(waiting)) else Stopped(old(View()))
    {
      if root.Some? {
        dead := dead + {root.value};
      }
      running := map[];
      root := None;
      waiting := waiting + 1;
      returned := Wait();
      if returned {
        waiting := waiting - 1;
      }
    }

    /** What the end of a caller's context does to the roots derived from it. */
    method EndContext(ctx: nat)
      modifies this`dead, this`gone
      ensures View() == ContextDone(old(View()), ctx)
    {
      gone := gone + {ctx};
      dead := dead + set r | 0 <= r < |parents| && parents[r] == Some(ctx) :: r;
    }

    /** Whether every task has been told to end. */
    method Wait() returns (over: bool)
      ensures over <==> NothingLive(View())
    {
      for i := 0 to |tasks|
        invariant forall k: nat :: k < i ==> !Live(View(), k)
      {
        if !tasks[i].cancelled && tasks[i].root !in dead {
          assert Live(View(), i);
          return false;
        }
      }
      return true;
    }

    /** Makes the running tasks match the enabled rules with a positive interval. */
    method Reconcile(rules: seq<Rule>)
      requires Fits(View())
      modifies this
      ensures Reconciled(old(View()), Desired(rules), View())
    {
      ghost var before := View();
      if root.None? {
        NewRoot(None);
      }
      var desired := map[];
      for i := 0 to |rules|
        invariant desired == Desired(rules[..i])
      {
        assert rules[..i + 1][..i] == rules[..i];
        if rules[i].enabled && rules[i].interval > 0 {
          desired := desired[rules[i].id := rules[i].interval];
        }
      }
      assert rules[..|rules|] == rules;
      hide Desired;
      tasks, running := CancelStale(tasks, running, desired, before);
      tasks, running := StartMissing(tasks, running, desired, root.value, before);
    }
  }

  /** Between the two loops: stale tasks are cancelled and forgotten, the others untouched. */
  ghost predicate Pruned(s: State, desired: map<Bytes, int>, tasks: seq<Task>, running: map<Bytes, nat>)
    requires Fits(s)
  {
    && |tasks| == |s.tasks|
    && (forall id :: id in running <==> id in s.running && Survives(s, desired, id))
    && (forall id :: id in running ==> running[id] == s.running[id])
    && (forall i :: 0 <= i < |tasks| ==>
          tasks[i] == s.tasks[i].(cancelled := s.tasks[i].cancelled || Stale(s, desired, i)))
  }

  /** The first loop: over the running tasks in any order. */
  method CancelStale(tasks: seq<Task>, running: map<Bytes, nat>, desired: map<Bytes, int>, ghost s: State)
    returns (left: seq<Task>, kept: map<Bytes, nat>)
    requires Fits(s) && tasks == s.tasks && running == s.running
    ensures Pruned(s, desired, left, kept)
  {
    left, kept := tasks, running;
    var todo := running.Keys;
    while todo != {}
      invariant todo <= running.Keys && |left| == |tasks|
      invariant forall id :: id in kept <==> id in running && (id in todo || Survives(s, desired, id))
      invariant forall id :: id in kept ==> kept[id] == running[id]
      invariant forall i :: 0 <= i < |left| ==>
                  left[i] == s.tasks[i].(cancelled := s.tasks[i].cancelled ||
                                                      (s.tasks[i].rule !in todo && Stale(s, desired, i)))
    {
      var id :| id in todo;
      var k := running[id];
      if id !in desired || desired[id] != left[k].interval {
        left := left[k := left[k].(cancelled := true)];
        kept := kept - {id};
      }
      todo := todo - {id};
    }
  }

  /** The second loop: over the desired rules in any order. */
  method StartMissing(tasks: seq<Task>, running: map<Bytes, nat>, desired: map<Bytes, int>, root: nat, ghost s: State)
    returns (all: seq<Task>, now: map<Bytes, nat>)
    requires Fits(s) && Pruned(s, desired, tasks, running)
    ensures |tasks| <= |all| && all[..|tasks|] == tasks
    ensures now.Keys == desired.Keys
    ensures forall id :: id in running ==> now[id] == running[id]
    ensures forall id :: id in desired && id !in running ==>
              |tasks| <= now[id] < |all| && all[now[id]] == Task(id, desired[id], root, false)
    ensures forall i :: |tasks| <= i < |all| ==> all[i].rule in now && now[all[i].rule] == i
  {
    all, now := tasks, running;
    var todo := desired.Keys;
    while todo != {}
      invariant todo <= desired.Keys && |tasks| <= |all| && all[..|tasks|] == tasks
      invariant forall id :: id in now <==> id in running || (id in desired && id !in todo)
      invariant forall id :: id in running ==> now[id] == running[id]
      invariant forall id :: id in now && id !in running ==>
                  |tasks| <= now[id] < |all| && all[now[id]] == Task(id, desired[id], root, false)
      invariant forall i :: |tasks| <= i < |all| ==> all[i].rule in now && now[all[i].rule] == i
    {
      var id :| id in todo;
      todo := todo - {id};
      if id in now {
        continue;
      }
      now := now[id := |all|];
      all := all + [Task(id, desired[id], root, false)];
    }
  }
}
