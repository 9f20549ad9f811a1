/** Delivering notifications: a bounded buffer, one worker with retries, and an orderly stop. */
module Dispatcher {
  import opened Base
  import AlertRuns

  // ---- Backoff ----

  const MILLIS: int := 1_000_000
  const FIRST_DELAY: int := 200 * MILLIS
  const MAX_DELAY: int := 5000 * MILLIS

  function Pow2(n: nat): (p: nat)
    ensures p >= 1
  {
    if n == 0 then 1 else 2 * Pow2(n - 1)
  }

  /** Go's `<<` on int64. */
  function ShiftLeft(x: Int64, n: nat): Int64 { Wrap64(x * Pow2(n)) }

  /** The delay before retrying an attempt. */
  function ExpBackoff(attempt: nat): int {
    var d := ShiftLeft(FIRST_DELAY, attempt);
    if d > MAX_DELAY || d <= 0 then MAX_DELAY else d
  }

  lemma {:induction false} Pow2Adds(a: nat, b: nat)
    ensures Pow2(a + b) == Pow2(a) * Pow2(b)
  {
    if a > 0 {
      Pow2Adds(a - 1, b);
      assert Pow2(a) * Pow2(b) == 2 * (Pow2(a - 1) * Pow2(b));
    }
  }

  lemma {:induction false} Pow2Monotone(a: nat, b: nat)
    requires a <= b
    ensures Pow2(a) <= Pow2(b)
    decreases b
  {
    if a < b {
      Pow2Monotone(a, b - 1);
    }
  }

  lemma Pow2Facts()
    ensures Pow2(5) == 32 && Pow2(35) == 34359738368 && Pow2(36) == 68719476736
  {
    assert Pow2(5) == 32;
    Pow2Adds(5, 5);
    Pow2Adds(10, 5);
    Pow2Adds(15, 15);
    Pow2Adds(30, 5);
    Pow2Adds(1, 35);
  }

  /** Where the shift wraps, its value is a multiple of 2^45, so it is not in (0, 5s]. */
  lemma WrappedIsFar(k: int)
    ensures var w := Wrap64(35184372088832 * k); w <= 0 || w >= 35184372088832
  {
    var m := 35184372088832;
    assert TWO_63 == m * 262144 && TWO_64 == m * 524288;
    var w := Wrap64(m * k);
    var q := (m * k + TWO_63) / TWO_64;
    assert w == m * k - q * TWO_64;
    assert w == m * (k - q * 524288);
    var r := k - q * 524288;
    if r >= 1 {
      assert m * r >= m;
    } else {
      assert m * r <= 0;
    }
  }

  lemma SmallShift(attempt: nat)
    requires attempt <= 35
    ensures ShiftLeft(FIRST_DELAY, attempt) == FIRST_DELAY * Pow2(attempt) > 0
  {
    Pow2Facts();
    Pow2Monotone(attempt, 35);
    hide Pow2;
    var p := Pow2(attempt);
    assert 200_000_000 <= 200_000_000 * p <= 200_000_000 * 34359738368;
  }

  lemma LargeShift(attempt: nat)
    requires attempt >= 36
    ensures FIRST_DELAY * Pow2(attempt) > MAX_DELAY
    ensures var d := ShiftLeft(FIRST_DELAY, attempt); d > MAX_DELAY || d <= 0
  {
    Pow2Facts();
    Pow2Adds(36, attempt - 36);
    hide Pow2;
    hide Wrap64;
    var p := Pow2(attempt - 36);
    var k := 390625 * p;
    assert 200_000_000 * (68719476736 * p) == 35184372088832 * k;
    WrappedIsFar(k);
  }

  /** The delay is 200ms doubled per attempt and capped at 5s, for every attempt number. */
  lemma BackoffExact(attempt: nat)
    ensures ExpBackoff(attempt) == if FIRST_DELAY * Pow2(attempt) <= MAX_DELAY then FIRST_DELAY * Pow2(attempt) else MAX_DELAY
  {
    hide ShiftLeft;
    hide Pow2;
    if attempt <= 35 {
      SmallShift(attempt);
    } else {
      LargeShift(attempt);
    }
  }

  /** Delays never decrease and stay within [200ms, 5s]. */
  lemma BackoffMonotone(a: nat, b: nat)
    requires a <= b
    ensures FIRST_DELAY <= ExpBackoff(a) <= ExpBackoff(b) <= MAX_DELAY
  {
    BackoffExact(a);
    BackoffExact(b);
    Pow2Monotone(a, b);
    hide ExpBackoff;
    hide Pow2;
    assert FIRST_DELAY * Pow2(a) <= FIRST_DELAY * Pow2(b);
  }

  // ---- One notification with its retries ----

  type Item = AlertRuns.Notification

  /** The queue bound, the number of retries, and the severity filter. */
  datatype Config = Config(capacity: nat, maxRetries: int, keeps: Item -> bool)

  datatype SendResult = Delivered | Permanent | Retryable

  datatype Fate = Sent | Failed | Filtered

  /** What a send attempt leads to; None means another attempt after a pause. */
  function Verdict(cfg: Config, result: SendResult, canceled: bool, attempt: nat): Option<Fate> {
    match result
    case Delivered => Some(Sent)
    case Permanent => Some(Failed)
    case Retryable => if canceled || attempt >= cfg.maxRetries then Some(Failed) else None
  }

  /** The outside world of one delivery: each attempt's result, and whether the context is canceled by then or in the pause after. */
  datatype Outside = Outside(send: nat -> SendResult, canceled: nat -> bool, aborted: nat -> bool)

  /** The number of attempts a delivery may take. */
  function AttemptBound(cfg: Config): nat { if cfg.maxRetries > 0 then cfg.maxRetries + 1 else 1 }

  /** Tries until a verdict; the delays of the pauses are returned. */
  method SendWithRetry(cfg: Config, o: Outside) returns (fate: Fate, attempts: nat, delays: seq<int>)
    ensures 1 <= attempts <= AttemptBound(cfg)
    ensures forall k :: 0 <= k < attempts - 1 ==> Verdict(cfg, o.send(k), o.canceled(k), k).None? && !o.aborted(k)
    ensures var v := Verdict(cfg, o.send(attempts - 1), o.canceled(attempts - 1), attempts - 1);
            (v.None? ==> o.aborted(attempts - 1)) && fate == if v.Some? then v.value else Failed
    ensures |delays| == attempts - 1 && forall k :: 0 <= k < |delays| ==> delays[k] == ExpBackoff(k)
    ensures forall k :: 0 <= k < attempts - 1 ==> o.send(k) == Retryable && !o.canceled(k) && !o.aborted(k)
    ensures fate == if o.send(attempts - 1) == Delivered then Sent else Failed
    ensures o.send(attempts - 1) == Retryable ==>
              o.canceled(attempts - 1) || o.aborted(attempts - 1) || attempts - 1 >= cfg.maxRetries
  {
    hide ExpBackoff;
    delays := [];
    var attempt := 0;
    while true
      invariant attempt < AttemptBound(cfg)
      invariant forall k :: 0 <= k < attempt ==> Verdict(cfg, o.send(k), o.canceled(k), k).None? && !o.aborted(k)
      invariant |delays| == attempt && forall k :: 0 <= k < |delays| ==> delays[k] == ExpBackoff(k)
      decreases AttemptBound(cfg) - attempt
    {
      var result := o.send(attempt);
      if result == Delivered {
        return Sent, attempt + 1, delays;
      }
      if result == Permanent {
        return Failed, attempt + 1, delays;
      }
      if o.canceled(attempt) {
        return Failed, attempt + 1, delays;
      }
      if attempt >= cfg.maxRetries {
        return Failed, attempt + 1, delays;
      }
      if o.aborted(attempt) {
        return Failed, attempt + 1, delays;
      }
      delays := delays + [ExpBackoff(attempt)];
      attempt := attempt + 1;
    }
  }

  // ---- The dispatcher as a state machine ----

  datatype Worker = NotStarted | Idle | Sending(item: Item, attempt: nat) | Waiting(item: Item, attempt: nat) | Exited

  /** The buffer, the flags, the worker, the counters, and the logs of accepted and finished notifications. */
  datatype State = State(
    queue: seq<Item>, stopped: bool, canceled: bool, stopSawWorker: bool, worker: Worker,
    offered: nat, dropped: nat, sent: nat, failed: nat, filtered: nat,
    accepted: seq<Item>, finished: seq<Item>)

  const INITIAL: State := State([], false, false, false, NotStarted, 0, 0, 0, 0, 0, [], [])

  datatype Event =
    | Enqueue(item: Item)
    | Start
    | BeginStop
    | Cancel
    | Receive
    | SendReturns(result: SendResult)
    | PauseEnds
    | PauseAborted
    | WorkerExits

  /** Counts the end of the notification in flight. */
  function Finish(s: State, item: Item, fate: Fate): State {
    var t := s.(worker := Idle, finished := s.finished + [item]);
    match fate
    case Sent => t.(sent := t.sent + 1)
    case Failed => t.(failed := t.failed + 1)
    case Filtered => t.(filtered := t.filtered + 1)
  }

  function OnEnqueue(cfg: Config, s: State, x: Item): State {
    if s.stopped then s
    else if |s.queue| < cfg.capacity then s.(offered := s.offered + 1, queue := s.queue + [x], accepted := s.accepted + [x])
    else s.(offered := s.offered + 1, dropped := s.dropped + 1)
  }

  function OnReceive(cfg: Config, s: State): State {
    if !s.worker.Idle? || s.queue == [] then s
    else
      var t := s.(queue := s.queue[1..]);
      if cfg.keeps(s.queue[0]) then t.(worker := Sending(s.queue[0], 0)) else Finish(t, s.queue[0], Filtered)
  }

  function OnSendReturns(cfg: Config, s: State, result: SendResult): State {
    if !s.worker.Sending? then s
    else
      match Verdict(cfg, result, s.canceled, s.worker.attempt)
      case Some(fate) => Finish(s, s.worker.item, fate)
      case None => s.(worker := Waiting(s.worker.item, s.worker.attempt))
  }

  function OnPauseEnds(s: State): State {
    if s.worker.Waiting? then s.(worker := Sending(s.worker.item, s.worker.attempt + 1)) else s
  }

  function OnPauseAborted(s: State): State {
    if s.worker.Waiting? && s.canceled then Finish(s, s.worker.item, Failed) else s
  }

  function OnExit(s: State): State {
    if s.worker.Idle? && s.queue == [] && s.stopped then s.(worker := Exited) else s
  }

  /** What each event does; an event that cannot happen leaves the state as it is. */
  function Next(cfg: Config, s: State, ev: Event): State {
    match ev
    case Enqueue(x) => OnEnqueue(cfg, s, x)
    case Start => if s.worker.NotStarted? then s.(worker := Idle) else s
    case BeginStop => if s.stopped then s else s.(stopped := true, stopSawWorker := !s.worker.NotStarted?)
    case Cancel => if s.worker.NotStarted? then s else s.(canceled := true)
    case Receive => OnReceive(cfg, s)
    case SendReturns(result) => OnSendReturns(cfg, s, result)
    case PauseEnds => OnPauseEnds(s)
    case PauseAborted => OnPauseAborted(s)
    case WorkerExits => OnExit(s)
  }

  function InFlight(w: Worker): seq<Item> {
    if w.Sending? || w.Waiting? then [w.item] else []
  }

  ghost predicate Inv(cfg: Config, s: State) {
    && |s.queue| <= cfg.capacity
    && s.accepted == s.finished + InFlight(s.worker) + s.queue
    && s.offered == s.dropped + |s.accepted|
    && |s.finished| == s.sent + s.failed + s.filtered
    && (s.worker.Exited? ==> s.stopped && s.queue == [])
    && (s.worker.NotStarted? ==> !s.canceled && !s.stopSawWorker)
    && (s.worker.Sending? ==> s.worker.attempt < AttemptBound(cfg))
    && (s.worker.Waiting? ==> s.worker.attempt < cfg.maxRetries)
  }

  lemma FinishKeepsInv(cfg: Config, s: State, item: Item, fate: Fate)
    requires |s.queue| <= cfg.capacity && s.offered == s.dropped + |s.accepted|
    requires s.accepted == s.finished + [item] + s.queue && |s.finished| == s.sent + s.failed + s.filtered
    requires !s.worker.NotStarted?
    ensures Inv(cfg, Finish(s, item, fate))
  {
    assert s.finished + [item] + s.queue == (s.finished + [item]) + [] + s.queue;
  }

  lemma ReceiveKeepsInv(cfg: Config, s: State)
    requires Inv(cfg, s)
    ensures Inv(cfg, OnReceive(cfg, s))
  {
    hide Finish;
    if s.worker.Idle? && s.queue != [] {
      assert s.queue == [s.queue[0]] + s.queue[1..];
      assert s.accepted == s.finished + [s.queue[0]] + s.queue[1..];
      FinishKeepsInv(cfg, s.(queue := s.queue[1..]), s.queue[0], Filtered);
    }
  }

  lemma SendKeepsInv(cfg: Config, s: State, result: SendResult)
    requires Inv(cfg, s)
    ensures Inv(cfg, OnSendReturns(cfg, s, result))
  {
    hide Finish;
    if s.worker.Sending? {
      forall fate ensures Inv(cfg, Finish(s, s.worker.item, fate)) {
        FinishKeepsInv(cfg, s, s.worker.item, fate);
      }
    }
  }

  lemma PauseKeepsInv(cfg: Config, s: State)
    requires Inv(cfg, s)
    ensures Inv(cfg, OnPauseEnds(s)) && Inv(cfg, OnPauseAborted(s))
  {
    hide Finish;
    if s.worker.Waiting? {
      FinishKeepsInv(cfg, s, s.worker.item, Failed);
    }
  }

  lemma EnqueueKeepsInv(cfg: Config, s: State, x: Item)
    requires Inv(cfg, s)
    ensures Inv(cfg, OnEnqueue(cfg, s, x))
  {
    assert s.finished + InFlight(s.worker) + (s.queue + [x]) == s.finished + InFlight(s.worker) + s.queue + [x];
  }

  /** Every event keeps the invariant. */
  lemma NextKeepsInv(cfg: Config, s: State, ev: Event)
    requires Inv(cfg, s)
    ensures Inv(cfg, Next(cfg, s, ev))
  {
    hide OnEnqueue;
    hide OnReceive;
    hide OnSendReturns;
    hide OnPauseEnds;
    hide OnPauseAborted;
    match ev
    case Enqueue(x) => EnqueueKeepsInv(cfg, s, x);
    case Receive => ReceiveKeepsInv(cfg, s);
    case SendReturns(result) => SendKeepsInv(cfg, s, result);
    case PauseEnds => PauseKeepsInv(cfg, s);
    case PauseAborted => PauseKeepsInv(cfg, s);
    case _ =>
  }

  function Run(cfg: Config, evs: seq<Event>): State {
    if evs == [] then INITIAL else Next(cfg, Run(cfg, evs[..|evs| - 1]), evs[|evs| - 1])
  }

  lemma {:induction false} RunKeepsInv(cfg: Config, evs: seq<Event>)
    ensures Inv(cfg, Run(cfg, evs))
  {
    hide Next;
    if evs != [] {
      hide Inv;
      RunKeepsInv(cfg, evs[..|evs| - 1]);
      NextKeepsInv(cfg, Run(cfg, evs[..|evs| - 1]), evs[|evs| - 1]);
    }
  }

  /** In every interleaving each notification offered before the stop is dropped, queued, in flight, sent, failed or filtered,
      and notifications finish in the order they were accepted. */
  lemma Conservation(cfg: Config, evs: seq<Event>)
    ensures var s := Run(cfg, evs);
            && s.offered == s.dropped + |s.queue| + |InFlight(s.worker)| + s.sent + s.failed + s.filtered
            && s.finished <= s.accepted
            && |s.queue| <= cfg.capacity
  {
    RunKeepsInv(cfg, evs);
    hide Run;
    var s := Run(cfg, evs);
    assert s.finished == s.accepted[..|s.finished|];
  }

  /** Stop has returned: either there was no worker to wait for, or the worker has exited. */
  predicate StopReturned(s: State) {
    s.stopped && (s.stopSawWorker ==> s.worker.Exited?)
  }

  /** When Stop returns on a started dispatcher the queue is empty and everything offered is accounted for. */
  lemma StopDrains(cfg: Config, evs: seq<Event>)
    ensures var s := Run(cfg, evs);
            StopReturned(s) && s.stopSawWorker ==>
              && s.queue == [] && s.finished == s.accepted
              && s.offered == s.dropped + s.sent + s.failed + s.filtered
  {
    RunKeepsInv(cfg, evs);
    hide Run;
  }

  /** A Stop that finds the dispatcher stopped changes nothing and does not wait: the queue may still hold notifications then. */
  lemma SecondStopDoesNotWait(cfg: Config, x: Item)
    requires cfg.capacity > 0
    ensures var s := Run(cfg, [Start, Enqueue(x), BeginStop]);
            Next(cfg, s, BeginStop) == s && s.stopped && s.queue == [x] && !StopReturned(s)
  {
    var evs := [Start, Enqueue(x), BeginStop];
    assert evs[..2] == [Start, Enqueue(x)] && evs[..2][..1] == [Start] && [Start][..0] == [];
    assert Run(cfg, [Start]) == INITIAL.(worker := Idle);
  }

  lemma StoppedStep(cfg: Config, s: State, ev: Event)
    requires s.stopped
    ensures var t := Next(cfg, s, ev);
            t.stopped && t.accepted == s.accepted && t.offered == s.offered && t.dropped == s.dropped
  {
  }

  /** Once stopped, nothing more is put into the closed queue. */
  lemma {:induction false} NothingAfterStop(cfg: Config, evs: seq<Event>, later: seq<Event>)
    requires Run(cfg, evs).stopped
    ensures var s, t := Run(cfg, evs), Run(cfg, evs + later);
            t.stopped && t.accepted == s.accepted && t.offered == s.offered && t.dropped == s.dropped
  {
    hide Next;
    if later == [] {
      assert evs + later == evs;
    } else {
      var front := later[..|later| - 1];
      NothingAfterStop(cfg, evs, front);
      assert (evs + later)[..|evs + later| - 1] == evs + front;
      StoppedStep(cfg, Run(cfg, evs + front), later[|later| - 1]);
    }
  }

  /** The steps the worker can take on its own or when a send or a pause completes. */
  predicate WorkerStep(s: State, ev: Event) {
    || (ev.Receive? && s.worker.Idle? && s.queue != [])
    || (ev.SendReturns? && s.worker.Sending?)
    || (ev.PauseEnds? && s.worker.Waiting?)
    || (ev.PauseAborted? && s.worker.Waiting? && s.canceled)
    || (ev.WorkerExits? && s.worker.Idle? && s.queue == [] && s.stopped)
  }

  /** How many worker steps are left at most. */
  function StepsLeft(cfg: Config, s: State): nat
    requires Inv(cfg, s)
  {
    var bound := AttemptBound(cfg);
    |s.queue| * (2 * bound + 1) +
    match s.worker
    case NotStarted => 1
    case Idle => 1
    case Sending(_, a) => 2 * (bound - a) + 1
    case Waiting(_, a) => 2 * (bound - a)
    case Exited => 0
  }

  lemma ReceiveStep(cfg: Config, s: State)
    requires Inv(cfg, s) && Inv(cfg, OnReceive(cfg, s)) && s.worker.Idle? && s.queue != []
    ensures StepsLeft(cfg, OnReceive(cfg, s)) < StepsLeft(cfg, s)
  {
    hide Inv;
    var k := 2 * AttemptBound(cfg) + 1;
    assert |s.queue| == |s.queue[1..]| + 1;
    assert |s.queue| * k == |s.queue[1..]| * k + k;
  }

  lemma WorkingStep(cfg: Config, s: State, ev: Event)
    requires Inv(cfg, s) && Inv(cfg, Next(cfg, s, ev)) && WorkerStep(s, ev) && !ev.Receive?
    ensures StepsLeft(cfg, Next(cfg, s, ev)) < StepsLeft(cfg, s)
  {
    assert Next(cfg, s, ev).queue == s.queue;
  }

  /** After the stop the worker always has a step, and every step brings its exit nearer: Stop returns. */
  lemma StopProgress(cfg: Config, s: State, ev: Event)
    requires Inv(cfg, s) && s.stopped && !s.worker.NotStarted?
    ensures Inv(cfg, Next(cfg, s, ev))
    ensures WorkerStep(s, ev) ==> StepsLeft(cfg, Next(cfg, s, ev)) < StepsLeft(cfg, s)
    ensures !s.worker.Exited? ==>
              || WorkerStep(s, Receive) || WorkerStep(s, SendReturns(Permanent)) || WorkerStep(s, PauseEnds) || WorkerStep(s, WorkerExits)
  {
    hide StepsLeft;
    hide Inv;
    NextKeepsInv(cfg, s, ev);
    if WorkerStep(s, ev) {
      if ev.Receive? {
        ReceiveStep(cfg, s);
      } else {
        WorkingStep(cfg, s, ev);
      }
    }
  }

  /** No other event puts the exit further off. */
  lemma OthersKeepStepsLeft(cfg: Config, s: State, ev: Event)
    requires Inv(cfg, s) && Inv(cfg, Next(cfg, s, ev)) && s.stopped && !s.worker.NotStarted? && !WorkerStep(s, ev)
    ensures StepsLeft(cfg, Next(cfg, s, ev)) == StepsLeft(cfg, s)
  {
  }

  function RunOn(cfg: Config, s: State, later: seq<Event>): State {
    if later == [] then s else Next(cfg, RunOn(cfg, s, later[..|later| - 1]), later[|later| - 1])
  }

  /** How many of the events are steps the worker takes. */
  function WorkerSteps(cfg: Config, s: State, later: seq<Event>): nat {
    if later == [] then 0
    else
      var front, ev := later[..|later| - 1], later[|later| - 1];
      WorkerSteps(cfg, s, front) + if WorkerStep(RunOn(cfg, s, front), ev) then 1 else 0
  }

  lemma {:induction false} StepsAreUsedUp(cfg: Config, s: State, later: seq<Event>)
    requires Inv(cfg, s) && s.stopped && !s.worker.NotStarted?
    ensures var t := RunOn(cfg, s, later);
            && Inv(cfg, t) && t.stopped && !t.worker.NotStarted?
            && StepsLeft(cfg, t) + WorkerSteps(cfg, s, later) <= StepsLeft(cfg, s)
  {
    hide StepsLeft;
    hide Inv;
    hide WorkerStep;
    if later != [] {
      var front, ev := later[..|later| - 1], later[|later| - 1];
      StepsAreUsedUp(cfg, s, front);
      var t := RunOn(cfg, s, front);
      StopProgress(cfg, t, ev);
      WorkerStays(cfg, t, ev);
      if !WorkerStep(t, ev) {
        OthersKeepStepsLeft(cfg, t, ev);
      }
    }
  }

  lemma WorkerStays(cfg: Config, s: State, ev: Event)
    requires s.stopped && !s.worker.NotStarted?
    ensures Next(cfg, s, ev).stopped && !Next(cfg, s, ev).worker.NotStarted?
  {
  }

  lemma NoneLeftIff(cfg: Config, s: State)
    requires Inv(cfg, s)
    ensures StepsLeft(cfg, s) == 0 <==> s.worker.Exited?
  {
    assert |s.queue| * (2 * AttemptBound(cfg) + 1) >= 0;
  }

  /** Whatever else is called meanwhile: after as many worker steps as are left at the stop, the worker has exited, and
      the Stop that waits for it returns; and the worker never runs out of steps before. */
  lemma StopReturnsInTime(cfg: Config, s: State, later: seq<Event>)
    requires Inv(cfg, s) && s.stopped && !s.worker.NotStarted?
    ensures WorkerSteps(cfg, s, later) <= StepsLeft(cfg, s)
    ensures WorkerSteps(cfg, s, later) == StepsLeft(cfg, s) ==> RunOn(cfg, s, later).worker.Exited? && StopReturned(RunOn(cfg, s, later))
    ensures var t := RunOn(cfg, s, later); !t.worker.Exited? ==> exists ev :: WorkerStep(t, ev)
  {
    hide StepsLeft;
    hide WorkerSteps;
    hide Inv;
    hide WorkerStep;
    StepsAreUsedUp(cfg, s, later);
    var t := RunOn(cfg, s, later);
    NoneLeftIff(cfg, t);
    StopProgress(cfg, t, Receive);
  }

  // ---- The dispatcher object ----

  class Dispatcher {
    const cfg: Config
    var queue: seq<Item>
    var stopped: bool
    var canceled: bool
    var worker: Worker
    var dropped: nat
    var sent: nat
    var failed: nat
    var filtered: nat
    ghost var offered: nat
    ghost var stopSawWorker: bool
    ghost var accepted: seq<Item>
    ghost var finished: seq<Item>

    constructor (cfg: Config)
      ensures this.cfg == cfg && View() == INITIAL
    {
      this.cfg := cfg;
      queue, stopped, canceled, worker := [], false, false, NotStarted;
      dropped, sent, failed, filtered := 0, 0, 0, 0;
      offered, stopSawWorker, accepted, finished := 0, false, [], [];
    }

    ghost function View(): State
      reads this
    {
      State(queue, stopped, canceled, stopSawWorker, worker, offered, dropped, sent, failed, filtered, accepted, finished)
    }

    /** Offers a notification without blocking. */
    method Enqueue(n: Item)
      modifies this
      ensures View() == Next(cfg, old(View()), Event.Enqueue(n))
    {
      if stopped {
        return;
      }
      offered := offered + 1;
      if |queue| < cfg.capacity {
        queue := queue + [n];
        accepted := accepted + [n];
      } else {
        dropped := dropped + 1;
      }
    }

    /** Launches the worker once. */
    method Start()
      modifies this
      ensures View() == Next(cfg, old(View()), Event.Start)
    {
      if !worker.NotStarted? {
        return;
      }
      worker := Idle;
    }

    /** The critical section of Stop: closes the queue and says whether there is a worker to wait for. */
    method BeginStop() returns (wait: bool)
      modifies this
      ensures View() == Next(cfg, old(View()), Event.BeginStop)
      ensures wait <==> !old(stopped) && !old(worker).NotStarted?
    {
      if stopped {
        return false;
      }
      stopped := true;
      stopSawWorker := !worker.NotStarted?;
      wait := !worker.NotStarted?;
    }

    /** The worker takes the oldest notification and filters it. */
    method Receive()
      requires worker.Idle? && queue != []
      modifies this
      ensures View() == Next(cfg, old(View()), Event.Receive)
    {
      var n := queue[0];
      queue := queue[1..];
      if !cfg.keeps(n) {
        filtered := filtered + 1;
        finished := finished + [n];
        return;
      }
      worker := Sending(n, 0);
    }

    /** A send attempt returns. */
    method SendReturns(result: SendResult)
      requires worker.Sending?
      modifies this
      ensures View() == Next(cfg, old(View()), Event.SendReturns(result))
    {
      var n, attempt := worker.item, worker.attempt;
      if result == Delivered {
        sent := sent + 1;
      } else if result == Permanent || canceled || attempt >= cfg.maxRetries {
        failed := failed + 1;
      } else {
        worker := Waiting(n, attempt);
        return;
      }
      worker := Idle;
      finished := finished + [n];
    }

    /** The pause before the next attempt: it ends by itself or, when the context is canceled, at once. */
    method PauseEnds()
      requires worker.Waiting?
      modifies this
      ensures View() == Next(cfg, old(View()), Event.PauseEnds)
    {
      worker := Sending(worker.item, worker.attempt + 1);
    }

    method PauseAborted()
      requires worker.Waiting? && canceled
      modifies this
      ensures View() == Next(cfg, old(View()), Event.PauseAborted)
    {
      failed := failed + 1;
      finished := finished + [worker.item];
      worker := Idle;
    }

    /** The grace window is over, or the caller's context is done. */
    method Cancel()
      requires !worker.NotStarted?
      modifies this
      ensures View() == Next(cfg, old(View()), Event.Cancel)
    {
      canceled := true;
    }

    /** The worker's loop ends once the closed queue is empty. */
    method WorkerExits()
      requires worker.Idle? && queue == [] && stopped
      modifies this
      ensures View() == Next(cfg, old(View()), Event.WorkerExits)
    {
      worker := Exited;
    }
  }
}
