/** What the counters of the dispatcher count, over whole runs. */
module DispatcherRuns {
  import opened Base
  import D = Dispatcher

  /** The send attempts that return with the given result. */
  function Returned(cfg: D.Config, evs: seq<D.Event>, result: D.SendResult): nat {
    if evs == [] then 0
    else
      var front, ev := evs[..|evs| - 1], evs[|evs| - 1];
      Returned(cfg, front, result) + if ev == D.SendReturns(result) && D.Run(cfg, front).worker.Sending? then 1 else 0
  }

  /** The notifications the severity filter refuses. */
  function Refused(cfg: D.Config, items: seq<D.Item>): nat {
    if items == [] then 0
    else Refused(cfg, items[..|items| - 1]) + if cfg.keeps(items[|items| - 1]) then 0 else 1
  }

  ghost predicate CountsTell(cfg: D.Config, s: D.State, delivered: nat) {
    && s.sent == delivered
    && s.filtered == Refused(cfg, s.finished)
    && (forall x :: x in D.InFlight(s.worker) ==> cfg.keeps(x))
  }

  lemma RefusedMore(cfg: D.Config, items: seq<D.Item>, x: D.Item)
    ensures Refused(cfg, items + [x]) == Refused(cfg, items) + if cfg.keeps(x) then 0 else 1
  {
    assert (items + [x])[..|items|] == items;
  }

  lemma ReceiveTells(cfg: D.Config, s: D.State, delivered: nat)
    requires CountsTell(cfg, s, delivered)
    ensures CountsTell(cfg, D.OnReceive(cfg, s), delivered)
  {
    if s.worker.Idle? && s.queue != [] {
      RefusedMore(cfg, s.finished, s.queue[0]);
    }
    hide Refused;
  }

  lemma FinishTells(cfg: D.Config, s: D.State, fate: D.Fate, delivered: nat)
    requires CountsTell(cfg, s, delivered) && (s.worker.Sending? || s.worker.Waiting?) && !fate.Filtered?
    ensures CountsTell(cfg, D.Finish(s, s.worker.item, fate), delivered + if fate.Sent? then 1 else 0)
  {
    RefusedMore(cfg, s.finished, s.worker.item);
    assert s.worker.item in D.InFlight(s.worker);
    hide Refused;
  }

  lemma SendTells(cfg: D.Config, s: D.State, result: D.SendResult, delivered: nat)
    requires CountsTell(cfg, s, delivered)
    ensures CountsTell(cfg, D.OnSendReturns(cfg, s, result), delivered + if result == D.Delivered && s.worker.Sending? then 1 else 0)
  {
    if s.worker.Sending? {
      FinishTells(cfg, s, D.Sent, delivered);
      FinishTells(cfg, s, D.Failed, delivered);
      StillTells(cfg, s, delivered);
      hide CountsTell;
      hide D.Finish;
    }
  }

  lemma StillTells(cfg: D.Config, s: D.State, delivered: nat)
    requires CountsTell(cfg, s, delivered)
    ensures s.worker.Sending? ==> CountsTell(cfg, s.(worker := D.Waiting(s.worker.item, s.worker.attempt)), delivered)
    ensures s.worker.Waiting? ==> CountsTell(cfg, s.(worker := D.Sending(s.worker.item, s.worker.attempt + 1)), delivered)
  {
    hide Refused;
    if s.worker.Sending? || s.worker.Waiting? {
      assert s.worker.item in D.InFlight(s.worker);
    }
  }

  lemma PauseTells(cfg: D.Config, s: D.State, delivered: nat)
    requires CountsTell(cfg, s, delivered)
    ensures CountsTell(cfg, D.OnPauseEnds(s), delivered) && CountsTell(cfg, D.OnPauseAborted(s), delivered)
  {
    if s.worker.Waiting? {
      FinishTells(cfg, s, D.Failed, delivered);
      StillTells(cfg, s, delivered);
      hide CountsTell;
      hide D.Finish;
    }
  }

  lemma OneMore(cfg: D.Config, s: D.State, ev: D.Event, delivered: nat)
    requires CountsTell(cfg, s, delivered)
    ensures CountsTell(cfg, D.Next(cfg, s, ev), delivered + if ev == D.SendReturns(D.Delivered) && s.worker.Sending? then 1 else 0)
  {
    hide Refused;
    hide D.OnReceive;
    hide D.OnSendReturns;
    hide D.OnPauseEnds;
    hide D.OnPauseAborted;
    match ev
    case Receive => ReceiveTells(cfg, s, delivered);
    case SendReturns(result) => SendTells(cfg, s, result, delivered);
    case PauseEnds => PauseTells(cfg, s, delivered);
    case PauseAborted => PauseTells(cfg, s, delivered);
    case _ =>
  }

  /**
   * Over any run: sent counts exactly the delivered notifications, filtered exactly the finished ones that the severity
   * filter refuses, failed the others, and what is in flight has passed the filter.
   */
  lemma {:induction false} CountersExact(cfg: D.Config, evs: seq<D.Event>)
    ensures var s := D.Run(cfg, evs);
            && s.sent == Returned(cfg, evs, D.Delivered)
            && s.filtered == Refused(cfg, s.finished)
            && s.failed == |s.finished| - s.sent - s.filtered
            && (forall x :: x in D.InFlight(s.worker) ==> cfg.keeps(x))
  {
    CountsFollow(cfg, evs);
    D.RunKeepsInv(cfg, evs);
    hide D.Run;
  }

  lemma {:induction false} CountsFollow(cfg: D.Config, evs: seq<D.Event>)
    ensures CountsTell(cfg, D.Run(cfg, evs), Returned(cfg, evs, D.Delivered))
  {
    hide D.Next;
    if evs != [] {
      hide CountsTell;
      var front := evs[..|evs| - 1];
      CountsFollow(cfg, front);
      OneMore(cfg, D.Run(cfg, front), evs[|evs| - 1], Returned(cfg, front, D.Delivered));
    } else {
      assert D.Run(cfg, evs) == D.INITIAL;
    }
  }

  /** A notification in flight is given up exactly at a permanent error, at a cancellation, or when no retry is left. */
  lemma GivesUpIff(cfg: D.Config, evs: seq<D.Event>, ev: D.Event)
    ensures var s, t := D.Run(cfg, evs), D.Run(cfg, evs + [ev]);
            t.failed == s.failed +
              if || (s.worker.Sending? && ev == D.SendReturns(D.Permanent))
                 || (s.worker.Sending? && ev == D.SendReturns(D.Retryable) && (s.canceled || s.worker.attempt >= cfg.maxRetries))
                 || (s.worker.Waiting? && ev == D.PauseAborted && s.canceled)
              then 1 else 0
  {
    RunMore(cfg, evs, ev);
    hide D.Run;
  }

  /** A notification is dropped exactly when it is offered before the stop and the buffer is full. */
  lemma DropsIff(cfg: D.Config, evs: seq<D.Event>, ev: D.Event)
    ensures var s, t := D.Run(cfg, evs), D.Run(cfg, evs + [ev]);
            && t.dropped == s.dropped + (if ev.Enqueue? && !s.stopped && |s.queue| == cfg.capacity then 1 else 0)
            && t.accepted == s.accepted + (if ev.Enqueue? && !s.stopped && |s.queue| < cfg.capacity then [ev.item] else [])
  {
    D.RunKeepsInv(cfg, evs);
    hide D.Run;
    RunMore(cfg, evs, ev);
  }

  lemma RunMore(cfg: D.Config, evs: seq<D.Event>, ev: D.Event)
    ensures D.Run(cfg, evs + [ev]) == D.Next(cfg, D.Run(cfg, evs), ev)
  {
    hide D.Next;
    assert (evs + [ev])[..|evs|] == evs;
  }
}
