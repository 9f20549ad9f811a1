/** The alert state machine. Times are nanoseconds. */
module AlertState {
  import opened Base

  datatype State = StateOk | StatePending | StateFiring | StateResolved

  /** The difference of two times as a duration, saturating like Go's Time.Sub. */
  function Elapsed(now: int, since: int): Int64 {
    var d := now - since;
    if d < -TWO_63 then -TWO_63 else if d >= TWO_63 then TWO_63 - 1 else d
  }

  /** The next state, and whether it is a change. */
  function Next(cur: State, condTrue: bool, activeAt: int, now: int, forD: Int64): (State, bool) {
    if !condTrue then
      if cur.StatePending? || cur.StateFiring? then (StateResolved, true) else (StateOk, false)
    else
      match cur
      case StateFiring => (StateFiring, false)
      case StatePending => if Elapsed(now, activeAt) >= forD then (StateFiring, true) else (StatePending, false)
      case _ => if forD <= 0 then (StateFiring, true) else (StatePending, true)
  }

  /** The transitions that are ever recorded. */
  predicate Allowed(prev: State, next: State) {
    || (prev.StateOk? && (next.StatePending? || next.StateFiring?))
    || (prev.StatePending? && (next.StateFiring? || next.StateResolved?))
    || (prev.StateFiring? && next.StateResolved?)
  }

  /** From any state but resolved, a change is one of the allowed transitions and anything else stays put. */
  lemma ChangesAreAllowed(cur: State, condTrue: bool, activeAt: int, now: int, forD: Int64)
    requires !cur.StateResolved?
    ensures var (next, changed) := Next(cur, condTrue, activeAt, now, forD);
            && (changed ==> Allowed(cur, next))
            && (!changed ==> next == cur)
            && (condTrue ==> next.StatePending? || next.StateFiring?)
  {
  }
}
