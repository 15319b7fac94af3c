/**
 The blocking alerts the app raises, modelled as values a step returns
 instead of calls into the UI.
 */
module Alerts {
  import opened Decimal

  datatype Alert =
    | TimerFinished(id: int)   // a timer reached zero while running
    | MaxTimersReached         // a sixth timer was requested
    | InvalidTime              // the edit dialog held an unacceptable duration

  /** The new state after one handler, together with the alerts it raised, in order. */
  datatype Outcome<S> = Outcome(state: S, alerts: seq<Alert>)

  /** The text shown for each alert. */
  function Message(a: Alert): string {
    match a
    case TimerFinished(id) => "Timer " + IntToString(id) + " has finished!"
    case MaxTimersReached => "Max five timers allowed"
    case InvalidTime => "Please enter a valid time."
  }

  /** A completion message names its timer: two timers never share one. */
  lemma FinishedMessageIdentifiesTimer(a: int, b: int)
    requires Message(TimerFinished(a)) == Message(TimerFinished(b))
    ensures a == b
  {
    var ma, mb := Message(TimerFinished(a)), Message(TimerFinished(b));
    assert ma[6..|ma| - 14] == IntToString(a);
    assert mb[6..|mb| - 14] == IntToString(b);
    IntToStringInjective(a, b);
  }
}
