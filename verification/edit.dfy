/**
 The edit dialog of the timer component: two text fields for minutes and
 seconds and the Confirm handler that validates them and sets the selected
 timer's duration.
 */
module Edit {
  import opened Alerts
  import opened Countdown
  import Clock

  /** A text field: untouched/cleared, or holding an integer the user typed. */
  datatype Field = Blank | Entered(value: int)

  /** The number a field is read as: its integer, or zero when it is blank. */
  function Number(f: Field): int {
    match f
    case Blank => 0
    case Entered(n) => n
  }

  /** The component state the dialog works on. */
  datatype Panel = Panel(
    timers: seq<TimerRecord>,
    selected: int,        // the timer whose display was pressed to open the dialog
    minutes: Field,
    seconds: Field,
    modalVisible: bool)

  /** Largest value either field may hold. */
  const FieldLimit := 60

  /** Longest duration the dialog can ever accept, 60 minutes and 60 seconds. */
  const LongestDuration := FieldLimit * 60 + FieldLimit

  /**
   Confirm in the dialog. Either field above 60, or a total of zero seconds
   or less, raises "Please enter a valid time." and changes nothing. Any other
   input sets the selected timer to the new duration, stopped and full,
   closes the dialog and clears both fields.
   */
  function UpdateTime(p: Panel): (r: Outcome<Panel>)
    ensures var m, s := Number(p.minutes), Number(p.seconds);
      r.alerts == [InvalidTime] <==> (m > FieldLimit || s > FieldLimit || m * 60 + s <= 0)
    ensures r.alerts == [] || r.alerts == [InvalidTime]
    ensures r.alerts != [] ==> r.state == p
    ensures r.alerts == [] ==>
      var total := Number(p.minutes) * 60 + Number(p.seconds);
      && 1 <= total <= LongestDuration
      && r.state == Panel(r.state.timers, p.selected, Blank, Blank, false)
      && |r.state.timers| == |p.timers|
      && (forall i :: 0 <= i < |p.timers| && p.timers[i].id == p.selected ==>
            r.state.timers[i] == p.timers[i].(inputTime := total, timeLeft := total, isRunning := false))
      && (forall i :: 0 <= i < |p.timers| && p.timers[i].id != p.selected ==>
            r.state.timers[i] == p.timers[i])
  {
    var total := Number(p.minutes) * 60 + Number(p.seconds);
    if Number(p.minutes) > FieldLimit || Number(p.seconds) > FieldLimit then
      Outcome(p, [InvalidTime])
    else if total > 0 then
      var updated := Update(p.timers, p.selected,
        (t: TimerRecord) => t.(inputTime := total, timeLeft := total, isRunning := false));
      Outcome(p.(timers := updated, modalVisible := false, minutes := Blank, seconds := Blank), [])
    else
      Outcome(p, [InvalidTime])
  }

  /** An edit, accepted or rejected, keeps every record within `0 <= timeLeft <= inputTime`. */
  lemma UpdateTimePreservesValid(p: Panel)
    requires AllValid(p.timers)
    ensures AllValid(UpdateTime(p).state.timers)
  {
  }

  /** Five minutes is accepted as 300 seconds; 61 minutes and an empty duration are refused. */
  lemma UpdateTimeExamples(ts: seq<TimerRecord>)
    requires |ts| == 1 && ts[0].id == 1
    ensures var r := UpdateTime(Panel(ts, 1, Entered(5), Entered(0), true));
      r.alerts == [] && r.state.timers == [ts[0].(inputTime := 300, timeLeft := 300, isRunning := false)]
      && !r.state.modalVisible
    ensures var p := Panel(ts, 1, Entered(61), Entered(0), true);
      UpdateTime(p) == Outcome(p, [InvalidTime])
    ensures var p := Panel(ts, 1, Entered(0), Entered(0), true);
      UpdateTime(p) == Outcome(p, [InvalidTime])
    ensures var p := Panel(ts, 1, Blank, Blank, true);
      UpdateTime(p) == Outcome(p, [InvalidTime])
  {
  }

  /**
   Every duration the dialog can accept is displayed as exactly `MM:SS`, and
   the display reads back as that duration.
   */
  lemma AcceptedDurationDisplays(total: int)
    requires 1 <= total <= LongestDuration
    ensures |Clock.FormatTime(total)| == 5
    ensures Clock.WellFormedClock(Clock.FormatTime(total))
    ensures Clock.ClockValue(Clock.FormatTime(total)) == total
  {
    Clock.FormatTimeIsFiveChars(total);
    Clock.FormatTimeReadsBack(total);
  }
}
