/**
 The per-timer countdown of the timer component: the list of timer records
 it holds, the once-a-second tick, the stop-and-alert step at zero, and the
 play/pause and reset buttons. Every operation is one atomic step from the
 current list to the next; the interval callback and the effect that raises
 the alert become explicit steps.
 */
module Countdown {
  import opened Alerts

  datatype TimerRecord = TimerRecord(id: int, timeLeft: int, inputTime: int, isRunning: bool)

  /** The bounds every record keeps: never below zero, never above its configured duration. */
  predicate Valid(t: TimerRecord) {
    0 <= t.timeLeft <= t.inputTime
  }

  predicate AllValid(ts: seq<TimerRecord>) {
    forall i :: 0 <= i < |ts| ==> Valid(ts[i])
  }

  predicate UniqueIds(ts: seq<TimerRecord>) {
    forall i, j :: 0 <= i < |ts| && 0 <= j < |ts| && i != j ==> ts[i].id != ts[j].id
  }

  /** A record the interval keeps decrementing. */
  predicate Ticking(t: TimerRecord) {
    t.isRunning && t.timeLeft > 0
  }

  /** A record that has run out but has not been stopped yet. */
  predicate Expired(t: TimerRecord) {
    t.isRunning && t.timeLeft == 0
  }

  /** Apply `f` to every record numbered `id` and keep the others: the list update every handler performs. */
  function Update(ts: seq<TimerRecord>, id: int, f: TimerRecord -> TimerRecord): (r: seq<TimerRecord>)
    ensures |r| == |ts|
    ensures forall i :: 0 <= i < |ts| ==> r[i] == if ts[i].id == id then f(ts[i]) else ts[i]
  {
    if ts == [] then []
    else [if ts[0].id == id then f(ts[0]) else ts[0]] + Update(ts[1..], id, f)
  }

  /**
   One firing of the one-second interval of timer `id`: a running record with
   time left loses exactly one second; nothing else in any record changes.
   */
  function Tick(ts: seq<TimerRecord>, id: int): (r: seq<TimerRecord>)
    ensures |r| == |ts|
    ensures forall i :: 0 <= i < |ts| ==>
      r[i].id == ts[i].id && r[i].inputTime == ts[i].inputTime && r[i].isRunning == ts[i].isRunning
    ensures forall i :: 0 <= i < |ts| ==>
      r[i].timeLeft == if ts[i].id == id && Ticking(ts[i]) then ts[i].timeLeft - 1 else ts[i].timeLeft
  {
    Update(ts, id, (t: TimerRecord) => if Ticking(t) then t.(timeLeft := t.timeLeft - 1) else t)
  }

  /** The completion alerts the effect raises for timer `id`: one per expired record with that id. */
  function FinishedAlerts(ts: seq<TimerRecord>, id: int): (a: seq<Alert>)
    ensures forall k :: 0 <= k < |a| ==> a[k] == TimerFinished(id)
    ensures |a| <= |ts|
    ensures a != [] <==> exists i :: 0 <= i < |ts| && ts[i].id == id && Expired(ts[i])
  {
    if ts == [] then []
    else
      var rest := FinishedAlerts(ts[1..], id);
      assert forall i :: 1 <= i < |ts| ==> ts[i] == ts[1..][i - 1];
      (if ts[0].id == id && Expired(ts[0]) then [TimerFinished(id)] else []) + rest
  }

  /**
   The effect's branch for a record of timer `id` that is running at zero:
   stop it and raise "Timer id has finished!". Time left stays zero.
   */
  function Finish(ts: seq<TimerRecord>, id: int): (r: Outcome<seq<TimerRecord>>)
    ensures |r.state| == |ts|
    ensures forall i :: 0 <= i < |ts| ==>
      r.state[i] == if ts[i].id == id && Expired(ts[i]) then ts[i].(isRunning := false) else ts[i]
    ensures forall a :: a in r.alerts ==> a == TimerFinished(id)
  {
    Outcome(Update(ts, id, (t: TimerRecord) => if Expired(t) then t.(isRunning := false) else t), FinishedAlerts(ts, id))
  }

  /**
   What happens to timer `id` next: the interval ticks while it is running
   with time left; otherwise the effect stops it if it has run out.
   */
  function Step(ts: seq<TimerRecord>, id: int): Outcome<seq<TimerRecord>> {
    if exists i :: 0 <= i < |ts| && ts[i].id == id && Ticking(ts[i]) then Outcome(Tick(ts, id), [])
    else Finish(ts, id)
  }

  /** Timer `id`'s step as a function value, so that runs of it can be reasoned about generically. */
  function StepOf(id: int): seq<TimerRecord> -> Outcome<seq<TimerRecord>> {
    ts => Step(ts, id)
  }

  /** `n` successive applications of `step`, with every alert raised on the way. */
  function Iterate(step: seq<TimerRecord> -> Outcome<seq<TimerRecord>>, ts: seq<TimerRecord>, n: nat): Outcome<seq<TimerRecord>>
    decreases n
  {
    if n == 0 then Outcome(ts, [])
    else
      var first := step(ts);
      var rest := Iterate(step, first.state, n - 1);
      Outcome(rest.state, first.alerts + rest.alerts)
  }

  /** `n` successive steps of timer `id`, with every alert raised on the way. */
  function Run(ts: seq<TimerRecord>, id: int, n: nat): Outcome<seq<TimerRecord>> {
    Iterate(StepOf(id), ts, n)
  }

  /** One step of timer `id` followed by `n - 1` more. */
  lemma RunUnfold(ts: seq<TimerRecord>, id: int, n: nat)
    requires n > 0
    ensures Run(ts, id, n)
         == Outcome(Run(Step(ts, id).state, id, n - 1).state, Step(ts, id).alerts + Run(Step(ts, id).state, id, n - 1).alerts)
  {
    assert StepOf(id)(ts) == Step(ts, id);
  }

  /** The play/pause button: flips `isRunning` of timer `id` only. */
  function Toggle(ts: seq<TimerRecord>, id: int): (r: seq<TimerRecord>)
    ensures |r| == |ts|
    ensures forall i :: 0 <= i < |ts| ==>
      r[i] == if ts[i].id == id then ts[i].(isRunning := !ts[i].isRunning) else ts[i]
  {
    Update(ts, id, (t: TimerRecord) => t.(isRunning := !t.isRunning))
  }

  /** The reset button: timer `id` is stopped and back at its configured duration. */
  function Reset(ts: seq<TimerRecord>, id: int): (r: seq<TimerRecord>)
    ensures |r| == |ts|
    ensures forall i :: 0 <= i < |ts| && ts[i].id == id ==>
      r[i].timeLeft == ts[i].inputTime && !r[i].isRunning && r[i].inputTime == ts[i].inputTime && r[i].id == id
    ensures forall i :: 0 <= i < |ts| && ts[i].id != id ==> r[i] == ts[i]
  {
    Update(ts, id, (t: TimerRecord) => t.(timeLeft := t.inputTime, isRunning := false))
  }

  // ---------------------------------------------------------------------------
  // Properties

  /** Toggling twice gives back the original list. */
  lemma ToggleTwice(ts: seq<TimerRecord>, id: int)
    ensures Toggle(Toggle(ts, id), id) == ts
  {
    var r := Toggle(Toggle(ts, id), id);
    assert forall i :: 0 <= i < |ts| ==> r[i] == ts[i];
  }

  /** Resetting an already reset timer changes nothing. */
  lemma ResetIdempotent(ts: seq<TimerRecord>, id: int)
    ensures Reset(Reset(ts, id), id) == Reset(ts, id)
  {
    var once := Reset(ts, id);
    var twice := Reset(once, id);
    assert forall i :: 0 <= i < |ts| ==> twice[i] == once[i];
  }

  /** `0 <= timeLeft <= inputTime` survives a tick, the stop at zero, play/pause and reset. */
  lemma StepsPreserveValid(ts: seq<TimerRecord>, id: int)
    requires AllValid(ts)
    ensures AllValid(Tick(ts, id))
    ensures AllValid(Finish(ts, id).state)
    ensures AllValid(Step(ts, id).state)
    ensures AllValid(Toggle(ts, id))
    ensures AllValid(Reset(ts, id))
  {
  }

  /** However many steps are taken, every record stays within its bounds. */
  lemma {:induction false} RunPreservesValid(ts: seq<TimerRecord>, id: int, n: nat)
    requires AllValid(ts)
    ensures AllValid(Run(ts, id, n).state)
    decreases n
  {
    if n > 0 {
      var next := Step(ts, id).state;
      StepsPreserveValid(ts, id);
      RunPreservesValid(next, id, n - 1);
      RunUnfold(ts, id, n);
      assert Run(ts, id, n).state == Run(next, id, n - 1).state;
    }
  }

  /** No record carries `id`: no alert. */
  lemma {:induction false} NoExpiredNoAlerts(ts: seq<TimerRecord>, id: int)
    requires forall i :: 0 <= i < |ts| ==> ts[i].id != id
    ensures FinishedAlerts(ts, id) == []
  {
  }

  /** Record `k` is timer `id`, and no other record carries that id. */
  predicate OnlyAt(ts: seq<TimerRecord>, id: int, k: nat) {
    k < |ts| && ts[k].id == id && forall i :: 0 <= i < |ts| && i != k ==> ts[i].id != id
  }

  /** In a list with distinct ids every record is the only one with its id. */
  lemma UniqueOnlyAt(ts: seq<TimerRecord>, k: nat)
    requires UniqueIds(ts) && k < |ts|
    ensures OnlyAt(ts, ts[k].id, k)
  {
  }

  /** Replacing record `k` by one with the same id keeps it the only one. */
  lemma OnlyAtUpdate(ts: seq<TimerRecord>, id: int, k: nat, t: TimerRecord)
    requires OnlyAt(ts, id, k) && t.id == id
    ensures OnlyAt(ts[k := t], id, k)
  {
    assert forall i :: 0 <= i < |ts| ==> ts[k := t][i].id == ts[i].id;
  }

  /** The stop step for timer `id` raises exactly one alert if its one record has expired, none otherwise. */
  lemma {:induction false} FinishAlertsOnce(ts: seq<TimerRecord>, id: int, k: nat)
    requires OnlyAt(ts, id, k)
    ensures Finish(ts, id).alerts == if Expired(ts[k]) then [TimerFinished(id)] else []
    decreases |ts|
  {
    var tail := ts[1..];
    assert forall i :: 0 <= i < |tail| ==> tail[i] == ts[i + 1];
    assert FinishedAlerts(ts, id)
        == (if ts[0].id == id && Expired(ts[0]) then [TimerFinished(id)] else []) + FinishedAlerts(tail, id);
    if k == 0 {
      NoExpiredNoAlerts(tail, id);
    } else {
      assert OnlyAt(tail, id, k - 1);
      FinishAlertsOnce(tail, id, k - 1);
    }
  }

  /** Stepping timer `id` acts on its own record only. */
  lemma StepAt(ts: seq<TimerRecord>, id: int, k: nat)
    requires OnlyAt(ts, id, k)
    ensures Ticking(ts[k]) ==> Step(ts, id) == Outcome(ts[k := ts[k].(timeLeft := ts[k].timeLeft - 1)], [])
    ensures Expired(ts[k]) ==> Step(ts, id) == Outcome(ts[k := ts[k].(isRunning := false)], [TimerFinished(id)])
    ensures !ts[k].isRunning ==> Step(ts, id) == Outcome(ts, [])
  {
    FinishAlertsOnce(ts, id, k);
    if Ticking(ts[k]) {
      assert Tick(ts, id) == ts[k := ts[k].(timeLeft := ts[k].timeLeft - 1)];
    } else {
      assert Step(ts, id) == Finish(ts, id);
      if Expired(ts[k]) {
        assert Finish(ts, id).state == ts[k := ts[k].(isRunning := false)];
      } else {
        assert Finish(ts, id).state == ts;
      }
    }
  }

  /** A stopped timer stays as it is, and silent, however many steps pass. */
  lemma {:induction false} StoppedStaysQuiet(ts: seq<TimerRecord>, id: int, k: nat, n: nat)
    requires OnlyAt(ts, id, k) && !ts[k].isRunning
    ensures Run(ts, id, n) == Outcome(ts, [])
    decreases n
  {
    if n > 0 {
      StepAt(ts, id, k);
      StoppedStaysQuiet(ts, id, k, n - 1);
      RunUnfold(ts, id, n);
    }
  }

  /** A running timer with `t` seconds left is at zero, still running and silent, after exactly `t` steps. */
  lemma {:induction false} RunReachesZero(ts: seq<TimerRecord>, id: int, k: nat)
    requires OnlyAt(ts, id, k) && ts[k].isRunning && ts[k].timeLeft >= 0
    ensures Run(ts, id, ts[k].timeLeft) == Outcome(ts[k := ts[k].(timeLeft := 0)], [])
    decreases ts[k].timeLeft
  {
    var t := ts[k].timeLeft;
    if t > 0 {
      var next := ts[k := ts[k].(timeLeft := t - 1)];
      StepAt(ts, id, k);
      OnlyAtUpdate(ts, id, k, ts[k].(timeLeft := t - 1));
      RunReachesZero(next, id, k);
      RunUnfold(ts, id, t);
      assert next[k := next[k].(timeLeft := 0)] == ts[k := ts[k].(timeLeft := 0)];
    } else {
      assert ts[k := ts[k].(timeLeft := 0)] == ts;
    }
  }

  /** A timer that has run out is stopped with one alert, and nothing follows however many steps pass. */
  lemma FinishFromZero(ts: seq<TimerRecord>, id: int, k: nat, extra: nat)
    requires OnlyAt(ts, id, k) && Expired(ts[k])
    ensures Run(ts, id, 1 + extra) == Outcome(ts[k := ts[k].(isRunning := false)], [TimerFinished(id)])
  {
    var done := ts[k := ts[k].(isRunning := false)];
    OnlyAtUpdate(ts, id, k, ts[k].(isRunning := false));
    StepAt(ts, id, k);
    StoppedStaysQuiet(done, id, k, extra);
    RunUnfold(ts, id, 1 + extra);
    assert [TimerFinished(id)] + [] == [TimerFinished(id)];
  }

  /** `a + b` steps are `a` steps followed by `b` more, with the alerts in order. */
  lemma {:induction false} IterateSplit(step: seq<TimerRecord> -> Outcome<seq<TimerRecord>>, ts: seq<TimerRecord>, a: nat, b: nat)
    ensures var first := Iterate(step, ts, a);
      var second := Iterate(step, first.state, b);
      Iterate(step, ts, a + b) == Outcome(second.state, first.alerts + second.alerts)
    decreases a
  {
    if a > 0 {
      var s1 := step(ts);
      IterateSplit(step, s1.state, a - 1, b);
      var first := Iterate(step, s1.state, a - 1);
      var second := Iterate(step, first.state, b);
      assert s1.alerts + (first.alerts + second.alerts) == (s1.alerts + first.alerts) + second.alerts;
    } else {
      assert [] + Iterate(step, ts, b).alerts == Iterate(step, ts, b).alerts;
    }
  }

  /** A silent run of `a` steps to `mid`, then `b` steps from `mid`, make one run of `a + b` steps. */
  lemma IterateThen(step: seq<TimerRecord> -> Outcome<seq<TimerRecord>>, ts: seq<TimerRecord>, a: nat, b: nat,
                    mid: seq<TimerRecord>, last: seq<TimerRecord>, alerts: seq<Alert>)
    requires Iterate(step, ts, a) == Outcome(mid, [])
    requires Iterate(step, mid, b) == Outcome(last, alerts)
    ensures Iterate(step, ts, a + b) == Outcome(last, alerts)
  {
    IterateSplit(step, ts, a, b);
    assert [] + alerts == alerts;
  }

  /**
   One step after reaching zero the timer is stopped with a single
   "finished" alert, and however long it then stays parked no second alert follows.
   */
  lemma RunFinishesOnce(ts: seq<TimerRecord>, id: int, k: nat, extra: nat)
    requires OnlyAt(ts, id, k) && ts[k].isRunning && ts[k].timeLeft >= 0
    ensures Run(ts, id, ts[k].timeLeft + 1 + extra)
         == Outcome(ts[k := ts[k].(timeLeft := 0, isRunning := false)], [TimerFinished(id)])
  {
    var t := ts[k].timeLeft;
    var zero := ts[k := ts[k].(timeLeft := 0)];
    var done := ts[k := ts[k].(timeLeft := 0, isRunning := false)];
    RunReachesZero(ts, id, k);
    OnlyAtUpdate(ts, id, k, ts[k].(timeLeft := 0));
    FinishFromZero(zero, id, k, extra);
    assert zero[k := zero[k].(isRunning := false)] == done;
    IterateThen(StepOf(id), ts, t, 1 + extra, zero, done, [TimerFinished(id)]);
    assert t + 1 + extra == t + (1 + extra);
  }

  /** Pausing a running timer freezes it: no tick and no alert until it is toggled again. */
  lemma PauseFreezes(ts: seq<TimerRecord>, id: int, k: nat, n: nat)
    requires OnlyAt(ts, id, k) && ts[k].isRunning
    ensures Run(Toggle(ts, id), id, n) == Outcome(Toggle(ts, id), [])
  {
    var paused := Toggle(ts, id);
    assert paused == ts[k := ts[k].(isRunning := false)];
    OnlyAtUpdate(ts, id, k, ts[k].(isRunning := false));
    StoppedStaysQuiet(paused, id, k, n);
  }
}
