/**
 The app screen: the bounded list of timers, the id the next timer gets,
 and which timer is shown. Adding appends a default timer; removing filters
 the list and renumbers the survivors by position.
 */
module Collection {
  import opened Alerts
  import opened Countdown

  datatype Option<T> = None | Some(value: T)

  /** The state held by the app screen. */
  datatype AppState = AppState(
    timers: seq<TimerRecord>,
    nextId: int,
    visible: Option<int>)   // the timer drawn opaque and on top; none at start

  const MaxTimers := 5
  const DefaultDuration := 60

  /** No timers, the first one will be number 1, nothing shown. */
  const Initial := AppState([], 1, None)

  /** A freshly added timer: one minute, not running. */
  function NewTimer(id: int): TimerRecord {
    TimerRecord(id, DefaultDuration, DefaultDuration, false)
  }

  // ---------------------------------------------------------------------------
  // Invariants

  /** Ids are exactly 1..N, in list order. */
  predicate IdsArePositions(ts: seq<TimerRecord>) {
    forall i :: 0 <= i < |ts| ==> ts[i].id == i + 1
  }

  /** The renumbering invariant: ids 1..N, at most five timers, and the next id is N + 1. */
  predicate Wf(s: AppState) {
    IdsArePositions(s.timers) && |s.timers| <= MaxTimers && s.nextId == |s.timers| + 1
  }

  /**
   What every reachable state satisfies: as `Wf`, except that a full list may
   have its next id clamped to 5 (removing an id that is not present from a
   full list does that). A full list never hands out its next id.
   */
  predicate Inv(s: AppState) {
    && IdsArePositions(s.timers)
    && |s.timers| <= MaxTimers
    && (s.nextId == |s.timers| + 1 || (|s.timers| == MaxTimers && s.nextId == MaxTimers))
  }

  // ---------------------------------------------------------------------------
  // Operations

  /**
   The add button: below five timers, append a default timer numbered
   `nextId`, advance `nextId` and show the new timer; at five, only the
   "Max five timers allowed" alert.
   */
  function AddTimer(s: AppState): (r: Outcome<AppState>)
    ensures |s.timers| < MaxTimers ==>
      && r.alerts == []
      && r.state.timers == s.timers + [NewTimer(s.nextId)]
      && r.state.nextId == s.nextId + 1
      && r.state.visible == Some(s.nextId)
    ensures |s.timers| >= MaxTimers ==> r == Outcome(s, [MaxTimersReached])
  {
    if |s.timers| < MaxTimers then
      Outcome(AppState(s.timers + [NewTimer(s.nextId)], s.nextId + 1, Some(s.nextId)), [])
    else
      Outcome(s, [MaxTimersReached])
  }

  /** Removal's filter: the records not numbered `id`, in their order. */
  function Kept(ts: seq<TimerRecord>, id: int): (r: seq<TimerRecord>)
    ensures |r| <= |ts|
    ensures forall i :: 0 <= i < |r| ==> r[i].id != id
  {
    if ts == [] then []
    else (if ts[0].id != id then [ts[0]] else []) + Kept(ts[1..], id)
  }

  /** Removal's renumbering: every record keeps its fields but takes its position, counted from 1, as id. */
  function Renumber(ts: seq<TimerRecord>): (r: seq<TimerRecord>)
    ensures |r| == |ts|
    ensures IdsArePositions(r)
    ensures forall i :: 0 <= i < |ts| ==> r[i] == ts[i].(id := i + 1)
  {
    seq(|ts|, i requires 0 <= i < |ts| => ts[i].(id := i + 1))
  }

  /** The largest id in a non-empty list. */
  function MaxId(ts: seq<TimerRecord>): (m: int)
    requires ts != []
    ensures forall i :: 0 <= i < |ts| ==> ts[i].id <= m
    ensures exists i :: 0 <= i < |ts| && ts[i].id == m
  {
    if |ts| == 1 then ts[0].id
    else
      var rest := MaxId(ts[1..]);
      assert forall i :: 1 <= i < |ts| ==> ts[i] == ts[1..][i - 1];
      if ts[0].id >= rest then ts[0].id else rest
  }

  /** Numbered by position, the largest id is the length. */
  lemma MaxIdOfPositions(ts: seq<TimerRecord>)
    requires ts != [] && IdsArePositions(ts)
    ensures MaxId(ts) == |ts|
  {
    assert ts[|ts| - 1].id == |ts|;
  }

  function Min(a: int, b: int): int {
    if a <= b then a else b
  }

  /**
   The visible-timer rule of the remove handler, applied to the list as it
   was BEFORE the removal: removing the shown timer out of several shows the
   old first id; with exactly one timer the old id of that timer is shown
   whatever was removed; otherwise the shown id is kept.
   */
  function VisibleAfterRemove(before: seq<TimerRecord>, visible: Option<int>, id: int): Option<int> {
    if visible == Some(id) && |before| > 1 then Some(before[0].id)
    else if |before| == 1 then Some(before[0].id)
    else visible
  }

  /**
   The delete button of timer `id`: drop the records numbered `id`, renumber
   the survivors 1..M by position, set the next id to 1 when none are left and
   to `min(5, max id + 1)` otherwise, and move the visible timer.
   */
  function RemoveTimer(s: AppState, id: int): (r: AppState)
    ensures |r.timers| == |Kept(s.timers, id)|
    ensures forall i :: 0 <= i < |r.timers| ==> r.timers[i] == Kept(s.timers, id)[i].(id := i + 1)
    ensures IdsArePositions(r.timers)
    ensures r.timers == [] ==> r.nextId == 1
    ensures r.timers != [] ==> r.nextId == Min(MaxTimers, |r.timers| + 1)
    ensures r.visible == VisibleAfterRemove(s.timers, s.visible, id)
  {
    var reindexed := Renumber(Kept(s.timers, id));
    var next := if reindexed == [] then 1 else Min(MaxTimers, MaxId(reindexed) + 1);
    assert reindexed != [] ==> MaxId(reindexed) == |reindexed| by {
      if reindexed != [] { MaxIdOfPositions(reindexed); }
    }
    AppState(reindexed, next, VisibleAfterRemove(s.timers, s.visible, id))
  }

  /** Pressing the dot of timer `id`: only the shown timer changes. */
  function SelectVisible(s: AppState, id: int): (r: AppState)
    ensures r.timers == s.timers && r.nextId == s.nextId && r.visible == Some(id)
  {
    s.(visible := Some(id))
  }

  // ---------------------------------------------------------------------------
  // Properties

  lemma InitialWf()
    ensures Wf(Initial) && Inv(Initial)
  {
  }

  /** Adding keeps ids 1..N and `nextId == N + 1`; the new timer is number N + 1. */
  lemma AddPreservesWf(s: AppState)
    requires Wf(s)
    ensures Wf(AddTimer(s).state)
    ensures |s.timers| < MaxTimers ==> AddTimer(s).state.timers[|s.timers|].id == |s.timers| + 1
  {
  }

  /** The ids of any list numbered by position are distinct. */
  lemma PositionsAreUnique(ts: seq<TimerRecord>)
    requires IdsArePositions(ts)
    ensures UniqueIds(ts)
  {
  }

  /** The filter keeps exactly the records not numbered `id`. */
  lemma {:induction false} KeptMembers(ts: seq<TimerRecord>, id: int)
    ensures forall t :: t in Kept(ts, id) <==> t in ts && t.id != id
  {
    if ts != [] {
      KeptMembers(ts[1..], id);
      assert ts == [ts[0]] + ts[1..];
    }
  }

  /** With `id` carried by no record, the filter keeps the whole list. */
  lemma {:induction false} KeptNone(ts: seq<TimerRecord>, id: int)
    requires forall i :: 0 <= i < |ts| ==> ts[i].id != id
    ensures Kept(ts, id) == ts
  {
    if ts != [] {
      assert forall i :: 0 <= i < |ts[1..]| ==> ts[1..][i] == ts[i + 1];
      KeptNone(ts[1..], id);
    }
  }

  /** With `id` carried by record `k` alone, the filter drops exactly that record. */
  lemma {:induction false} KeptOne(ts: seq<TimerRecord>, id: int, k: nat)
    requires k < |ts| && ts[k].id == id
    requires forall i :: 0 <= i < |ts| && i != k ==> ts[i].id != id
    ensures Kept(ts, id) == ts[..k] + ts[k + 1..]
  {
    var tail := ts[1..];
    assert Kept(ts, id) == (if ts[0].id != id then [ts[0]] else []) + Kept(tail, id);
    if k == 0 {
      assert forall i :: 0 <= i < |tail| ==> tail[i].id == ts[i + 1].id;
      KeptNone(tail, id);
      assert Kept(ts, id) == tail;
      assert ts[..k] + ts[k + 1..] == tail;
    } else {
      assert forall i :: 0 <= i < |tail| && i != k - 1 ==> tail[i].id == ts[i + 1].id;
      KeptOne(tail, id, k - 1);
      assert Kept(ts, id) == [ts[0]] + (tail[..k - 1] + tail[k..]);
      assert ts[..k] == [ts[0]] + tail[..k - 1];
      assert ts[k + 1..] == tail[k..];
      assert [ts[0]] + (tail[..k - 1] + tail[k..]) == ([ts[0]] + tail[..k - 1]) + tail[k..];
    }
  }

  /**
   Removing timer `k` of a list numbered 1..N drops exactly the k-th record,
   keeps the others in order and renumbers them 1..N-1.
   */
  lemma RemovePresent(s: AppState, k: int)
    requires IdsArePositions(s.timers) && 1 <= k <= |s.timers|
    ensures RemoveTimer(s, k).timers == Renumber(s.timers[..k - 1] + s.timers[k..])
    ensures |RemoveTimer(s, k).timers| == |s.timers| - 1
  {
    KeptOne(s.timers, k, k - 1);
  }

  /** Removing an id that is not present leaves the records as they were. */
  lemma RemoveAbsent(s: AppState, id: int)
    requires IdsArePositions(s.timers) && !(1 <= id <= |s.timers|)
    ensures RemoveTimer(s, id).timers == s.timers
  {
    KeptNone(s.timers, id);
    assert Renumber(s.timers) == s.timers;
  }

  /**
   Removing keeps ids 1..N and `nextId == N + 1`, for a timer that exists or
   for any id while the list is not full.
   */
  lemma RemovePreservesWf(s: AppState, id: int)
    requires Wf(s)
    requires 1 <= id <= |s.timers| || |s.timers| < MaxTimers
    ensures Wf(RemoveTimer(s, id))
  {
    if 1 <= id <= |s.timers| {
      RemovePresent(s, id);
    } else {
      RemoveAbsent(s, id);
    }
  }

  /**
   The one exception: removing an id that is not present from a full list
   keeps all five timers but clamps the next id to 5.
   */
  lemma RemoveAbsentFromFull(s: AppState, id: int)
    requires Wf(s) && |s.timers| == MaxTimers && !(1 <= id <= MaxTimers)
    ensures RemoveTimer(s, id).timers == s.timers
    ensures RemoveTimer(s, id).nextId == MaxTimers
    ensures !Wf(RemoveTimer(s, id)) && Inv(RemoveTimer(s, id))
  {
    RemoveAbsent(s, id);
  }

  /** Adding keeps the reachable-state invariant. */
  lemma AddPreservesInv(s: AppState)
    requires Inv(s)
    ensures Inv(AddTimer(s).state)
  {
    if |s.timers| < MaxTimers {
      var r := AddTimer(s).state;
      assert s.nextId == |s.timers| + 1;
      assert forall i :: 0 <= i < |s.timers| ==> r.timers[i] == s.timers[i];
    }
  }

  /** Removing any id keeps the reachable-state invariant. */
  lemma RemovePreservesInv(s: AppState, id: int)
    requires Inv(s)
    ensures Inv(RemoveTimer(s, id))
  {
    if 1 <= id <= |s.timers| {
      RemovePresent(s, id);
    } else {
      RemoveAbsent(s, id);
    }
  }

  /** The reachable-state invariant survives adding, removing any id and selecting. */
  lemma StepsPreserveInv(s: AppState, id: int)
    requires Inv(s)
    ensures Inv(AddTimer(s).state)
    ensures Inv(RemoveTimer(s, id))
    ensures Inv(SelectVisible(s, id))
  {
    AddPreservesInv(s);
    RemovePreservesInv(s, id);
  }

  /**
   Where the visible timer goes on removal of timer `id`, for a list numbered 1..N.
   Removing the shown timer out of several shows timer 1, which exists.
   Removing the only timer shows its old number 1 although nothing is left.
   Otherwise the shown number stays, whether or not it still names a timer.
   */
  lemma RemoveVisible(s: AppState, id: int)
    requires IdsArePositions(s.timers) && 1 <= id <= |s.timers|
    ensures var r := RemoveTimer(s, id);
      s.visible == Some(id) && |s.timers| > 1 ==> r.visible == Some(1) && r.timers != [] && r.timers[0].id == 1
    ensures |s.timers| == 1 ==> RemoveTimer(s, id).visible == Some(1) && RemoveTimer(s, id).timers == []
    ensures s.visible != Some(id) && |s.timers| != 1 ==> RemoveTimer(s, id).visible == s.visible
  {
    RemovePresent(s, id);
  }

  // ---------------------------------------------------------------------------
  // Any sequence of button presses

  datatype Action = Add | Remove(id: int) | Select(id: int)

  function Apply(s: AppState, a: Action): AppState {
    match a
    case Add => AddTimer(s).state
    case Remove(id) => RemoveTimer(s, id)
    case Select(id) => SelectVisible(s, id)
  }

  function Replay(s: AppState, actions: seq<Action>): AppState
    decreases |actions|
  {
    if actions == [] then s else Replay(Apply(s, actions[0]), actions[1..])
  }

  /** From any state satisfying the invariant, any sequence of presses keeps it. */
  lemma {:induction false} ReplayPreservesInv(s: AppState, actions: seq<Action>)
    requires Inv(s)
    ensures Inv(Replay(s, actions))
    decreases |actions|
  {
    if actions != [] {
      var id := match actions[0] case Add => 0 case Remove(i) => i case Select(i) => i;
      StepsPreserveInv(s, id);
      ReplayPreservesInv(Apply(s, actions[0]), actions[1..]);
    }
  }

  /**
   Starting from the empty screen, no sequence of adds, removes and selections
   ever holds more than five timers, and ids always run 1..N.
   */
  lemma ReachableBounded(actions: seq<Action>)
    ensures |Replay(Initial, actions).timers| <= MaxTimers
    ensures IdsArePositions(Replay(Initial, actions).timers)
  {
    ReplayPreservesInv(Initial, actions);
  }

  /** In every reachable state that has room, the next timer added is number N + 1. */
  lemma ReachableAddsNextPosition(actions: seq<Action>)
    requires |Replay(Initial, actions).timers| < MaxTimers
    ensures var s := Replay(Initial, actions);
      AddTimer(s).state.timers == s.timers + [NewTimer(|s.timers| + 1)]
      && IdsArePositions(AddTimer(s).state.timers)
  {
    ReplayPreservesInv(Initial, actions);
  }

  // ---------------------------------------------------------------------------
  // Scenarios

  /**
   Adding two timers and removing the first: the survivor is renumbered 1 and
   the next id is 2, but the shown id stays 2, which now names no timer.
   */
  lemma RemoveFirstOfTwo()
    ensures var s := Replay(Initial, [Add, Add, Remove(1)]);
      s.timers == [NewTimer(1)] && s.nextId == 2 && s.visible == Some(2)
  {
    var a := AddTimer(Initial).state;
    var b := AddTimer(a).state;
    assert b.timers == [NewTimer(1), NewTimer(2)];
    assert Kept(b.timers, 1) == [NewTimer(2)];
    assert Replay(Initial, [Add, Add, Remove(1)]) == RemoveTimer(b, 1) by {
      assert [Add, Add, Remove(1)][1..] == [Add, Remove(1)];
      assert [Add, Remove(1)][1..] == [Remove(1)];
      assert [Remove(1)][1..] == [];
    }
  }

  /** Removing the only timer empties the list and resets the next id to 1, yet timer 1 stays "shown". */
  lemma RemoveOnlyTimer()
    ensures var s := Replay(Initial, [Add, Remove(1)]);
      s.timers == [] && s.nextId == 1 && s.visible == Some(1)
  {
    var a := AddTimer(Initial).state;
    assert Kept(a.timers, 1) == [];
    assert Replay(Initial, [Add, Remove(1)]) == RemoveTimer(a, 1) by {
      assert [Add, Remove(1)][1..] == [Remove(1)];
      assert [Remove(1)][1..] == [];
    }
  }

  /** A sixth add raises the capacity alert and changes nothing. */
  lemma SixthAddRefused()
    ensures var s := Replay(Initial, [Add, Add, Add, Add, Add]);
      |s.timers| == MaxTimers && AddTimer(s) == Outcome(s, [MaxTimersReached])
  {
    var acts := [Add, Add, Add, Add, Add];
    assert acts[1..] == [Add, Add, Add, Add];
    assert acts[1..][1..] == [Add, Add, Add];
    assert acts[1..][1..][1..] == [Add, Add];
    assert acts[1..][1..][1..][1..] == [Add];
    assert acts[1..][1..][1..][1..][1..] == [];
  }
}
