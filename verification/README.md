# Countdown timers: a Dafny model

A model of the state logic of a small React Native countdown-timer app. The
app screen holds at most five timers, numbers them 1..N by position, and shows
one of them at a time. Each timer counts down once a second while running. It
stops with a "Timer N has finished!" alert at zero. It can be paused, resumed
and reset, and its duration can be edited in a minutes/seconds dialog.

Every React handler is modelled as one atomic step from one immutable state to
the next. Each interval firing and each run of the countdown effect is an
explicit step. The alerts a step raises are returned as `Alert` values
alongside the new state.

Modules:

- `Decimal` (decimal.dfy): `String(n)` for integers, and the value of a digit string.
- `Alerts` (alerts.dfy): the three alerts, their message text, and `Outcome` (new state plus alerts).
- `Clock` (clock.dfy): `formatTime` (`MM:SS`), `padStart`, JavaScript's `%`, and reading a display back.
- `Countdown` (countdown.dfy): the timer record, tick, stop-at-zero, play/pause, reset, and runs of steps.
- `Edit` (edit.dfy): the edit dialog's Confirm handler.
- `Collection` (collection.dfy): the app screen's add, remove and select handlers, their invariants, and any sequence of presses.

Behaviour of the code worth knowing, modelled as written:

- After adding two timers (timer 2 is then shown), removing timer 1 renumbers the survivor to 1, but the shown id stays 2, which then names no timer. See `Collection.RemoveFirstOfTwo`. Had timer 1 been shown, the shown id would become 1.
- The edit check only bounds each field from above (at most 60) and requires a positive total. It does not require each field to be positive, so 1 minute and -30 seconds is accepted as 30 seconds.
- `nextId` is clamped to 5 only by removal. Adding the fifth timer sets it to 6. See `Collection.Inv`.

## Model

| member | source | states |
|---|---|---|
| Decimal.NatToString | src/components/timer.js:23 | `String(n)` for an integer 0 <= n < 10^21 is all digits and non-empty. It has one digit exactly when n < 10, at most two when n < 100, and no leading zero |
| Decimal.NatToStringRoundTrip | src/components/timer.js:23 | reading the printed number back gives the number |
| Decimal.IntToStringRoundTrip | src/components/timer.js:38 | `String(n)` of an integer of magnitude below 10^21, negative ones included, is a '-' sign or none followed by digits, and reads back as n |
| Decimal.IntToStringInjective | src/components/timer.js:38 | two different integers never print the same, negative ones included |
| Alerts.FinishedMessageIdentifiesTimer | src/components/timer.js:38 | two different timers never get the same completion message |
| Clock.JsRem60 | src/components/timer.js:22 | `t % 60` is the ordinary remainder for t >= 0. For t < 0 it lies in (-60, 0] and differs from t by a multiple of 60 |
| Clock.PadStart | src/components/timer.js:23 | `padStart(w, '0')` has length max(len, w), ends with the input, and everything before it is '0' |
| Clock.PadStartValue | src/components/timer.js:23 | zero padding keeps a digit string's value |
| Clock.FormatTimeReadsBack | src/components/timer.js:20-24 | for t >= 0 the display is digits, ':' and two digits. The minutes field reads t / 60, the seconds field reads t % 60 < 60, and 60 * minutes + seconds == t |
| Clock.FormatTimeIsFiveChars | src/components/timer.js:20-24 | below 6000 seconds the display is exactly five characters |
| Countdown.Update | src/components/timer.js:52-54 | `map(t => t.id === id ? f(t) : t)` keeps the length, applies f to the records numbered id, and leaves every other record alone |
| Countdown.Tick | src/components/timer.js:29-35 | one interval firing lowers timeLeft by exactly 1 on records numbered id that are running with time left. No other field or record changes |
| Countdown.FinishedAlerts | src/components/timer.js:37-38 | the effect raises alerts only for timer id, and raises some exactly when a record of id is running at zero |
| Countdown.Finish | src/components/timer.js:37-44 | a record of id running at zero is stopped with timeLeft left at 0. Every other record is unchanged, and every alert raised is "Timer id has finished" |
| Countdown.FinishAlertsOnce | src/components/timer.js:37-44 | when record k is the only one numbered id, the stop step raises exactly one alert if the timer has run out, otherwise none |
| Countdown.StepAt | src/components/timer.js:27-48 | when record k is the only one numbered id, a step of timer id ticks, stops with one alert, or does nothing, according to its own record only |
| Countdown.RunReachesZero | src/components/timer.js:27-36 | a running timer with t seconds left is at 0, still running, with no alert, after exactly t steps |
| Countdown.RunFinishesOnce | src/components/timer.js:27-48 | the next step stops it with a single finished alert. However many steps follow, no second alert is raised |
| Countdown.StoppedStaysQuiet | src/components/timer.js:29-44 | a stopped timer neither changes nor raises an alert, however many steps pass |
| Countdown.PauseFreezes | src/components/timer.js:51-55 | after pausing a running timer, no step changes it or raises an alert |
| Countdown.FinishFromZero | src/components/timer.js:37-44 | a running timer at zero is stopped by the next step with one finished alert, and any further steps change nothing and raise nothing |
| Countdown.UniqueOnlyAt | src/components/timer.js:52-54 | in a list with distinct ids each record is the only one with its id, so the single-record lemmas apply to every timer |
| Countdown.IterateSplit | src/components/timer.js:27-48 | a steps followed by b steps equal a + b steps, with the alerts of the first run before those of the second |
| Countdown.Toggle | src/components/timer.js:51-55 | play/pause flips isRunning of timer id only. timeLeft, inputTime and other records are untouched |
| Countdown.ToggleTwice | src/components/timer.js:51-55 | toggling twice restores the list |
| Countdown.Reset | src/components/timer.js:59 | reset puts timer id back to inputTime, stopped. inputTime, the id and other records are untouched |
| Countdown.ResetIdempotent | src/components/timer.js:59 | resetting twice equals resetting once |
| Countdown.StepsPreserveValid | src/components/timer.js:29-59 | tick, stop, step, toggle and reset keep 0 <= timeLeft <= inputTime |
| Countdown.RunPreservesValid | src/components/timer.js:27-48 | any number of countdown steps keeps 0 <= timeLeft <= inputTime |
| Edit.UpdateTime | src/components/timer.js:69-87 | Confirm raises "valid time" exactly when minutes > 60, seconds > 60, or 60 * minutes + seconds <= 0, and then nothing changes. Otherwise the selected timer gets inputTime = timeLeft = total and is stopped. Other records are untouched, the dialog closes, both fields clear, and total lies in 1..3660 |
| Edit.UpdateTimePreservesValid | src/components/timer.js:76-80 | an edit, accepted or not, keeps 0 <= timeLeft <= inputTime |
| Edit.UpdateTimeExamples | src/components/timer.js:69-86 | 5:00 is accepted as 300 seconds. 61:00, 0:00 and two blank fields are refused with no change |
| Edit.AcceptedDurationDisplays | src/components/timer.js:20-24 | every duration the dialog can accept displays as exactly `MM:SS` and reads back as itself |
| Collection.AddTimer | App.js:20-32 | below five timers: a 60-second timer numbered nextId is appended, nextId goes up by 1, and the new timer is shown. At five: only the "Max five timers allowed" alert, nothing changes |
| Collection.Kept | App.js:37 | no record the filter keeps is numbered id, and the result is no longer than the input |
| Collection.KeptMembers | App.js:37 | a record survives the filter exactly when it was in the list and is not numbered id |
| Collection.Renumber | App.js:40-43 | renumbering keeps the length and every field but the id, and the ids become 1..N by position |
| Collection.MaxId | App.js:50 | `Math.max` of the ids is one of the ids and no id exceeds it |
| Collection.MaxIdOfPositions | App.js:50 | when ids are 1..N, the maximum is N |
| Collection.RemoveTimer | App.js:35-63 | the survivors are the filtered records in order, renumbered 1..M. nextId is 1 when none are left and min(5, M + 1) otherwise. The shown id follows the rule on the list before removal |
| Collection.SelectVisible | App.js:104 | pressing a dot changes only the shown timer |
| Collection.InitialWf | App.js:11-13 | the empty start state satisfies the renumbering invariant |
| Collection.AddPreservesWf | App.js:20-28 | adding keeps ids 1..N and nextId == N + 1. The new timer is number N + 1 |
| Collection.PositionsAreUnique | App.js:40-43 | ids numbered by position are distinct, so each timer step acts on one record |
| Collection.KeptNone | App.js:37 | if no record has the id, the filter keeps the whole list |
| Collection.KeptOne | App.js:37 | if one record has the id, the filter drops exactly that record and keeps the rest in order |
| Collection.RemovePresent | App.js:37-43 | removing timer k of 1..N drops exactly the k-th record, keeps the others in order, and renumbers them 1..N-1 |
| Collection.RemoveAbsent | App.js:37-43 | removing an id that is not present leaves the records unchanged |
| Collection.RemovePreservesWf | App.js:35-55 | removing an existing timer keeps ids 1..N and nextId == N + 1. So does removing any id while the list is not full |
| Collection.RemoveAbsentFromFull | App.js:46-52 | removing an absent id from a full list keeps the five timers but clamps nextId to 5. This breaks nextId == N + 1 but keeps the reachable-state invariant |
| Collection.AddPreservesInv | App.js:20-31 | adding, accepted or refused, keeps the reachable-state invariant |
| Collection.RemovePreservesInv | App.js:35-63 | removing any id, present or not, keeps the reachable-state invariant |
| Collection.StepsPreserveInv | App.js:20-63 | add, remove of any id, and select keep the reachable-state invariant. That invariant is ids 1..N, N <= 5, and nextId == N + 1 except for a clamped 5 at N = 5 |
| Collection.RemoveVisible | App.js:57-62 | removing the shown timer out of several shows timer 1, which exists. Removing the only timer shows its old number 1 with the list empty. Otherwise the shown id is kept, whether or not it still names a timer |
| Collection.ReplayPreservesInv | App.js:20-63 | any sequence of presses keeps the reachable-state invariant |
| Collection.ReachableBounded | App.js:11-31 | from the empty screen no sequence of presses ever holds more than five timers, and ids always run 1..N |
| Collection.ReachableAddsNextPosition | App.js:20-28 | in every reachable state with room, the next timer added is number N + 1 and ids stay 1..N+1 |
| Collection.RemoveFirstOfTwo | App.js:20-62 | after add, add, remove 1: one timer numbered 1, nextId 2, and the shown id still 2 |
| Collection.RemoveOnlyTimer | App.js:46-62 | after add, remove 1: no timers, nextId 1, and the shown id still 1 |
| Collection.SixthAddRefused | App.js:20-31 | after five adds a sixth raises the capacity alert and changes nothing |

## Left out

- Rendering, styles, screen dimensions, icons, the `Modal` and the press wiring are not modelled. The `console.log` effect is left out too (App.js:15-17, 66-173; src/components/timer.js:93-271). They are presentational only.
- `setInterval`/`clearInterval` and the effect cleanup are not modelled (src/components/timer.js:27-48). Time is a sequence of explicit steps (`Countdown.Step`, `Countdown.Run`), so wall-clock drift and leaked intervals are outside the model.
- React hook semantics are not modelled. This covers batching, stale closures, and the split in `removeTimer` between the updater form and the closure-read `timers`. It also covers component reuse by `key` after renumbering. Each handler is one atomic step over one snapshot, so the updater's `prevTimers` and the closure's `timers` are the same list.
- The timer component reads its props only when mounted (src/components/timer.js:12-14). The app's list and each component's own list are therefore separate states. The model does not connect them: `Collection` models the app's list, and `Countdown`/`Edit` model a component's list.
- The component wraps its one record in a list and keeps its own `selectedTimerId`. This is modelled only as a list of records with a selected id (`Edit.Panel.selected`). `openModal`, `selectTimer`, Cancel and the fields' `onChangeText` just set those fields and are not separate operations (src/components/timer.js:15, 63-66, 91, 144-157).
- Text input parsing is not modelled (src/components/timer.js:70-71). This covers `parseInt(...) || 0` and comparing the raw string with 60. A field is either blank (reads as 0) or an integer, so non-numeric and decimal text is not covered.
- The app's records have no `isRunning` field (App.js:25). They are modelled with `isRunning = false`, which is how the component starts each record (src/components/timer.js:13).
- Countdown.Finish: the per-record `Expired` test stands for the effect's snapshot test. With duplicate ids the code would also stop a same-numbered record that is not at zero. The component's own list holds exactly one record (src/components/timer.js:12-14), so this case never arises.
- Decimal.IntToString: prints Dafny's unbounded integers. JavaScript numbers are doubles: `String(n)` switches to exponent form (`1e+21`) from 10^21 on, and integers above 2^53 are not represented exactly. Neither is modelled. The app prints only ids up to 6 and times up to 3660 seconds, far inside the exact range.
- The `Alert.alert`/`alert` calls are not modelled. They become returned `Alert` values, whose text is `Alerts.Message`.
