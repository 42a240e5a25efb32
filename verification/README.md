# Smart Task Manager: Pomodoro timer and task store

A Dafny model of the two pieces of logic in the Smart Task Manager desktop
application (`sweprojectfinal.py`) that are not UI construction or storage
plumbing.

- **The Pomodoro timer** (`pomodoro.dfy`, module `Pomodoro`). The window keeps
  four fields: `timer_duration`, `timer_remaining`, `is_work_session` and
  `is_timer_running`. They are modelled as an immutable `Timer` record. The
  session kind `Work | Break` replaces the boolean. Each button, clock tick
  and spin-box handler is a pure function of the `Settings` (work, break and
  long-break minutes) and the timer. `Pomodoro.Inv` is the invariant kept by
  every transition: `remaining <= duration`, and while time is left the
  planned duration is the current setting of the session's kind times 60.
- **The timer as the window drives it** (`pomodoro_session.dfy`, module
  `PomodoroSession`). Button presses, clock seconds and spin-box changes are
  events applied to settings and timer together. It proves the invariant for
  every reachable state, the one-second countdown, and that completion comes
  on the tick after the countdown reaches zero.
- **The in-memory task store** (`task_store.dfy`, module `TaskStore`). It holds
  a sequence of rows keyed by id, the `next_id` counter and a string-keyed
  settings map. It has add, update, delete and lookup by id, plus settings
  get/set with the `"25"` default. It also models the rule that marks a
  pending task completed. `TaskStore.Valid` says ids strictly increase along
  the list and all lie below the counter, which makes them unique.

The one-second `QTimer` is active exactly while `is_timer_running` holds. The
clock is therefore modelled as `ClockTick`, which reaches the tick handler only
while the timer is running. The settings are read with `int(get_setting(...))`
and arrive from spin boxes with ranges 1–60, 1–30 and 1–60. The timer takes
them as already-parsed minutes of at least 1 (`Pomodoro.Minutes`). The upper
bounds appear as `Pomodoro.InSpinBoxRanges` and `PomodoroSession.ValidEvent`.

The code has some behaviours a reader may not expect, and the model
reproduces them:
- Stop leaves `timer_duration` as it was. Only the display shows the work
  setting.
- The settings-change handler never looks at which setting changed. It always
  rebases on the setting of the active kind, and it also runs when the
  long-break setting changes.
- The timer starts with a planned duration of 0, not the work setting.
- When idle, the handler sets the planned duration to the work setting even
  if the session kind is Break. This happens after pausing on the last
  second of a break.
- Forced completion runs the tick handler's completion branch. That branch
  clears `running`, so a running timer ends up stopped.

## Model

| member | source | states |
|---|---|---|
| Pomodoro.SessionSeconds | sweprojectfinal.py:838-846 | a fresh session lasts the active kind's setting in minutes times 60, at least 60 seconds |
| Pomodoro.Setup | sweprojectfinal.py:821-827 | the timer starts idle in a Work session and satisfies the invariant under any settings |
| Pomodoro.Start | sweprojectfinal.py:835-851 | start always leaves the timer running in the same kind; a running timer is unchanged; a paused one resumes with remaining and duration kept; an idle one loads duration = remaining = the kind's setting × 60; the invariant is kept |
| Pomodoro.Pause | sweprojectfinal.py:857-860 | pause leaves the timer not running and changes neither duration, remaining nor kind; the invariant is kept |
| Pomodoro.Stop | sweprojectfinal.py:864-872 | stop from any state gives an idle Work timer whose planned duration is the old one, and the result satisfies the invariant under any settings |
| Pomodoro.Complete | sweprojectfinal.py:892-914 | session completion stops the timer, flips Work/Break and loads the new kind's full duration into both duration and remaining |
| Pomodoro.Tick | sweprojectfinal.py:880-914 | with time left a tick removes exactly one second, grows elapsed by one and changes nothing else; at zero it completes the session; the invariant is kept |
| Pomodoro.ClockTick | sweprojectfinal.py:822-823 | the clock only affects a running timer: it removes exactly one second while time is left, changing nothing else, and at zero completes the session |
| Pomodoro.Reconfigure | sweprojectfinal.py:756-815 | idle: only the planned duration becomes the work setting × 60; running with nothing left: unchanged; in progress with a new length above elapsed: duration becomes the new length, elapsed is preserved, remaining stays positive, kind and running are kept; otherwise the session completes at once; from any state with remaining ≤ duration the result satisfies the invariant for the new settings |
| Pomodoro.OnWorkDurationChanged | sweprojectfinal.py:741-815 | the work setting is stored; an idle timer's duration becomes the new value × 60; a running timer at zero is unchanged; a Work session in progress is extended to the new length with elapsed time, kind and running kept, or completed at once when that much time has passed; a Break session in progress is unchanged; the result satisfies the invariant for the new settings |
| Pomodoro.OnBreakDurationChanged | sweprojectfinal.py:746-815 | the break setting is stored; an idle timer's duration becomes the work setting × 60; a running timer at zero is unchanged; a Break session in progress is rebased on the new length, or completed at once when that much time has passed; a Work session in progress is unchanged; the result satisfies the invariant for the new settings |
| Pomodoro.OnLongBreakDurationChanged | sweprojectfinal.py:751-815 | the long-break setting is stored; an idle timer's duration becomes the work setting × 60; any other timer satisfying the invariant is unchanged |
| Pomodoro.PauseThenStartResumes | sweprojectfinal.py:835-860 | pausing a running session with time left and starting again restores exactly the same state |
| Pomodoro.PauseAtZeroThenStartReloads | sweprojectfinal.py:835-860 | pausing on the last second and starting again loads a fresh full session of the same kind |
| Pomodoro.ReconfigureKeepsSessionUnderSameSetting | sweprojectfinal.py:768-810 | when the active kind's setting did not change, the handler leaves an in-progress session exactly as it was |
| Pomodoro.BreakChangeKeepsWorkSession | sweprojectfinal.py:746-788 | changing the break setting during a Work session leaves the timer unchanged |
| Pomodoro.WorkChangeKeepsBreakSession | sweprojectfinal.py:741-810 | changing the work setting during a Break session leaves the timer unchanged |
| Pomodoro.LongBreakChangeKeepsSession | sweprojectfinal.py:751-810 | changing the long-break setting never disturbs a session in progress |
| Pomodoro.HandlersAgreeOnSameSettings | sweprojectfinal.py:741-772 | a work change and a break change that leave the same settings stored give the same timer: the handler never looks at which setting changed |
| Pomodoro.ReconfigureIgnoresLongBreak | sweprojectfinal.py:751-815 | the long-break value never affects the rebased timer, although its change still runs the handler |
| Pomodoro.WorkCompletionLoadsBreak | sweprojectfinal.py:892-904 | a completing Work session becomes a stopped Break session of the break setting × 60, with no auto-start |
| Pomodoro.ExtendExample | sweprojectfinal.py:769-788 | 1500 s planned with 900 s left, work set to 20 minutes: 1200 s planned with 600 s left, still running |
| Pomodoro.ForceCompleteExample | sweprojectfinal.py:789-793 | same start, work set to 8 minutes: an immediate switch to a stopped 300 s Break session |
| PomodoroSession.Initial | sweprojectfinal.py:821-827 | the window starts with the default 25/5/15 settings and an idle Work timer, satisfying the invariant |
| PomodoroSession.Step | sweprojectfinal.py:741-918 | only spin-box events change settings; every spin-box-valid event keeps settings in range and the timer invariant |
| PomodoroSession.RunPreservesInv | sweprojectfinal.py:741-918 | every sequence of valid events keeps the invariant, so remaining never goes negative nor exceeds duration |
| PomodoroSession.ReachableStatesSatisfyInv | sweprojectfinal.py:821-918 | every state reachable from the initial window satisfies the invariant |
| PomodoroSession.SecondsCountDown | sweprojectfinal.py:880-891 | n clock seconds on a running session with at least n seconds left remove exactly n seconds and change nothing else |
| PomodoroSession.CompletionOnTickAfterZero | sweprojectfinal.py:880-918 | a running session with k seconds left is still running at zero after k ticks and completes on tick k + 1 |
| PomodoroSession.RunToCompletion | sweprojectfinal.py:851-918 | letting the clock run a started session takes remaining + 1 ticks and ends stopped in the next session kind |
| TaskStore.Initial | sweprojectfinal.py:20-34 | the store starts with five valid sample rows, next id 6 and the three duration settings |
| TaskStore.FindIndex | sweprojectfinal.py:45-49 | the index found is the first row with the id; none is found exactly when no row has it |
| TaskStore.GetTaskById | sweprojectfinal.py:45-49 | a found row is the first row in the list carrying the id; nothing is found exactly when no row has the id |
| TaskStore.GetFindsUniqueRow | sweprojectfinal.py:45-49 | in a valid store, looking up any row's id returns that row |
| TaskStore.AddTask | sweprojectfinal.py:51-59 | add appends a row under next id, advances the counter, succeeds, and keeps ids unique and increasing |
| TaskStore.GetAfterAdd | sweprojectfinal.py:51-56 | the id handed out by an add finds the new row |
| TaskStore.GetOthersAfterAdd | sweprojectfinal.py:51-56 | an add does not change what any existing id finds |
| TaskStore.UpdateTask | sweprojectfinal.py:61-71 | update succeeds exactly when the id exists; on a miss the store is unchanged; on a hit every id stays in place, only that id's row changes and it holds the new data |
| TaskStore.GetAfterUpdate | sweprojectfinal.py:61-67 | after updating an existing id, looking it up yields the new data under the same id |
| TaskStore.FindIndexAfterKeyedWrite | sweprojectfinal.py:61-67 | rewriting a row while keeping its id leaves the position at which every id is first found unchanged |
| TaskStore.GetOthersAfterUpdate | sweprojectfinal.py:61-67 | an update of one id leaves what every other id finds unchanged |
| TaskStore.DeleteTask | sweprojectfinal.py:73-82 | delete succeeds exactly when the id exists, removes one row, and leaves the store unchanged on a miss |
| TaskStore.DeleteKeepsOtherRows | sweprojectfinal.py:73-78 | after a delete the rows are exactly the old rows without that id; since both lists are sorted by id (DeletePreservesValid), the survivors keep their order |
| TaskStore.DeletePreservesValid | sweprojectfinal.py:73-78 | a delete keeps ids unique and increasing |
| TaskStore.GetAfterDelete | sweprojectfinal.py:73-78 | after a delete in a valid store the id is no longer found |
| TaskStore.GetOthersAfterDelete | sweprojectfinal.py:73-78 | a delete of one id leaves what every other id finds unchanged |
| TaskStore.GetSetting | sweprojectfinal.py:84-85 | a stored setting is returned as stored; an unknown name gives "25" |
| TaskStore.UpdateSetting | sweprojectfinal.py:87-89 | the new value is read back, every other name reads as before, and the tasks are untouched |
| TaskStore.MarkTaskCompletedById | sweprojectfinal.py:1003-1016 | marking succeeds exactly when the task exists with display status "Pending"; only that row changes, to the same data with display status "Completed"; otherwise the store is unchanged; the update inside never fails |
| TaskStore.GetAfterMark | sweprojectfinal.py:1003-1010 | a marked task reads back with display status "Completed" and every other field as before |
| TaskStore.MarkIdempotent | sweprojectfinal.py:1003-1016 | marking the same task twice leaves the store as marking it once |

## Left out

- Widgets, painting, colours, button labels and message boxes: these are UI side effects with no state. This covers the circular progress ring, the start/pause enabling and the completion and settings notices.
- The 1000 ms wall clock: a second is an explicit `Second` event, and `ClockTick` applies it only while the timer runs.
- The mm:ss text shown on the ring: display only.
- Parsing setting strings with `int(...)`: the timer takes settings as positive minutes. The timer's `Settings` and the store's string map are therefore separate in the model.
- The spin boxes' clamping: the model takes their ranges as given (`PomodoroSession.ValidEvent`).
- Setting the "Resume"/"Start" label from `remaining < duration`: display only.
- `get_tasks` ignores its condition and returns all rows. That is the `tasks` field itself, so it has no separate member.
- Dashboard statistics and filtering: they depend on the current date, date parsing, floating-point percentages and Unicode lower-casing.
- The `except` branches of add/update/delete that print and return False: list operations on a well-typed row cannot raise, so they are not modelled.
- TaskStore.AddTask: task data is the fixed nine-field `TaskData` record. The source accepts any iterable of any length, but every caller passes nine fields.
- TaskStore.UpdateTask: the same nine-field `TaskData` restriction as for adding.
- The SQLite and MySQL handlers, the MySQL task wrapper and backup/restore file copying are in other files and are not part of this model. They are I/O and UI only.
