/**
 * The Pomodoro timer of the task manager window: four fields of runtime
 * state (planned duration, remaining seconds, session kind, running flag)
 * and the transitions the Start/Pause/Stop buttons, the one-second clock
 * and the duration spin boxes drive. Widget calls (progress ring, button
 * labels, message boxes) are side effects and are not modelled.
 */
module Pomodoro {

  const SecondsPerMinute: nat := 60

  /** Upper bounds of the three duration spin boxes; the lower bound is 1. */
  const WorkMinutesMax: nat := 60
  const BreakMinutesMax: nat := 30
  const LongBreakMinutesMax: nat := 60

  type Minutes = m: nat | 1 <= m witness 1

  datatype Kind = Work | Break

  function Other(k: Kind): (r: Kind)
    ensures r != k
  {
    if k == Work then Break else Work
  }

  /** The three duration settings, already parsed to minutes. */
  datatype Settings = Settings(work: Minutes, brk: Minutes, longBreak: Minutes)

  /**
   * The values the application starts with; the task store's settings table
   * holds the same three values as strings (`TaskStore.Initial`).
   */
  const DefaultSettings := Settings(25, 5, 15)

  /** The spin boxes only ever report values inside their ranges. */
  predicate InSpinBoxRanges(st: Settings)
  {
    && st.work <= WorkMinutesMax
    && st.brk <= BreakMinutesMax
    && st.longBreak <= LongBreakMinutesMax
  }

  /** Length in seconds of a fresh session of kind `k` under `st`. */
  function SessionSeconds(st: Settings, k: Kind): (n: nat)
    ensures n >= SecondsPerMinute
    ensures k == Work ==> n == st.work * SecondsPerMinute
    ensures k == Break ==> n == st.brk * SecondsPerMinute
  {
    (if k == Work then st.work else st.brk) * SecondsPerMinute
  }

  datatype Timer = Timer(duration: nat, remaining: nat, kind: Kind, running: bool)

  /** Seconds of the current session already spent. */
  function Elapsed(t: Timer): int
  {
    t.duration - t.remaining
  }

  /** Nothing in progress: the clock is stopped and nothing is left to count. */
  predicate Idle(t: Timer)
  {
    !t.running && t.remaining == 0
  }

  /**
   * The invariant every transition keeps: the countdown never exceeds the
   * planned duration, and while a session is in progress its planned
   * duration is the current setting of its kind.
   */
  predicate Inv(st: Settings, t: Timer)
  {
    && t.remaining <= t.duration
    && (t.remaining > 0 ==> t.duration == SessionSeconds(st, t.kind))
  }

  /** The state after the window is built: a Work session, nothing planned yet. */
  function Setup(): (t: Timer)
    ensures Idle(t) && t.kind == Work
    ensures forall st :: Inv(st, t)
  {
    Timer(0, 0, Work, false)
  }

  /**
   * The Start button. From a stopped timer with nothing left it loads a fresh
   * session of the current kind; from a paused one it resumes; a running
   * timer is left alone.
   */
  function Start(st: Settings, t: Timer): (r: Timer)
    ensures r.running && r.kind == t.kind
    ensures t.running ==> r == t
    ensures !t.running && t.remaining > 0 ==>
              r.remaining == t.remaining && r.duration == t.duration
    ensures !t.running && t.remaining == 0 ==>
              r.remaining == r.duration == SessionSeconds(st, t.kind)
    ensures !t.running ==> r.remaining > 0
    ensures Inv(st, t) ==> Inv(st, r)
  {
    if t.running then t
    else if t.remaining == 0 then
      var d := SessionSeconds(st, t.kind);
      Timer(d, d, t.kind, true)
    else
      t.(running := true)
  }

  /** The Pause button: only a running timer is affected, and only its flag. */
  function Pause(t: Timer): (r: Timer)
    ensures !r.running
    ensures r.duration == t.duration && r.remaining == t.remaining && r.kind == t.kind
    ensures forall st :: Inv(st, t) ==> Inv(st, r)
  {
    if t.running then t.(running := false) else t
  }

  /**
   * The Stop button: back to an idle Work session from any state. The planned
   * duration is left as it was; only the display shows the work setting.
   */
  function Stop(t: Timer): (r: Timer)
    ensures Idle(r) && r.kind == Work
    ensures r.duration == t.duration
    ensures forall st :: Inv(st, r)
  {
    Timer(t.duration, 0, Work, false)
  }

  /**
   * The session transition run when a tick finds nothing left: the clock
   * stops, the kind flips and the next session is loaded, ready but not
   * running.
   */
  function Complete(st: Settings, t: Timer): (r: Timer)
    ensures !r.running && r.kind == Other(t.kind)
    ensures r.remaining == r.duration == SessionSeconds(st, r.kind)
    ensures Inv(st, r)
  {
    var next := Other(t.kind);
    var d := SessionSeconds(st, next);
    Timer(d, d, next, false)
  }

  /**
   * One call of the tick handler. While time is left it counts one second
   * down; on the call that finds zero it completes the session.
   */
  function Tick(st: Settings, t: Timer): (r: Timer)
    ensures t.remaining > 0 ==>
              && r.remaining + 1 == t.remaining
              && r.duration == t.duration && r.kind == t.kind && r.running == t.running
              && Elapsed(r) == Elapsed(t) + 1
    ensures t.remaining == 0 ==> r == Complete(st, t)
    ensures Inv(st, t) ==> Inv(st, r)
  {
    if t.remaining > 0 then t.(remaining := t.remaining - 1)
    else Complete(st, t)
  }

  /**
   * The clock: the one-second timer is active exactly while `running` holds,
   * so a clock tick reaches the tick handler only then.
   */
  function ClockTick(st: Settings, t: Timer): (r: Timer)
    ensures !t.running ==> r == t
    ensures t.running && t.remaining > 0 ==> r == t.(remaining := t.remaining - 1)
    ensures t.running && t.remaining == 0 ==> r == Complete(st, t)
    ensures Inv(st, t) ==> Inv(st, r)
  {
    if t.running then Tick(st, t) else t
  }

  /**
   * The settings-change handler, run after any of the three settings has been
   * stored; `st` already holds the new value. It never asks which setting
   * changed: while a session is in progress it rebases the session on the
   * current setting of its own kind, keeping the elapsed time, or completes
   * the session at once when that much time has already passed.
   */
  function Reconfigure(st: Settings, t: Timer): (r: Timer)
    ensures Idle(t) ==>
              Idle(r) && r.kind == t.kind && r.duration == st.work * SecondsPerMinute
    ensures t.running && t.remaining == 0 ==> r == t
    ensures t.remaining > 0 && SessionSeconds(st, t.kind) > Elapsed(t) ==>
              && r.duration == SessionSeconds(st, t.kind)
              && Elapsed(r) == Elapsed(t)
              && 0 < r.remaining
              && r.kind == t.kind && r.running == t.running
    ensures t.remaining > 0 && SessionSeconds(st, t.kind) <= Elapsed(t) ==>
              r == Complete(st, t)
    ensures t.remaining <= t.duration ==> Inv(st, r)
  {
    if !t.running && t.remaining == 0 then
      t.(duration := st.work * SecondsPerMinute)
    else if t.remaining > 0 then
      var newDuration := SessionSeconds(st, t.kind);
      var elapsed := t.duration - t.remaining;
      if newDuration > elapsed then
        t.(duration := newDuration, remaining := newDuration - elapsed)
      else
        Tick(st, t.(remaining := 0))
    else
      t
  }

  /** The work spin box changed: store the value, then run the handler. */
  function OnWorkDurationChanged(st: Settings, t: Timer, value: Minutes): (r: (Settings, Timer))
    ensures r.0 == st.(work := value)
    ensures Idle(t) ==> r.1 == t.(duration := value * SecondsPerMinute)
    ensures t.running && t.remaining == 0 ==> r.1 == t
    ensures t.kind == Work && t.remaining > 0 && value * SecondsPerMinute > Elapsed(t) ==>
              && r.1.duration == value * SecondsPerMinute
              && Elapsed(r.1) == Elapsed(t)
              && r.1.running == t.running && r.1.kind == Work
    ensures t.kind == Work && t.remaining > 0 && value * SecondsPerMinute <= Elapsed(t) ==>
              r.1 == Complete(r.0, t)
    ensures t.kind == Break && Inv(st, t) && t.remaining > 0 ==> r.1 == t
    ensures t.remaining <= t.duration ==> Inv(r.0, r.1)
  {
    var st' := st.(work := value);
    (st', Reconfigure(st', t))
  }

  /** The break spin box changed: store the value, then run the handler. */
  function OnBreakDurationChanged(st: Settings, t: Timer, value: Minutes): (r: (Settings, Timer))
    ensures r.0 == st.(brk := value)
    ensures Idle(t) ==> r.1 == t.(duration := st.work * SecondsPerMinute)
    ensures t.running && t.remaining == 0 ==> r.1 == t
    ensures t.kind == Break && t.remaining > 0 && value * SecondsPerMinute > Elapsed(t) ==>
              && r.1.duration == value * SecondsPerMinute
              && Elapsed(r.1) == Elapsed(t)
              && r.1.running == t.running && r.1.kind == Break
    ensures t.kind == Break && t.remaining > 0 && value * SecondsPerMinute <= Elapsed(t) ==>
              r.1 == Complete(r.0, t)
    ensures t.kind == Work && Inv(st, t) && t.remaining > 0 ==> r.1 == t
    ensures t.remaining <= t.duration ==> Inv(r.0, r.1)
  {
    var st' := st.(brk := value);
    (st', Reconfigure(st', t))
  }

  /**
   * The long-break spin box changed: the value is stored, and the handler runs
   * although no timer path ever reads this setting.
   */
  function OnLongBreakDurationChanged(st: Settings, t: Timer, value: Minutes): (r: (Settings, Timer))
    ensures r.0 == st.(longBreak := value)
    ensures Idle(t) ==> r.1 == t.(duration := st.work * SecondsPerMinute)
    ensures !Idle(t) && Inv(st, t) ==> r.1 == t
    ensures t.remaining <= t.duration ==> Inv(r.0, r.1)
  {
    var st' := st.(longBreak := value);
    (st', Reconfigure(st', t))
  }

  // ---------------------------------------------------------------------
  // Properties relating several operations
  // ---------------------------------------------------------------------

  /** Pausing a running session with time left and starting again resumes it exactly. */
  lemma PauseThenStartResumes(st: Settings, t: Timer)
    requires t.running && t.remaining > 0
    ensures Start(st, Pause(t)) == t
  {
  }

  /**
   * Pausing on the last second (nothing left, completion tick not yet run)
   * and starting again loads a fresh session of the same kind instead.
   */
  lemma PauseAtZeroThenStartReloads(st: Settings, t: Timer)
    requires t.running && t.remaining == 0
    ensures Start(st, Pause(t)) == Timer(SessionSeconds(st, t.kind), SessionSeconds(st, t.kind), t.kind, true)
  {
  }

  /**
   * When the active kind's setting has not changed, the handler leaves an
   * in-progress session untouched: this is what changing the other kind's
   * setting, or the long-break setting, amounts to.
   */
  lemma ReconfigureKeepsSessionUnderSameSetting(st: Settings, t: Timer)
    requires Inv(st, t) && t.remaining > 0
    ensures Reconfigure(st, t) == t
  {
  }

  /** Changing the break setting during a Work session changes nothing in the timer. */
  lemma BreakChangeKeepsWorkSession(st: Settings, t: Timer, value: Minutes)
    requires Inv(st, t) && t.remaining > 0 && t.kind == Work
    ensures OnBreakDurationChanged(st, t, value).1 == t
  {
  }

  /** Changing the work setting during a Break session changes nothing in the timer. */
  lemma WorkChangeKeepsBreakSession(st: Settings, t: Timer, value: Minutes)
    requires Inv(st, t) && t.remaining > 0 && t.kind == Break
    ensures OnWorkDurationChanged(st, t, value).1 == t
  {
  }

  /** Changing the long-break setting never disturbs a session in progress. */
  lemma LongBreakChangeKeepsSession(st: Settings, t: Timer, value: Minutes)
    requires Inv(st, t) && t.remaining > 0
    ensures OnLongBreakDurationChanged(st, t, value).1 == t
  {
  }

  /**
   * The handler never asks which spin box changed: a work change and a break
   * change that leave the same settings stored give the same timer.
   */
  lemma HandlersAgreeOnSameSettings(st1: Settings, st2: Settings, t: Timer, v1: Minutes, v2: Minutes)
    requires OnWorkDurationChanged(st1, t, v1).0 == OnBreakDurationChanged(st2, t, v2).0
    ensures OnWorkDurationChanged(st1, t, v1).1 == OnBreakDurationChanged(st2, t, v2).1
  {
  }

  /** No timer path reads the long-break setting: its value never affects the rebase. */
  lemma ReconfigureIgnoresLongBreak(st: Settings, t: Timer, value: Minutes)
    ensures Reconfigure(st.(longBreak := value), t) == Reconfigure(st, t)
  {
  }

  /** A Work session that completes is followed by a Break session of the break setting. */
  lemma WorkCompletionLoadsBreak(st: Settings, t: Timer)
    requires t.running && t.remaining == 0 && t.kind == Work
    ensures ClockTick(st, t) == Timer(st.brk * SecondsPerMinute, st.brk * SecondsPerMinute, Break, false)
  {
  }

  /** Reconfiguring a Work session 600 s into 1500 s to 20 minutes leaves 600 s. */
  lemma ExtendExample()
    ensures Reconfigure(Settings(20, 5, 15), Timer(1500, 900, Work, true)) == Timer(1200, 600, Work, true)
  {
  }

  /** Reconfiguring the same session to 8 minutes completes it into a Break. */
  lemma ForceCompleteExample()
    ensures Reconfigure(Settings(8, 5, 15), Timer(1500, 900, Work, true)) == Timer(300, 300, Break, false)
  {
  }
}
