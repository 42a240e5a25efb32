/**
 * The timer as the window drives it: a sequence of user and clock events
 * applied to the stored settings and the timer state together. The
 * invariant of `Pomodoro.Inv` holds after every prefix of every run.
 */
module PomodoroSession {
  import opened Pomodoro

  datatype Event =
    | StartPressed
    | PausePressed
    | StopPressed
    | Second
    | WorkChanged(workValue: Minutes)
    | BreakChanged(breakValue: Minutes)
    | LongBreakChanged(longBreakValue: Minutes)

  datatype Machine = Machine(settings: Settings, timer: Timer)

  /** Values a spin box can report. */
  predicate ValidEvent(e: Event)
  {
    match e
    case WorkChanged(v) => v <= WorkMinutesMax
    case BreakChanged(v) => v <= BreakMinutesMax
    case LongBreakChanged(v) => v <= LongBreakMinutesMax
    case _ => true
  }

  predicate MachineInv(m: Machine)
  {
    InSpinBoxRanges(m.settings) && Inv(m.settings, m.timer)
  }

  /** The window just after construction. */
  function Initial(): (m: Machine)
    ensures m.settings == DefaultSettings
    ensures MachineInv(m)
    ensures Idle(m.timer) && m.timer.kind == Work
  {
    Machine(DefaultSettings, Setup())
  }

  function Step(m: Machine, e: Event): (r: Machine)
    ensures e.WorkChanged? || e.BreakChanged? || e.LongBreakChanged? || r.settings == m.settings
    ensures MachineInv(m) && ValidEvent(e) ==> MachineInv(r)
  {
    match e
    case StartPressed => m.(timer := Start(m.settings, m.timer))
    case PausePressed => m.(timer := Pause(m.timer))
    case StopPressed => m.(timer := Stop(m.timer))
    case Second => m.(timer := ClockTick(m.settings, m.timer))
    case WorkChanged(v) =>
      var (st, t) := OnWorkDurationChanged(m.settings, m.timer, v); Machine(st, t)
    case BreakChanged(v) =>
      var (st, t) := OnBreakDurationChanged(m.settings, m.timer, v); Machine(st, t)
    case LongBreakChanged(v) =>
      var (st, t) := OnLongBreakDurationChanged(m.settings, m.timer, v); Machine(st, t)
  }

  function Run(m: Machine, events: seq<Event>): Machine
    decreases |events|
  {
    if |events| == 0 then m else Run(Step(m, events[0]), events[1..])
  }

  /** Every run of spin-box-valid events from a state satisfying the invariant keeps it. */
  lemma {:induction false} RunPreservesInv(m: Machine, events: seq<Event>)
    requires MachineInv(m)
    requires forall i :: 0 <= i < |events| ==> ValidEvent(events[i])
    ensures MachineInv(Run(m, events))
    decreases |events|
  {
    if |events| > 0 {
      var m' := Step(m, events[0]);
      assert ValidEvent(events[0]);
      assert forall i :: 0 <= i < |events[1..]| ==> ValidEvent(events[1..][i]) by {
        forall i | 0 <= i < |events[1..]|
          ensures ValidEvent(events[1..][i])
        {
          assert events[1..][i] == events[i + 1];
        }
      }
      RunPreservesInv(m', events[1..]);
    }
  }

  /** Every state the window can reach satisfies the invariant. */
  lemma ReachableStatesSatisfyInv(events: seq<Event>)
    requires forall i :: 0 <= i < |events| ==> ValidEvent(events[i])
    ensures MachineInv(Run(Initial(), events))
  {
    RunPreservesInv(Initial(), events);
  }

  /** `n` consecutive clock seconds. */
  function Seconds(st: Settings, t: Timer, n: nat): Timer
    decreases n
  {
    if n == 0 then t else Seconds(st, ClockTick(st, t), n - 1)
  }

  /**
   * A running session counts down one second per clock tick: after `n` ticks,
   * `n` no larger than what was left, exactly `n` seconds are gone and nothing
   * else has changed.
   */
  lemma {:induction false} SecondsCountDown(st: Settings, t: Timer, n: nat)
    requires t.running && n <= t.remaining
    ensures Seconds(st, t, n) == t.(remaining := t.remaining - n)
    ensures Elapsed(Seconds(st, t, n)) == Elapsed(t) + n
    decreases n
  {
    if n > 0 {
      SecondsCountDown(st, ClockTick(st, t), n - 1);
    }
  }

  /**
   * Completion comes one tick after the countdown reaches zero: a running
   * session with `k` seconds left is still running after `k` ticks and is
   * replaced by the next, stopped, session on tick `k + 1`.
   */
  lemma CompletionOnTickAfterZero(st: Settings, t: Timer)
    requires t.running
    ensures Seconds(st, t, t.remaining).running
    ensures Seconds(st, t, t.remaining).remaining == 0
    ensures Seconds(st, t, t.remaining + 1) == Complete(st, t)
  {
    SecondsCountDown(st, t, t.remaining);
    var z := t.(remaining := 0);
    assert Seconds(st, z, 1) == Seconds(st, ClockTick(st, z), 0);
    SecondsSplit(st, t, t.remaining, 1);
  }

  lemma {:induction false} SecondsSplit(st: Settings, t: Timer, a: nat, b: nat)
    ensures Seconds(st, t, a + b) == Seconds(st, Seconds(st, t, a), b)
    decreases a
  {
    if a > 0 {
      SecondsSplit(st, ClockTick(st, t), a - 1, b);
    }
  }

  /**
   * Lets the clock run a started session to its end, returning how many
   * ticks that took and the state it leaves.
   */
  method RunToCompletion(st: Settings, t: Timer) returns (ticks: nat, r: Timer)
    requires t.running
    ensures ticks == t.remaining + 1
    ensures r == Complete(st, t)
    ensures !r.running && r.kind == Other(t.kind)
  {
    ticks := 0;
    r := t;
    while r.running
      invariant ticks <= t.remaining + 1
      invariant r.running ==> ticks <= t.remaining && r == t.(remaining := t.remaining - ticks)
      invariant !r.running ==> ticks == t.remaining + 1 && r == Complete(st, t)
      decreases t.remaining + 1 - ticks
    {
      r := ClockTick(st, r);
      ticks := ticks + 1;
    }
  }
}
