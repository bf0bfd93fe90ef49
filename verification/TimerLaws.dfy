/** When the timer changes phase, what counts as a second, and how long an interval lasts. */
module TimerLaws {
  import opened Prelude
  import opened Events
  import opened SessionTimer
  import opened TimerRuns
  import opened TimerAccounts

  predicate Says(input: Input, action: string) {
    input == Received(SessionTimerCommand(action))
  }

  predicate Toggles(input: Input) {
    input == Received(WidgetActionReceived("session-timer", "toggle"))
  }

  /** The second that completes the interval. */
  predicate RunsOut(st: TimerState, input: Input) {
    input == Second && !st.paused && st.elapsed + 1 >= st.planned
  }

  // ---------------------------------------------------------------- one step

  /** An idle timer leaves idle exactly when started, to work; a running one becomes idle exactly on "stop",
      and goes over to the other phase exactly when skipped or run out. */
  lemma {:induction false} PhaseChangesIff(cfg: TimerConfig, st: TimerState, input: Input)
    ensures var next := Step(cfg, st, input).state.phase;
      if st.phase == Idle then next == if Says(input, "start") || Toggles(input) then Work else Idle
      else
        && (next == Idle <==> Says(input, "stop"))
        && (next != st.phase && next != Idle <==> Says(input, "skip") || RunsOut(st, input))
  {
  }

  /** So an ended work interval that is not stopped is followed by a break, and an ended break by work. */
  lemma {:induction false} PhasesAlternate(cfg: TimerConfig, st: TimerState, input: Input)
    requires st.phase != Idle && Step(cfg, st, input).state.phase != st.phase && !Says(input, "stop")
    ensures Step(cfg, st, input).state.phase == if st.phase == Work then Break else Work
  {
  }

  predicate PausedAfter(was: bool, input: Input) {
    if was then !Says(input, "resume") && !Says(input, "start") && !Toggles(input)
    else Says(input, "pause") || Toggles(input)
  }

  /** The clock counts the unpaused seconds of an interval and starts anew with the next; within an interval
      the pause follows "pause", "resume", "start" and the toggle, and a new interval is not paused. */
  lemma {:induction false} ClockIs(cfg: TimerConfig, st: TimerState, input: Input)
    requires OnTheClock(st)
    ensures var next := Step(cfg, st, input).state;
      if next.phase != st.phase then next.elapsed == 0 && !next.paused
      else
        && next.elapsed == st.elapsed + (if st.phase != Idle && input == Second && !st.paused then 1 else 0)
        && next.planned == st.planned
        && (st.phase != Idle ==> next.paused == PausedAfter(st.paused, input))
  {
  }

  function Minutes(n: nat): nat {
    if n == 0 then 60 else 60 * n
  }

  /** A new interval has the configured length, one minute at least. */
  lemma {:induction false} LengthIs(cfg: TimerConfig, st: TimerState, input: Input)
    requires Step(cfg, st, input).state.phase != st.phase
    ensures var next := Step(cfg, st, input).state;
      match next.phase
      case Idle => next.planned == 0
      case Work => next.planned == Minutes(cfg.workMinutes)
      case Break =>
        var long := next.workDone % AtLeastOne(cfg.untilLongBreak) == 0 && next.workDone > 0;
        next.planned == Minutes(if long then cfg.longBreakMinutes else cfg.breakMinutes)
  {
  }

  /** A change of phase reports the end of the old interval with the seconds on its clock and the start of
      the new one with its length, both on the current workspace; without a change nothing is reported. */
  lemma {:induction false} ReportsAre(cfg: TimerConfig, st: TimerState, input: Input)
    ensures var next, out := Step(cfg, st, input).state, Step(cfg, st, input).events;
      var clock := st.elapsed + if input == Second then 1 else 0;
      if next.phase == st.phase then out == []
      else
        out == (if st.phase == Idle then [] else [FocusSessionEnded(st.phase.Wire(), st.project, clock)])
             + (if next.phase == Idle then [] else [FocusSessionStarted(next.phase.Wire(), st.project, next.planned)])
  {
  }

  // ---------------------------------------------------------------- runs

  /** The workspace named last. */
  function LastWorkspace(inputs: seq<Input>): Option<string> {
    if inputs == [] then None
    else
      var e := inputs[|inputs| - 1];
      if e.Received? && e.event.WorkspaceChanged? then Some(e.event.name) else LastWorkspace(inputs[..|inputs| - 1])
  }

  lemma {:induction false} ProjectIsLastWorkspace(cfg: TimerConfig, inputs: seq<Input>)
    ensures Run(cfg, inputs).state.project == LastWorkspace(inputs)
  {
    if inputs != [] { ProjectIsLastWorkspace(cfg, inputs[..|inputs| - 1]); }
  }

  /** A session that is on stays on until somebody says "stop". */
  lemma {:induction false} OnlyStopEndsTheSession(cfg: TimerConfig, inputs: seq<Input>, k: nat)
    requires k <= |inputs| && Run(cfg, inputs[..k]).state.phase != Idle
    requires forall i | k <= i < |inputs| :: !Says(inputs[i], "stop")
    ensures Run(cfg, inputs).state.phase != Idle
  {
    var n := |inputs| - 1;
    if k == |inputs| {
      assert inputs[..k] == inputs;
    } else {
      assert inputs[..n][..k] == inputs[..k];
      OnlyStopEndsTheSession(cfg, inputs[..n], k);
      StaysOn(cfg, inputs);
    }
  }

  lemma StaysOn(cfg: TimerConfig, inputs: seq<Input>)
    requires inputs != [] && Run(cfg, inputs[..|inputs| - 1]).state.phase != Idle
    requires !Says(inputs[|inputs| - 1], "stop")
    ensures Run(cfg, inputs).state.phase != Idle
  {
    PhaseChangesIff(cfg, Run(cfg, inputs[..|inputs| - 1]).state, inputs[|inputs| - 1]);
  }

  /** Unpaused seconds since the phase last changed. */
  function SecondsOn(cfg: TimerConfig, inputs: seq<Input>): nat {
    if inputs == [] then 0
    else
      var n := |inputs| - 1;
      var st := Run(cfg, inputs[..n]).state;
      if Run(cfg, inputs).state.phase != st.phase || st.phase == Idle then 0
      else SecondsOn(cfg, inputs[..n]) + if inputs[n] == Second && !st.paused then 1 else 0
  }

  lemma {:induction false} ClockCountsSeconds(cfg: TimerConfig, inputs: seq<Input>)
    ensures Run(cfg, inputs).state.elapsed == SecondsOn(cfg, inputs)
  {
    if inputs != [] {
      var n := |inputs| - 1;
      ClockCountsSeconds(cfg, inputs[..n]);
      AlwaysTimeLeft(cfg, inputs[..n]);
      AlwaysTimeLeft(cfg, inputs);
      ClockIs(cfg, Run(cfg, inputs[..n]).state, inputs[n]);
    }
  }

  /** `d` seconds and nothing else. */
  function After(cfg: TimerConfig, st: TimerState, d: nat): TimerState {
    if d == 0 then st else Step(cfg, After(cfg, st, d - 1), Second).state
  }

  /** Left alone, a running interval lasts exactly as long as planned, and then the other phase begins; a
      paused or idle timer stands still. */
  lemma {:induction false} IntervalLasts(cfg: TimerConfig, st: TimerState, d: nat)
    requires OnTheClock(st)
    ensures st.phase == Idle || st.paused ==> After(cfg, st, d) == st
    ensures st.phase != Idle && !st.paused && st.elapsed + d < st.planned ==>
      After(cfg, st, d) == st.(elapsed := st.elapsed + d)
    ensures st.phase != Idle && !st.paused && st.elapsed + d == st.planned ==>
      After(cfg, st, d).phase == (if st.phase == Work then Break else Work) && After(cfg, st, d).elapsed == 0
  {
    if d > 0 { IntervalLasts(cfg, st, d - 1); }
  }
}
