/** The Pomodoro timer: commands, workspace changes and seconds in, bracketed focus events out. */
module SessionTimer {
  import opened Prelude
  import opened Events

  datatype Phase = Idle | Work | Break {
    function Wire(): string {
      match this case Idle => "idle" case Work => "work" case Break => "break"
    }
  }

  datatype TimerConfig = TimerConfig(workMinutes: nat, breakMinutes: nat, longBreakMinutes: nat, untilLongBreak: nat)

  datatype TimerState = TimerState(
    phase: Phase,
    paused: bool,
    elapsed: nat,
    planned: nat,
    workDone: nat,
    project: Option<string>,
    perWorkspace: map<string, nat>)

  /** A state and the events published on the way to it. */
  datatype Outcome = Outcome(state: TimerState, events: seq<Event>)

  datatype Input = Received(event: Event) | Second

  const FRESH := TimerState(Idle, false, 0, 0, 0, None, map[])
  const WIDGET_ID := "session-timer"

  function AtLeastOne(n: nat): (r: nat)
    ensures r > 0
  {
    if n > 1 then n else 1
  }

  function WorkSecs(cfg: TimerConfig): nat { AtLeastOne(cfg.workMinutes) * 60 }

  function ShortBreakSecs(cfg: TimerConfig): nat { AtLeastOne(cfg.breakMinutes) * 60 }

  function LongBreakSecs(cfg: TimerConfig): nat { AtLeastOne(cfg.longBreakMinutes) * 60 }

  function BreakSecs(cfg: TimerConfig, workDone: nat): nat {
    if workDone > 0 && workDone % AtLeastOne(cfg.untilLongBreak) == 0 then LongBreakSecs(cfg) else ShortBreakSecs(cfg)
  }

  function PlannedSecs(cfg: TimerConfig, phase: Phase, workDone: nat): nat {
    match phase case Idle => 0 case Work => WorkSecs(cfg) case Break => BreakSecs(cfg, workDone)
  }

  function Entered(cfg: TimerConfig, st: TimerState, phase: Phase): Outcome {
    var next := st.(phase := phase, paused := false, elapsed := 0, planned := PlannedSecs(cfg, phase, st.workDone));
    Outcome(next, if phase == Idle then [] else [FocusSessionStarted(phase.Wire(), st.project, next.planned)])
  }

  function Booked(per: map<string, nat>, ws: string, secs: nat): map<string, nat> {
    per[ws := (if ws in per then per[ws] else 0) + secs]
  }

  /** End the running interval after `actual` seconds; work is counted and booked on the workspace. */
  function Ended(st: TimerState, actual: nat): Outcome {
    if st.phase == Idle then Outcome(st, [])
    else
      var next :=
        if st.phase != Work then st
        else st.(workDone := st.workDone + 1,
                 perWorkspace := if st.project.Some? then Booked(st.perWorkspace, st.project.value, actual)
                   else st.perWorkspace);
      Outcome(next, [FocusSessionEnded(st.phase.Wire(), st.project, actual)])
  }

  function EndedThenEntered(cfg: TimerConfig, st: TimerState, phase: Phase, resetCount: bool): Outcome {
    var first := Ended(st, st.elapsed);
    var mid := if resetCount then first.state.(workDone := 0) else first.state;
    var second := Entered(cfg, mid, phase);
    Outcome(second.state, first.events + second.events)
  }

  function Advanced(cfg: TimerConfig, st: TimerState): Outcome {
    match st.phase
    case Idle => Outcome(st, [])
    case Work => EndedThenEntered(cfg, st, Break, false)
    case Break => EndedThenEntered(cfg, st, Work, false)
  }

  function Commanded(cfg: TimerConfig, st: TimerState, action: string): Outcome {
    if action == "start" then
      if st.phase == Idle then Entered(cfg, st.(workDone := 0), Work)
      else Outcome(st.(paused := false), [])
    else if action == "pause" then
      Outcome(if st.phase != Idle then st.(paused := true) else st, [])
    else if action == "resume" then Outcome(st.(paused := false), [])
    else if action == "stop" then
      if st.phase == Idle then Outcome(st, []) else EndedThenEntered(cfg, st, Idle, true)
    else if action == "skip" then Advanced(cfg, st)
    else Outcome(st, [])
  }

  function Toggled(st: TimerState): string {
    if st.phase == Idle then "start" else if st.paused then "resume" else "pause"
  }

  function Ticked(cfg: TimerConfig, st: TimerState): Outcome {
    if st.phase == Idle || st.paused then Outcome(st, [])
    else
      var next := st.(elapsed := st.elapsed + 1);
      if next.elapsed >= next.planned then Advanced(cfg, next) else Outcome(next, [])
  }

  function Step(cfg: TimerConfig, st: TimerState, input: Input): Outcome {
    match input
    case Second => Ticked(cfg, st)
    case Received(SessionTimerCommand(action)) => Commanded(cfg, st, action)
    case Received(WorkspaceChanged(name, _)) => Outcome(st.(project := Some(name)), [])
    case Received(WidgetActionReceived(widget, action)) =>
      if widget == WIDGET_ID && action == "toggle" then Commanded(cfg, st, Toggled(st)) else Outcome(st, [])
    case Received(_) => Outcome(st, [])
  }

  // ---------------------------------------------------------------- the module

  class SessionTimerModule {
    const cfg: TimerConfig
    var phase: Phase
    var paused: bool
    var elapsed: nat
    var planned: nat
    var workDone: nat
    var project: Option<string>
    var perWorkspace: map<string, nat>
    /** Everything published on the bus, oldest first. */
    var published: seq<Event>

    function View(): TimerState
      reads this
    {
      TimerState(phase, paused, elapsed, planned, workDone, project, perWorkspace)
    }

    /** The object reached `out` from the events published before. */
    ghost predicate Reached(out: Outcome, before: seq<Event>)
      reads this
    {
      View() == out.state && published == before + out.events
    }

    constructor (cfg: TimerConfig)
      ensures this.cfg == cfg && View() == FRESH && published == []
    {
      this.cfg := cfg;
      phase, paused, elapsed, planned, workDone := Idle, false, 0, 0, 0;
      project, perWorkspace, published := None, map[], [];
    }

    method Enter(next: Phase)
      modifies this
      ensures Reached(Entered(cfg, old(View()), next), old(published))
    {
      phase := next;
      paused := false;
      elapsed := 0;
      planned := match next case Idle => 0 case Work => WorkSecs(cfg) case Break => BreakSecs(cfg, workDone);
      if phase != Idle {
        published := published + [FocusSessionStarted(phase.Wire(), project, planned)];
      }
    }

    method EndCurrent(actual: nat)
      modifies this
      ensures Reached(Ended(old(View()), actual), old(published))
    {
      if phase == Idle { return; }
      if phase == Work {
        workDone := workDone + 1;
        if project.Some? {
          var total := if project.value in perWorkspace then perWorkspace[project.value] else 0;
          perWorkspace := perWorkspace[project.value := total + actual];
        }
      }
      published := published + [FocusSessionEnded(phase.Wire(), project, actual)];
    }

    method Advance()
      modifies this
      ensures Reached(Advanced(cfg, old(View())), old(published))
    {
      if phase == Idle { return; }
      var next := if phase == Work then Break else Work;
      EndCurrent(elapsed);
      Enter(next);
    }

    method HandleCommand(action: string)
      modifies this
      ensures Reached(Commanded(cfg, old(View()), action), old(published))
    {
      if action == "start" {
        if phase == Idle {
          workDone := 0;
          Enter(Work);
        } else if paused {
          paused := false;
        }
      } else if action == "pause" {
        if phase != Idle && !paused { paused := true; }
      } else if action == "resume" {
        if paused { paused := false; }
      } else if action == "stop" {
        if phase != Idle {
          EndCurrent(elapsed);
          workDone := 0;
          Enter(Idle);
        }
      } else if action == "skip" {
        if phase != Idle { Advance(); }
      }
    }

    method AdvanceOneSecond()
      modifies this
      ensures Reached(Ticked(cfg, old(View())), old(published))
    {
      if phase == Idle || paused { return; }
      elapsed := elapsed + 1;
      if elapsed >= planned { Advance(); }
    }

    method OnEvent(e: Event)
      modifies this
      ensures Reached(Step(cfg, old(View()), Received(e)), old(published))
    {
      match e {
        case SessionTimerCommand(action) => HandleCommand(action);
        case WorkspaceChanged(name, _) => project := Some(name);
        case WidgetActionReceived(widget, action) =>
          if widget == WIDGET_ID && action == "toggle" {
            var resolved := if phase == Idle then "start" else if paused then "resume" else "pause";
            HandleCommand(resolved);
          }
        case _ =>
      }
    }

    method Tick()
      modifies this
      ensures Reached(Step(cfg, old(View()), Second), old(published))
    {
      AdvanceOneSecond();
    }
  }
}
