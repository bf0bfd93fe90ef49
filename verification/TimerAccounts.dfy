/** Where the seconds go, and when the long break comes. */
module TimerAccounts {
  import opened Prelude
  import opened Events
  import opened SessionTimer
  import opened TimerRuns

  // ---------------------------------------------------------------- conservation

  predicate EndsWork(e: Event) {
    e.FocusSessionEnded? && e.kind == "work"
  }

  /** Seconds reported by the ended work intervals that `counts`. */
  function Reported(counts: Event -> bool, trace: seq<Event>): nat {
    if trace == [] then 0
    else
      var e := trace[|trace| - 1];
      Reported(counts, trace[..|trace| - 1]) + if EndsWork(e) && counts(e) then e.actualSecs else 0
  }

  lemma {:induction false} ReportedJoin(counts: Event -> bool, a: seq<Event>, c: seq<Event>)
    ensures Reported(counts, a + c) == Reported(counts, a) + Reported(counts, c)
  {
    if c == [] {
      assert a + c == a;
    } else {
      var n := |c| - 1;
      ReportedJoin(counts, a, c[..n]);
      assert (a + c)[..|a| + n] == a + c[..n];
    }
  }

  /** A second that counts as work. */
  predicate IsWorkSecond(st: TimerState, input: Input) {
    input == Second && st.phase == Work && !st.paused
  }

  /** Unpaused seconds spent in work phases. */
  function WorkSeconds(cfg: TimerConfig, inputs: seq<Input>): nat {
    if inputs == [] then 0
    else
      var n := |inputs| - 1;
      WorkSeconds(cfg, inputs[..n]) + if IsWorkSecond(Run(cfg, inputs[..n]).state, inputs[n]) then 1 else 0
  }

  function InWork(st: TimerState): nat {
    if st.phase == Work then st.elapsed else 0
  }

  predicate Anyone(e: Event) { true }

  predicate ForWorkspace(e: Event, ws: string) {
    e.FocusSessionEnded? && e.project == Some(ws)
  }

  function BookedOn(st: TimerState, ws: string): nat {
    if ws in st.perWorkspace then st.perWorkspace[ws] else 0
  }

  /** What the events of one step report for work. */
  function StepReport(counts: Event -> bool, cfg: TimerConfig, st: TimerState, input: Input): nat {
    Reported(counts, Step(cfg, st, input).events)
  }

  lemma ReportShort(counts: Event -> bool, e: Event, f: Event)
    ensures Reported(counts, []) == 0
    ensures Reported(counts, [e]) == if EndsWork(e) && counts(e) then e.actualSecs else 0
    ensures Reported(counts, [e, f]) == Reported(counts, [e]) + Reported(counts, [f])
  {
  }

  /** Only the first event of a step can end work. */
  lemma StepReports(counts: Event -> bool, cfg: TimerConfig, st: TimerState, input: Input)
    ensures var out := Step(cfg, st, input);
      StepReport(counts, cfg, st, input)
        == if st.phase == Work && out.state.phase != Work && counts(out.events[0]) then out.events[0].actualSecs else 0
  {
    var out := Step(cfg, st, input);
    StepShape(cfg, st, input);
    if |out.events| == 0 {
      assert out.events == [];
    } else if |out.events| == 1 {
      assert out.events == [out.events[0]];
      ReportShort(counts, out.events[0], out.events[0]);
    } else {
      assert out.events == [out.events[0], out.events[1]];
      ReportShort(counts, out.events[0], out.events[1]);
      ReportShort(counts, out.events[1], out.events[1]);
    }
  }

  /** What a step that leaves work reports, and where it books it. */
  lemma LeavingWork(cfg: TimerConfig, st: TimerState, input: Input)
    requires st.phase == Work && Step(cfg, st, input).state.phase != Work
    ensures var out := Step(cfg, st, input);
      && out.events != [] && out.events[0].FocusSessionEnded? && out.events[0].project == st.project
      && out.events[0].actualSecs == st.elapsed + (if IsWorkSecond(st, input) then 1 else 0)
      && out.state.perWorkspace ==
           if st.project.None? then st.perWorkspace
           else Booked(st.perWorkspace, st.project.value, out.events[0].actualSecs)
  {
  }

  lemma NotLeavingWork(cfg: TimerConfig, st: TimerState, input: Input)
    requires st.phase != Work || Step(cfg, st, input).state.phase == Work
    ensures var out := Step(cfg, st, input);
      && InWork(out.state) == InWork(st) + (if IsWorkSecond(st, input) then 1 else 0)
      && out.state.perWorkspace == st.perWorkspace
  {
  }

  /** Every unpaused work second is either reported by an ended interval or still on the clock. */
  lemma {:induction false} WorkIsConserved(cfg: TimerConfig, inputs: seq<Input>)
    ensures WorkSeconds(cfg, inputs) == Reported(Anyone, Run(cfg, inputs).events) + InWork(Run(cfg, inputs).state)
  {
    if inputs != [] {
      var n := |inputs| - 1;
      var before := Run(cfg, inputs[..n]);
      WorkIsConserved(cfg, inputs[..n]);
      ReportedJoin(Anyone, before.events, Step(cfg, before.state, inputs[n]).events);
      StepReports(Anyone, cfg, before.state, inputs[n]);
      if before.state.phase == Work && Run(cfg, inputs).state.phase != Work {
        LeavingWork(cfg, before.state, inputs[n]);
      } else {
        NotLeavingWork(cfg, before.state, inputs[n]);
      }
    }
  }

  /** The total of each workspace is what the ended work intervals reported for it. */
  lemma {:induction false} WorkspacesAreBooked(cfg: TimerConfig, inputs: seq<Input>, ws: string)
    ensures BookedOn(Run(cfg, inputs).state, ws) == Reported(e => ForWorkspace(e, ws), Run(cfg, inputs).events)
  {
    if inputs != [] {
      var n := |inputs| - 1;
      var counts := e => ForWorkspace(e, ws);
      var before := Run(cfg, inputs[..n]);
      WorkspacesAreBooked(cfg, inputs[..n], ws);
      ReportedJoin(counts, before.events, Step(cfg, before.state, inputs[n]).events);
      StepReports(counts, cfg, before.state, inputs[n]);
      if before.state.phase == Work && Run(cfg, inputs).state.phase != Work {
        LeavingWork(cfg, before.state, inputs[n]);
      } else {
        NotLeavingWork(cfg, before.state, inputs[n]);
      }
    }
  }

  /** An interval that is running has time left; an idle timer is not paused and shows nothing. */
  ghost predicate OnTheClock(st: TimerState) {
    if st.phase == Idle then !st.paused && st.elapsed == 0 && st.planned == 0 else st.elapsed < st.planned
  }

  lemma {:induction false} AlwaysTimeLeft(cfg: TimerConfig, inputs: seq<Input>)
    ensures OnTheClock(Run(cfg, inputs).state)
  {
    if inputs != [] {
      var n := |inputs| - 1;
      AlwaysTimeLeft(cfg, inputs[..n]);
      TimeLeftStep(cfg, Run(cfg, inputs[..n]).state, inputs[n]);
    }
  }

  lemma TimeLeftStep(cfg: TimerConfig, st: TimerState, input: Input)
    requires OnTheClock(st)
    ensures OnTheClock(Step(cfg, st, input).state)
  {
  }

  // ---------------------------------------------------------------- the long break

  /** Work intervals ended since the timer last left idle. */
  function WorkSinceIdle(cfg: TimerConfig, inputs: seq<Input>): nat {
    if inputs == [] then 0
    else
      var n := |inputs| - 1;
      var st := Run(cfg, inputs[..n]).state;
      var out := Step(cfg, st, inputs[n]);
      if st.phase == Idle || out.state.phase == Idle then 0
      else WorkSinceIdle(cfg, inputs[..n]) + if out.events != [] && EndsWork(out.events[0]) then 1 else 0
  }

  lemma {:induction false} CountsSinceIdle(cfg: TimerConfig, inputs: seq<Input>)
    ensures Run(cfg, inputs).state.workDone == WorkSinceIdle(cfg, inputs)
  {
    if inputs != [] {
      var n := |inputs| - 1;
      CountsSinceIdle(cfg, inputs[..n]);
      CountStep(cfg, Run(cfg, inputs[..n]).state, inputs[n]);
      CountIdle(cfg, inputs[..n]);
    }
  }

  lemma CountStep(cfg: TimerConfig, st: TimerState, input: Input)
    ensures var out := Step(cfg, st, input);
      out.state.workDone ==
        if st.phase == Idle then (if out.state.phase == Idle then st.workDone else 0)
        else if out.state.phase == Idle then 0
        else st.workDone + if out.events != [] && EndsWork(out.events[0]) then 1 else 0
  {
  }

  lemma {:induction false} CountIdle(cfg: TimerConfig, inputs: seq<Input>)
    ensures Run(cfg, inputs).state.phase == Idle ==> Run(cfg, inputs).state.workDone == 0
  {
    if inputs != [] {
      var n := |inputs| - 1;
      CountIdle(cfg, inputs[..n]);
      CountStep(cfg, Run(cfg, inputs[..n]).state, inputs[n]);
    }
  }

  lemma BreakStart(cfg: TimerConfig, st: TimerState, input: Input, i: nat)
    requires var out := Step(cfg, st, input);
      i < |out.events| && out.events[i].FocusSessionStarted? && out.events[i].kind == "break"
    ensures var out := Step(cfg, st, input);
      && st.phase == Work && out.state.phase == Break && out.state.workDone > 0
      && out.events[i].plannedSecs == out.state.planned == BreakSecs(cfg, out.state.workDone)
  {
  }

  /** The break that starts after the `k`th work interval since the timer left idle is the long one
      exactly when `max(1, N)` divides `k`. */
  lemma {:induction false} LongBreakCadence(cfg: TimerConfig, inputs: seq<Input>, i: nat)
    requires inputs != []
    requires var n := |inputs| - 1;
      var out := Step(cfg, Run(cfg, inputs[..n]).state, inputs[n]);
      i < |out.events| && out.events[i].FocusSessionStarted? && out.events[i].kind == "break"
    ensures var n, k := |inputs| - 1, WorkSinceIdle(cfg, inputs);
      && k > 0
      && Step(cfg, Run(cfg, inputs[..n]).state, inputs[n]).events[i].plannedSecs
           == if k % AtLeastOne(cfg.untilLongBreak) == 0 then LongBreakSecs(cfg) else ShortBreakSecs(cfg)
  {
    CountsSinceIdle(cfg, inputs);
    BreakStart(cfg, Run(cfg, inputs[..|inputs| - 1]).state, inputs[|inputs| - 1], i);
  }
}
