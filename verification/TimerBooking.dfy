/** When the workspace totals are the time really worked there. */
module TimerBooking {
  import opened Prelude
  import opened Events
  import opened SessionTimer
  import opened TimerRuns
  import opened TimerAccounts

  /** Unpaused work seconds that passed while `ws` was the current workspace. */
  function SpentOn(cfg: TimerConfig, inputs: seq<Input>, ws: string): nat {
    if inputs == [] then 0
    else
      var n := |inputs| - 1;
      var st := Run(cfg, inputs[..n]).state;
      SpentOn(cfg, inputs[..n], ws) + if IsWorkSecond(st, inputs[n]) && st.project == Some(ws) then 1 else 0
  }

  /** Seconds on the clock that would be booked on `ws` now. */
  function ClockOn(st: TimerState, ws: string): nat {
    if st.project == Some(ws) then InWork(st) else 0
  }

  /** The books are square: booked and still on the clock is what was spent, on every workspace. */
  ghost predicate Square(cfg: TimerConfig, inputs: seq<Input>) {
    forall ws :: SquareOn(cfg, inputs, ws)
  }

  predicate SquareOn(cfg: TimerConfig, inputs: seq<Input>, ws: string) {
    BookedOn(Run(cfg, inputs).state, ws) + ClockOn(Run(cfg, inputs).state, ws) == SpentOn(cfg, inputs, ws)
  }

  /** A change to another workspace with work seconds on the clock drags them along. */
  predicate Drags(st: TimerState, input: Input) {
    && input.Received? && input.event.WorkspaceChanged?
    && InWork(st) > 0 && st.project != Some(input.event.name)
  }

  lemma ChangeMoves(cfg: TimerConfig, inputs: seq<Input>, ws: string)
    requires inputs != [] && inputs[|inputs| - 1].Received? && inputs[|inputs| - 1].event.WorkspaceChanged?
    ensures var before, name := Run(cfg, inputs[..|inputs| - 1]).state, inputs[|inputs| - 1].event.name;
      && BookedOn(Run(cfg, inputs).state, ws) == BookedOn(before, ws)
      && SpentOn(cfg, inputs, ws) == SpentOn(cfg, inputs[..|inputs| - 1], ws)
      && ClockOn(Run(cfg, inputs).state, ws) == if ws == name then InWork(before) else 0
  {
  }

  lemma OtherInputsKeep(cfg: TimerConfig, inputs: seq<Input>, ws: string)
    requires inputs != [] && !(inputs[|inputs| - 1].Received? && inputs[|inputs| - 1].event.WorkspaceChanged?)
    requires SquareOn(cfg, inputs[..|inputs| - 1], ws)
    ensures SquareOn(cfg, inputs, ws)
  {
    var n := |inputs| - 1;
    var st, next := Run(cfg, inputs[..n]).state, Run(cfg, inputs).state;
    SameProject(cfg, st, inputs[n]);
    if st.phase == Work && next.phase != Work {
      LeavingWork(cfg, st, inputs[n]);
    } else {
      NotLeavingWork(cfg, st, inputs[n]);
    }
  }

  lemma SameProject(cfg: TimerConfig, st: TimerState, input: Input)
    requires !(input.Received? && input.event.WorkspaceChanged?)
    ensures Step(cfg, st, input).state.project == st.project
  {
  }

  lemma SquareStep(cfg: TimerConfig, inputs: seq<Input>)
    requires inputs != [] && Square(cfg, inputs[..|inputs| - 1])
    ensures Square(cfg, inputs) <==> !Drags(Run(cfg, inputs[..|inputs| - 1]).state, inputs[|inputs| - 1])
  {
    var n := |inputs| - 1;
    var st, input := Run(cfg, inputs[..n]).state, inputs[n];
    if input.Received? && input.event.WorkspaceChanged? {
      var name := input.event.name;
      forall ws ensures SquareOn(cfg, inputs, ws) <==> (Drags(st, input) ==> ws != name && st.project != Some(ws)) {
        assert SquareOn(cfg, inputs[..n], ws);
        ChangeMoves(cfg, inputs, ws);
      }
      assert SquareOn(cfg, inputs, name) <==> !Drags(st, input);
    } else {
      forall ws ensures SquareOn(cfg, inputs, ws) {
        assert SquareOn(cfg, inputs[..n], ws);
        OtherInputsKeep(cfg, inputs, ws);
      }
    }
  }

  ghost predicate SquareThroughout(cfg: TimerConfig, inputs: seq<Input>) {
    forall n | 0 <= n <= |inputs| :: Square(cfg, inputs[..n])
  }

  ghost predicate NeverDrags(cfg: TimerConfig, inputs: seq<Input>) {
    forall n | 0 <= n < |inputs| :: !Drags(Run(cfg, inputs[..n]).state, inputs[n])
  }

  lemma SquareFront(cfg: TimerConfig, inputs: seq<Input>)
    requires inputs != []
    ensures var n := |inputs| - 1;
      SquareThroughout(cfg, inputs) <==> SquareThroughout(cfg, inputs[..n]) && Square(cfg, inputs)
  {
    var n := |inputs| - 1;
    assert inputs[..n + 1] == inputs;
    forall k | 0 <= k <= n ensures inputs[..n][..k] == inputs[..k] {}
    if SquareThroughout(cfg, inputs) {
      forall k | 0 <= k <= n ensures Square(cfg, inputs[..n][..k]) { assert Square(cfg, inputs[..k]); }
    }
    if SquareThroughout(cfg, inputs[..n]) && Square(cfg, inputs) {
      forall k | 0 <= k <= n + 1 ensures Square(cfg, inputs[..k]) {
        if k <= n { assert Square(cfg, inputs[..n][..k]); }
      }
    }
  }

  lemma DragFront(cfg: TimerConfig, inputs: seq<Input>)
    requires inputs != []
    ensures var n := |inputs| - 1;
      NeverDrags(cfg, inputs) <==> NeverDrags(cfg, inputs[..n]) && !Drags(Run(cfg, inputs[..n]).state, inputs[n])
  {
    var n := |inputs| - 1;
    forall k | 0 <= k <= n ensures inputs[..n][..k] == inputs[..k] {}
    if NeverDrags(cfg, inputs) {
      forall k | 0 <= k < n ensures !Drags(Run(cfg, inputs[..n][..k]).state, inputs[..n][k]) {
        assert !Drags(Run(cfg, inputs[..k]).state, inputs[k]);
      }
    }
    if NeverDrags(cfg, inputs[..n]) && !Drags(Run(cfg, inputs[..n]).state, inputs[n]) {
      forall k | 0 <= k < n + 1 ensures !Drags(Run(cfg, inputs[..k]).state, inputs[k]) {
        if k < n { assert !Drags(Run(cfg, inputs[..n][..k]).state, inputs[..n][k]); }
      }
    }
  }

  /** The workspace totals are true throughout a run exactly when the workspace never changes while work
      seconds are on the clock. */
  lemma {:induction false} SquareIffNeverDragged(cfg: TimerConfig, inputs: seq<Input>)
    ensures SquareThroughout(cfg, inputs) <==> NeverDrags(cfg, inputs)
  {
    if inputs == [] {
      assert forall ws :: SquareOn(cfg, [], ws);
      assert inputs[..0] == [];
    } else {
      var n := |inputs| - 1;
      SquareIffNeverDragged(cfg, inputs[..n]);
      SquareFront(cfg, inputs);
      DragFront(cfg, inputs);
      if SquareThroughout(cfg, inputs[..n]) {
        assert inputs[..n][..n] == inputs[..n];
        SquareStep(cfg, inputs);
      }
    }
  }

  /** Then, outside work, what is booked on a workspace is what was spent there. */
  lemma {:induction false} BookedIsSpent(cfg: TimerConfig, inputs: seq<Input>, ws: string)
    requires NeverDrags(cfg, inputs) && Run(cfg, inputs).state.phase != Work
    ensures BookedOn(Run(cfg, inputs).state, ws) == SpentOn(cfg, inputs, ws)
  {
    SquareIffNeverDragged(cfg, inputs);
    assert inputs[..|inputs|] == inputs;
    assert Square(cfg, inputs);
    assert SquareOn(cfg, inputs, ws);
  }
}
