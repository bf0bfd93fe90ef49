/** The whole context engine over a run, and what the shell at the other end knows. */
module EngineRuns {
  import opened Prelude
  import opened Prominences
  import opened Expressions
  import opened Events
  import opened Cascade
  import opened CascadeSpace
  import opened CascadeOrder
  import opened Debounce
  import DR = DebounceRuns
  import opened SettledBar
  import opened ShellMirror
  import opened ContextEngine
  import opened Profiles
  import opened UiScale
  import opened TimerRuns

  /** An event or a tick, its time, and the profiles loaded at that time. */
  datatype Turn = Turn(profiles: seq<Profile>, event: Option<Event>, now: nat)

  /** The engine after `turns`. */
  function Run(setup: Setup, turns: seq<Turn>): EngineState {
    if turns == [] then NEW_ENGINE
    else
      var n := |turns| - 1;
      Turned(setup, turns[n].profiles, Run(setup, turns[..n]), turns[n].event, turns[n].now)
  }

  /** What the cascade is given in turn `n`. */
  function InputAt(setup: Setup, turns: seq<Turn>, n: nat): CascadeInput
    requires n < |turns|
  {
    var st := Run(setup, turns[..n]);
    var Turn(profiles, event, _) := turns[n];
    InputOf(setup, profiles, if event.Some? then Informed(setup, profiles, st, event.value) else st)
  }

  /** The debouncer's view of the run. */
  function Observations(setup: Setup, turns: seq<Turn>): seq<DR.Event> {
    seq(|turns|, n requires 0 <= n < |turns| => DR.Observe(Resolve(InputAt(setup, turns, n)).prominences, turns[n].now))
  }

  lemma ObservationsFront(setup: Setup, turns: seq<Turn>)
    requires turns != []
    ensures var n := |turns| - 1; Observations(setup, turns)[..n] == Observations(setup, turns[..n])
  {
    var n := |turns| - 1;
    forall i: nat | i < n ensures Observations(setup, turns)[i] == Observations(setup, turns[..n])[i] {
      SameInput(setup, turns, n, i);
    }
  }

  lemma SameInput(setup: Setup, turns: seq<Turn>, m: nat, n: nat)
    requires n < m <= |turns|
    ensures InputAt(setup, turns[..m], n) == InputAt(setup, turns, n)
  {
    assert turns[..m][..n] == turns[..n] && turns[..m][n] == turns[n];
  }

  lemma InputIs(setup: Setup, turns: seq<Turn>, n: nat)
    requires n < |turns|
    ensures var input := InputAt(setup, turns, n);
      input.widgets == setup.widgets && input.budget == setup.budget && input.userOverrides == setup.userOverrides
  {
  }

  /** The active profile of a run: what its actions made of it. */
  function ActiveAfter(turns: seq<Turn>): Option<string> {
    if turns == [] then None
    else
      var before, turn := ActiveAfter(turns[..|turns| - 1]), turns[|turns| - 1];
      if turn.event.Some? && turn.event.value.ProfileActionRequested? then
        ProfileAfter(turn.profiles, before, turn.event.value.action, turn.event.value.profile)
      else before
  }

  /** The events of a run. */
  function EventsOf(turns: seq<Turn>): seq<Event> {
    if turns == [] then []
    else
      var front, turn := EventsOf(turns[..|turns| - 1]), turns[|turns| - 1];
      if turn.event.Some? then front + [turn.event.value] else front
  }

  lemma {:induction false} SignalsAreFolded(setup: Setup, turns: seq<Turn>)
    ensures Run(setup, turns).signals == SignalsFold(setup.numerals, map[], EventsOf(turns))
    ensures Run(setup, turns).active == ActiveAfter(turns)
  {
    if turns != [] {
      var n := |turns| - 1;
      SignalsAreFolded(setup, turns[..n]);
      TurnSignals(setup, turns[n], Run(setup, turns[..n]));
      if turns[n].event.Some? { FoldOne(setup.numerals, EventsOf(turns[..n]), turns[n].event.value); }
    }
  }

  lemma TurnSignals(setup: Setup, turn: Turn, st: EngineState)
    ensures var next := Turned(setup, turn.profiles, st, turn.event, turn.now);
      && next.signals == (if turn.event.None? then st.signals
                         else SignalsAfter(setup.numerals, st.signals, turn.event.value))
      && next.active == if turn.event.Some? && turn.event.value.ProfileActionRequested?
           then ProfileAfter(turn.profiles, st.active, turn.event.value.action, turn.event.value.profile) else st.active
  {
  }

  lemma FoldOne(numerals: Numerals, stream: seq<Event>, e: Event)
    ensures SignalsFold(numerals, map[], stream + [e])
      == SignalsAfter(numerals, SignalsFold(numerals, map[], stream), e)
  {
    assert (stream + [e])[..|stream|] == stream;
  }

  /** In every turn the cascade is given the widgets, rules, budget and overrides of the setup, the signals
      of all events so far, and the loaded profile of the active name. */
  lemma {:induction false} CascadeIsGiven(setup: Setup, turns: seq<Turn>, n: nat)
    requires n < |turns|
    ensures var active := ActiveAfter(turns[..n + 1]);
      InputAt(setup, turns, n)
        == CascadeInput(setup.widgets, SignalsFold(setup.numerals, map[], EventsOf(turns[..n + 1])), setup.rules,
             if active.None? then None else FindProfile(turns[n].profiles, active.value), setup.budget,
             setup.userOverrides)
  {
    var now := turns[..n + 1];
    assert now[..n] == turns[..n] && now[n] == turns[n];
    SignalsAreFolded(setup, turns[..n]);
    SignalsAreFolded(setup, now);
  }

  /** The engine's debouncer is the debouncer run on the cascade results. */
  lemma {:induction false} DebouncerRuns(setup: Setup, turns: seq<Turn>)
    ensures Run(setup, turns).debouncer == DR.Run(setup.config, Observations(setup, turns))
  {
    if turns != [] {
      DebouncerRuns(setup, turns[..|turns| - 1]);
      ObservationsFront(setup, turns);
    }
  }

  lemma LastIs(setup: Setup, turns: seq<Turn>)
    requires turns != []
    ensures Run(setup, turns).last
         == Some(Snapshot(Resolve(InputAt(setup, turns, |turns| - 1)).bar, Run(setup, turns).debouncer.committed))
  {
  }

  lemma {:induction false} KnownIsCommitted(setup: Setup, turns: seq<Turn>)
    ensures KnownLevels(Run(setup, turns).last) == Run(setup, turns).debouncer.committed
  {
    if turns != [] { LastIs(setup, turns); }
  }

  // ---------------------------------------------------------------- what the shell hears

  /** What may be said in turn `n`: the answer to its event, then the delta. */
  ghost predicate Says(setup: Setup, turns: seq<Turn>, n: nat, ms: seq<Message>)
    requires n < |turns|
  {
    Utters(setup, Run(setup, turns[..n]), turns[n], Run(setup, turns[..n + 1]).last, ms)
  }

  ghost predicate Utters(setup: Setup, st: EngineState, turn: Turn, next: Option<Snapshot>, ms: seq<Message>) {
    exists delta :: Speech(setup, st, turn, next, ms, delta)
  }

  ghost predicate Speech(setup: Setup, st: EngineState, turn: Turn, next: Option<Snapshot>, ms: seq<Message>,
                         delta: seq<Message>) {
    ms == Answer(setup, st, turn) + delta && next.Some? && IsDelta(st.last, next.value, delta)
  }

  function Answer(setup: Setup, st: EngineState, turn: Turn): seq<Message> {
    if turn.event.Some? then Reply(setup.numerals, st.signals, turn.event.value) else []
  }

  ghost predicate IsTalk(setup: Setup, turns: seq<Turn>, talk: seq<seq<Message>>) {
    |talk| == |turns| && forall n: nat | n < |turns| :: Says(setup, turns, n, talk[n])
  }

  lemma TalkFront(setup: Setup, turns: seq<Turn>, talk: seq<seq<Message>>)
    requires turns != [] && IsTalk(setup, turns, talk)
    ensures IsTalk(setup, turns[..|turns| - 1], talk[..|turns| - 1])
  {
    var m := |turns| - 1;
    forall n: nat | n < m ensures Says(setup, turns[..m], n, talk[..m][n]) {
      SaysFront(setup, turns, n, m, talk[n]);
    }
  }

  lemma SaysFront(setup: Setup, turns: seq<Turn>, n: nat, m: nat, ms: seq<Message>)
    requires n < m <= |turns| && Says(setup, turns, n, ms)
    ensures Says(setup, turns[..m], n, ms)
  {
    SameState(setup, turns, m, n);
    SameState(setup, turns, m, n + 1);
  }

  lemma SameState(setup: Setup, turns: seq<Turn>, m: nat, n: nat)
    requires n <= m <= |turns|
    ensures Run(setup, turns[..m][..n]) == Run(setup, turns[..n])
  {
    assert turns[..m][..n] == turns[..n];
  }

  lemma AnswerIsNoNews(shell: Shell, setup: Setup, st: EngineState, turn: Turn)
    ensures ReceiveAll(shell, Answer(setup, st, turn)) == shell
  {
    var ms := Answer(setup, st, turn);
    if ms != [] {
      assert ms == [ms[0]] && [ms[0]][..0] == [];
    }
  }

  /** Without loss the shell knows, after every run, the last layout and the committed levels. */
  lemma {:induction false} ShellHearsEverything(setup: Setup, turns: seq<Turn>, talk: seq<seq<Message>>)
    requires IsTalk(setup, turns, talk)
    ensures ReceiveAll(BLANK, Flatten(talk)) == MirrorOf(Run(setup, turns).last)
  {
    if turns != [] {
      var n := |turns| - 1;
      var st, next := Run(setup, turns[..n]), Run(setup, turns);
      TalkFront(setup, turns, talk);
      ShellHearsEverything(setup, turns[..n], talk[..n]);
      assert turns[..n + 1] == turns && Says(setup, turns, n, talk[n]);
      assert Utters(setup, st, turns[n], next.last, talk[n]);
      var delta :| Speech(setup, st, turns[n], next.last, talk[n], delta);
      ReceiveJoin(BLANK, Flatten(talk[..n]), talk[n]);
      ReceiveJoin(MirrorOf(st.last), Answer(setup, st, turns[n]), delta);
      AnswerIsNoNews(MirrorOf(st.last), setup, st, turns[n]);
      LevelsOnlyGrow(setup, turns);
      HearWhole(st.last, next.last.value, delta);
    }
  }

  /** With losses it does exactly when the last message it heard on the bar, and on every widget, says what
      the last one sent does. */
  lemma {:induction false} ShellEndsInStepIff(setup: Setup, turns: seq<Turn>, talk: seq<seq<Message>>, ok: seq<bool>)
    requires IsTalk(setup, turns, talk) && |ok| == |Flatten(talk)|
    ensures ReceiveAll(BLANK, Delivered(Flatten(talk), ok)) == MirrorOf(Run(setup, turns).last)
       <==> SameLastWords(Flatten(talk), Delivered(Flatten(talk), ok))
  {
    ShellHearsEverything(setup, turns, talk);
    SameShellIff(Flatten(talk), Delivered(Flatten(talk), ok));
  }

  lemma LevelsOnlyGrow(setup: Setup, turns: seq<Turn>)
    requires turns != []
    ensures var n := |turns| - 1;
      KnownLevels(Run(setup, turns[..n]).last).Keys <= Run(setup, turns).debouncer.committed.Keys
  {
    var n := |turns| - 1;
    KnownIsCommitted(setup, turns[..n]);
    ObservedGrows(setup.config, Run(setup, turns[..n]).debouncer, Resolve(InputAt(setup, turns, n)).prominences,
      turns[n].now);
  }

  // ---------------------------------------------------------------- the four stages together

  ghost predicate TimeRises(turns: seq<Turn>) {
    forall i, j | 0 <= i < j < |turns| :: turns[i].now <= turns[j].now
  }

  /** From turn `k` on, the cascade gives what it gives in the last one. */
  ghost predicate QuietFrom(setup: Setup, turns: seq<Turn>, k: nat)
    requires turns != []
  {
    forall n: nat | k <= n < |turns| :: SameResult(setup, turns, n)
  }

  ghost predicate SameResult(setup: Setup, turns: seq<Turn>, n: nat)
    requires n < |turns|
  {
    Resolve(InputAt(setup, turns, n)).prominences == Resolve(InputAt(setup, turns, |turns| - 1)).prominences
  }

  /** From observation `k` on only `levels` were observed, for at least the longest delay. */
  ghost predicate Held(cfg: Config, obs: seq<DR.Event>, k: nat, levels: Levels) {
    && k < |obs| - 1 && DR.Stretch(obs, k, levels) && DR.ClockRises(obs)
    && obs[|obs| - 1].now >= obs[k].now + cfg.Longest()
  }

  /** Distinct widgets, overrides that only hide, and a bar below saturation. */
  ghost predicate Plain(widgets: seq<WidgetDef>, budget: Budget, overrides: map<string, Prominence>) {
    DistinctIds(widgets) && budget.available < U32_MAX && HidesOnly(overrides, widgets)
  }

  lemma QuietIsStretch(setup: Setup, turns: seq<Turn>, k: nat)
    requires turns != [] && QuietFrom(setup, turns, k)
    ensures DR.Stretch(Observations(setup, turns), k, Resolve(InputAt(setup, turns, |turns| - 1)).prominences)
  {
    var obs := Observations(setup, turns);
    forall n | k <= n < |obs|
      ensures obs[n].Observe? && obs[n].cascade == Resolve(InputAt(setup, turns, |turns| - 1)).prominences
    {
      assert SameResult(setup, turns, n);
    }
  }

  lemma ObservedTimes(setup: Setup, turns: seq<Turn>)
    ensures SameTimes(Observations(setup, turns), turns)
  {
  }

  ghost predicate SameTimes(obs: seq<DR.Event>, turns: seq<Turn>) {
    |obs| == |turns| && forall n | 0 <= n < |turns| :: obs[n].Observe? && obs[n].now == turns[n].now
  }

  lemma QuietIsHeld(setup: Setup, turns: seq<Turn>, k: nat)
    requires k < |turns| - 1 && QuietFrom(setup, turns, k) && TimeRises(turns)
    requires turns[|turns| - 1].now >= turns[k].now + setup.config.Longest()
    ensures Held(setup.config, Observations(setup, turns), k, Resolve(InputAt(setup, turns, |turns| - 1)).prominences)
  {
    QuietIsStretch(setup, turns, k);
    ObservedTimes(setup, turns);
    HeldLong(setup.config, Observations(setup, turns), k, Resolve(InputAt(setup, turns, |turns| - 1)).prominences,
      turns);
  }

  lemma HeldLong(cfg: Config, obs: seq<DR.Event>, k: nat, levels: Levels, turns: seq<Turn>)
    requires SameTimes(obs, turns) && TimeRises(turns) && DR.Stretch(obs, k, levels)
    requires k < |turns| - 1 && turns[|turns| - 1].now >= turns[k].now + cfg.Longest()
    ensures Held(cfg, obs, k, levels)
  {
  }

  /** A shell that lost nothing holds the last layout and the committed levels. */
  lemma ShellHolds(setup: Setup, turns: seq<Turn>, talk: seq<seq<Message>>)
    requires turns != [] && IsTalk(setup, turns, talk)
    ensures ReceiveAll(BLANK, Flatten(talk)) == Shell(Some(Resolve(InputAt(setup, turns, |turns| - 1)).bar),
      DR.Run(setup.config, Observations(setup, turns)).committed)
  {
    ShellHearsEverything(setup, turns, talk);
    LastIs(setup, turns);
    DebouncerRuns(setup, turns);
  }

  /** What the shell shows is what the cascade gives, fits the bar, and is what the zones list. */
  ghost predicate Shows(shell: Shell, input: CascadeInput) {
    var layout := Resolve(input);
    && shell.bar == Some(layout.bar)
    && (forall w | w in input.widgets :: LevelOf(shell.levels, w.id) == LevelOf(layout.prominences, w.id))
    && TrueUse(input.budget, ByPriority(input.widgets), shell.levels) <= input.budget.available
    && multiset(layout.bar.left + layout.bar.center + layout.bar.right)
      == multiset(ShownIds(input.widgets, shell.levels))
  }

  lemma SettledShows(cfg: Config, obs: seq<DR.Event>, k: nat, input: CascadeInput, shell: Shell)
    requires Plain(input.widgets, input.budget, input.userOverrides)
    requires Held(cfg, obs, k, Resolve(input).prominences)
    requires shell == Shell(Some(Resolve(input).bar), DR.Run(cfg, obs).committed)
    ensures Shows(shell, input)
  {
    SettledAgrees(cfg, obs, k, input);
    SettledBarFits(cfg, obs, k, input);
  }

  /** Events in, shell out: once the cascade has given one result for the longest delay, a shell that lost
      nothing shows that result. Its levels are the cascade's, widget by widget; without pins and below
      saturation their true widths and gaps fit the bar; and the zones it was sent list exactly the widgets
      it shows. */
  lemma {:induction false} ShellSettles(setup: Setup, turns: seq<Turn>, talk: seq<seq<Message>>, k: nat)
    requires IsTalk(setup, turns, talk) && TimeRises(turns)
    requires k < |turns| - 1 && QuietFrom(setup, turns, k)
    requires turns[|turns| - 1].now >= turns[k].now + setup.config.Longest()
    requires Plain(setup.widgets, setup.budget, setup.userOverrides)
    ensures Shows(ReceiveAll(BLANK, Flatten(talk)), InputAt(setup, turns, |turns| - 1))
  {
    ShellHolds(setup, turns, talk);
    QuietIsHeld(setup, turns, k);
    InputIs(setup, turns, |turns| - 1);
    SettledShows(setup.config, Observations(setup, turns), k, InputAt(setup, turns, |turns| - 1),
      ReceiveAll(BLANK, Flatten(talk)));
  }
}
