/** The context engine: events update signals, every resolve runs cascade and debouncer and sends deltas. */
module ContextEngine {
  import opened Prelude
  import opened Prominences
  import opened Expressions
  import opened Events
  import opened Cascade
  import opened CascadeRun
  import opened Debounce
  import opened ShellMirror
  import opened Profiles
  import opened UiScale

  // ---------------------------------------------------------------- signals

  function TextOf(signals: SignalContext, key: string, default: string): string {
    if key in signals && signals[key].Text? then signals[key].s else default
  }

  /** `cycle` steps full, compact, hidden, full; anything else is taken as given. */
  function ResolvedDensity(signals: SignalContext, mode: string): string {
    if mode != "cycle" then mode
    else
      var current := TextOf(signals, "bar.density", "full");
      if current == "full" then "compact" else if current == "compact" then "hidden" else "full"
  }

  function DensityOf(mode: string): Density {
    if mode == "compact" then CompactBar else if mode == "hidden" then HiddenBar else FullBar
  }

  function SetOrRemove(signals: SignalContext, key: string, value: Option<string>): SignalContext {
    if value.Some? then signals[key := Text(value.value)] else signals - {key}
  }

  function FocusSignals(signals: SignalContext, active: bool, onBreak: bool, kind: string): SignalContext {
    var told := signals["focus_session.active" := Bool(active)]["focus_session.on_break" := Bool(onBreak)];
    told["focus_session.kind" := Text(kind)]
  }

  function StoredScale(signals: SignalContext): Option<string> {
    if "ui.scale" in signals && signals["ui.scale"].Text? then Some(signals["ui.scale"].s) else None
  }

  function SignalsAfter(numerals: Numerals, signals: SignalContext, e: Event): SignalContext {
    match e
    case WorkspaceChanged(name, window) =>
      SetOrRemove(signals["workspace.name" := Text(name)], "workspace.focused_window", window)
    case WindowFocused(app, title) =>
      SetOrRemove(signals, "focused.app_id", app)["focused.title" := Text(title)]
    case PowerStateChanged(onBattery) => signals["power.on_battery" := Bool(onBattery)]
    case BarDensityRequested(mode) => signals["bar.density" := Text(ResolvedDensity(signals, mode))]
    case UiScaleRequested(value) =>
      signals["ui.scale" := Text(numerals.show(ScaleAfter(numerals, StoredScale(signals), value)))]
    case FocusSessionStarted(kind, _, _) => FocusSignals(signals, true, kind == "break", kind)
    case FocusSessionEnded(_, _, _) => FocusSignals(signals, false, false, "idle")
    case _ => signals
  }

  /** What an event makes the engine say at once, before it resolves. */
  function Reply(numerals: Numerals, signals: SignalContext, e: Event): seq<Message> {
    match e
    case BarDensityRequested(mode) => [DensityMessage(DensityOf(ResolvedDensity(signals, mode)))]
    case UiScaleRequested(value) => [ScaleMessage(ScaleAfter(numerals, StoredScale(signals), value))]
    case _ => []
  }

  // ---------------------------------------------------------------- the outbound channel

  /** A shell that received what was delivered of `attempted`. */
  ghost function HeardFrom(attempted: seq<Message>, ok: seq<bool>): Shell
    requires |attempted| == |ok|
  {
    ReceiveAll(BLANK, Delivered(attempted, ok))
  }

  ghost predicate AllSent(ok: seq<bool>, start: nat) {
    forall i | start <= i < |ok| :: ok[i]
  }

  lemma {:induction false} DeliveredAfter(a: seq<Message>, c: seq<Message>, x: seq<bool>, y: seq<bool>)
    requires |a| == |x| && |c| == |y|
    ensures HeardFrom(a + c, x + y) == ReceiveAll(HeardFrom(a, x), Delivered(c, y))
  {
    DeliveredJoin(a, c, x, y);
    ReceiveJoin(BLANK, Delivered(a, x), Delivered(c, y));
  }

  /** A shell in step before a delta is in step after it exactly when the whole delta was sent. */
  lemma StaysInStep(last: Option<Snapshot>, snap: Snapshot, a: seq<Message>, ms: seq<Message>, x: seq<bool>,
                    y: seq<bool>)
    requires |a| == |x| && |ms| == |y| && IsDelta(last, snap, ms) && KnownLevels(last).Keys <= snap.levels.Keys
    requires HeardFrom(a, x) == MirrorOf(last)
    ensures HeardFrom(a + ms, x + y) == MirrorOf(Some(snap)) <==> AllSent(x + y, |x|)
  {
    DeliveredAfter(a, ms, x, y);
    InStepIffDelivered(last, snap, ms, y);
    if AllSent(x + y, |x|) {
      forall i | 0 <= i < |y| ensures y[i] { assert (x + y)[|x| + i]; }
    }
  }

  lemma AllSentPrefix(x: seq<bool>, y: seq<bool>)
    ensures AllSent(x + y, 0) ==> AllSent(x, 0) && AllSent(x + y, |x|)
  {
    if AllSent(x + y, 0) {
      forall i | 0 <= i < |x| ensures x[i] { assert (x + y)[i]; }
    }
  }

  /** Density and scale messages tell the shell nothing about bar and levels. */
  lemma ReplyIsNoNews(a: seq<Message>, x: seq<bool>, m: Message, sent: bool)
    requires |a| == |x| && (m.DensityMessage? || m.ScaleMessage?)
    ensures HeardFrom(a + [m], x + [sent]) == HeardFrom(a, x)
  {
  }

  /** A bounded channel: sending never waits, and fails when there is no room. */
  class WidgetPublisher {
    var room: nat
    /** The writer task has gone. */
    var closed: bool
    ghost var attempted: seq<Message>
    ghost var ok: seq<bool>

    ghost predicate Valid()
      reads this
    {
      |attempted| == |ok|
    }

    constructor (room: nat)
      ensures Valid() && attempted == [] && ok == [] && this.room == room && !closed
    {
      this.room, closed := room, false;
      attempted, ok := [], [];
    }

    method TrySend(m: Message) returns (sent: bool)
      requires Valid()
      modifies this
      ensures Valid() && sent == (!closed && old(room) > 0) && closed == old(closed)
      ensures room == (if sent then old(room) - 1 else old(room))
      ensures attempted == old(attempted) + [m] && ok == old(ok) + [sent]
    {
      sent := !closed && room > 0;
      if sent { room := room - 1; }
      attempted, ok := attempted + [m], ok + [sent];
    }

    /** The writer hangs up: from now on every send fails. */
    method Close()
      requires Valid()
      modifies this`closed
      ensures Valid() && closed
    {
      closed := true;
    }

    /** The writer takes `n` messages off the channel. */
    method Drain(n: nat)
      requires Valid()
      modifies this`room
      ensures Valid() && room == old(room) + n
    {
      room := room + n;
    }

    /** What the shell knows from everything delivered so far. */
    ghost function Heard(): Shell
      reads this
      requires Valid()
    {
      HeardFrom(attempted, ok)
    }
  }

  // ---------------------------------------------------------------- announcing level changes

  /** The part of `announced` about the widgets in `done`. */
  function Part(announced: Levels, done: set<string>): Levels {
    map w | w in announced && w in done :: announced[w]
  }

  lemma TellOneMore(ms: seq<Message>, announced: Levels, done: set<string>, w: string)
    requires TellsOnce(ms, Part(announced, done)) && w !in done && w in announced
    ensures TellsOnce(ms + [VisibilityMessage(w, announced[w] != Hidden, announced[w])], Part(announced, done + {w}))
  {
    var p, q := Part(announced, done), Part(announced, done + {w});
    var all := ms + [VisibilityMessage(w, announced[w] != Hidden, announced[w])];
    forall v | v in q ensures exists i | 0 <= i < |all| :: all[i].VisibilityMessage? && all[i].widget == v {
      if v == w {
        assert all[|ms|].widget == w;
      } else {
        assert v in p;
        var i :| 0 <= i < |ms| && ms[i].widget == v;
        assert all[i].widget == v;
      }
    }
  }

  lemma TellNoMore(announced: Levels, done: set<string>, w: string)
    requires w !in announced
    ensures Part(announced, done + {w}) == Part(announced, done)
  {
  }

  /** Walk the committed levels; `prev` keeps what was known about other widgets. */
  method SendCommitted(publisher: WidgetPublisher, known: Levels, levels: Levels)
    returns (prev: Levels, ghost ms: seq<Message>, ghost sent: seq<bool>)
    requires publisher.Valid()
    modifies publisher
    ensures publisher.Valid() && prev == known - levels.Keys
    ensures TellsOnce(ms, Part(Announced(known, levels), levels.Keys))
    ensures publisher.attempted == old(publisher.attempted) + ms && publisher.ok == old(publisher.ok) + sent
  {
    ghost var announced := Announced(known, levels);
    prev, ms, sent := known, [], [];
    var todo := levels.Keys;
    while todo != {}
      invariant publisher.Valid() && todo <= levels.Keys
      invariant prev == known - (levels.Keys - todo)
      invariant TellsOnce(ms, Part(announced, levels.Keys - todo))
      invariant publisher.attempted == old(publisher.attempted) + ms && publisher.ok == old(publisher.ok) + sent
    {
      var w :| w in todo;
      var previous := if w in prev then Some(prev[w]) else None;
      assert previous == if w in known then Some(known[w]) else None;
      prev := prev - {w};
      ghost var done := levels.Keys - todo;
      todo := todo - {w};
      assert levels.Keys - todo == done + {w};
      if previous != Some(levels[w]) {
        var ok := publisher.TrySend(VisibilityMessage(w, levels[w] != Hidden, levels[w]));
        TellOneMore(ms, announced, done, w);
        ms, sent := ms + [VisibilityMessage(w, levels[w] != Hidden, levels[w])], sent + [ok];
      } else {
        TellNoMore(announced, done, w);
      }
    }
    assert levels.Keys - todo == levels.Keys;
  }

  /** `told + ms` announces everything but the widgets still `leftover`. */
  ghost predicate ToldBut(told: seq<Message>, ms: seq<Message>, known: Levels, levels: Levels, leftover: set<string>) {
    TellsOnce(told + ms, Part(Announced(known, levels), levels.Keys + (known.Keys - levels.Keys - leftover)))
  }

  lemma TellHidden(told: seq<Message>, ms: seq<Message>, known: Levels, levels: Levels, leftover: set<string>,
                   w: string)
    requires ToldBut(told, ms, known, levels, leftover) && w in leftover && leftover <= known.Keys - levels.Keys
    ensures ToldBut(told, ms + [VisibilityMessage(w, false, Hidden)], known, levels, leftover - {w})
  {
    var done := levels.Keys + (known.Keys - levels.Keys - leftover);
    TellOneMore(told + ms, Announced(known, levels), done, w);
    assert told + ms + [VisibilityMessage(w, false, Hidden)] == told + (ms + [VisibilityMessage(w, false, Hidden)]);
    assert levels.Keys + (known.Keys - levels.Keys - (leftover - {w})) == done + {w};
  }

  lemma ToldAtFirst(told: seq<Message>, known: Levels, levels: Levels)
    requires TellsOnce(told, Part(Announced(known, levels), levels.Keys))
    ensures ToldBut(told, [], known, levels, known.Keys - levels.Keys)
  {
    assert told + [] == told;
    assert levels.Keys + (known.Keys - levels.Keys - (known.Keys - levels.Keys)) == levels.Keys;
  }

  lemma ToldAtLast(told: seq<Message>, ms: seq<Message>, known: Levels, levels: Levels)
    requires ToldBut(told, ms, known, levels, {})
    ensures TellsOnce(told + ms, Announced(known, levels))
  {
    assert Part(Announced(known, levels), levels.Keys + (known.Keys - levels.Keys - {})) == Announced(known, levels);
  }

  /** Widgets known before and committed no longer are told to hide; while nothing is forgotten, there
      are none. */
  method SendLeftover(publisher: WidgetPublisher, prev: Levels, ghost known: Levels, ghost levels: Levels,
                      ghost told: seq<Message>)
    returns (ghost ms: seq<Message>, ghost sent: seq<bool>)
    requires publisher.Valid() && prev == known - levels.Keys
    requires TellsOnce(told, Part(Announced(known, levels), levels.Keys))
    modifies publisher
    ensures publisher.Valid()
    ensures TellsOnce(told + ms, Announced(known, levels))
    ensures known.Keys <= levels.Keys ==> ms == []
    ensures publisher.attempted == old(publisher.attempted) + ms && publisher.ok == old(publisher.ok) + sent
  {
    var leftover := prev.Keys;
    ms, sent := [], [];
    assert prev.Keys == known.Keys - levels.Keys;
    ToldAtFirst(told, known, levels);
    while leftover != {}
      invariant publisher.Valid() && leftover <= prev.Keys && (ms != [] ==> prev.Keys != {})
      invariant ToldBut(told, ms, known, levels, leftover)
      invariant publisher.attempted == old(publisher.attempted) + ms && publisher.ok == old(publisher.ok) + sent
    {
      var w :| w in leftover;
      var ok := publisher.TrySend(VisibilityMessage(w, false, Hidden));
      TellHidden(told, ms, known, levels, leftover, w);
      ms, sent := ms + [VisibilityMessage(w, false, Hidden)], sent + [ok];
      leftover := leftover - {w};
    }
    ToldAtLast(told, ms, known, levels);
  }

  lemma DeltaParts(last: Option<Snapshot>, snap: Snapshot, more: seq<Message>)
    requires TellsOnce(more, Announced(KnownLevels(last), snap.levels))
    ensures IsDelta(last, snap, (if BarChanged(last, snap) then [BarLayoutMessage(snap.bar)] else []) + more)
  {
    assert ([BarLayoutMessage(snap.bar)] + more)[1..] == more;
    assert [] + more == more;
  }

  method SendBar(publisher: WidgetPublisher, last: Option<Snapshot>, snap: Snapshot)
    returns (ghost ms: seq<Message>, ghost sent: seq<bool>)
    requires publisher.Valid()
    modifies publisher
    ensures publisher.Valid()
    ensures ms == if BarChanged(last, snap) then [BarLayoutMessage(snap.bar)] else []
    ensures publisher.attempted == old(publisher.attempted) + ms && publisher.ok == old(publisher.ok) + sent
  {
    ms, sent := [], [];
    if last.None? || last.value.bar != snap.bar {
      var ok := publisher.TrySend(BarLayoutMessage(snap.bar));
      ms, sent := [BarLayoutMessage(snap.bar)], [ok];
    }
  }

  /** Send the bar if it changed, the changed levels, and the leftover. */
  method SendDelta(publisher: WidgetPublisher, last: Option<Snapshot>, snap: Snapshot)
    returns (ghost ms: seq<Message>, ghost sent: seq<bool>)
    requires publisher.Valid()
    modifies publisher
    ensures publisher.Valid() && IsDelta(last, snap, ms) && |sent| == |ms|
    ensures publisher.attempted == old(publisher.attempted) + ms && publisher.ok == old(publisher.ok) + sent
  {
    ghost var a, x := SendBar(publisher, last, snap);
    var prev;
    ghost var told, y;
    prev, told, y := SendCommitted(publisher, KnownLevels(last), snap.levels);
    ghost var rest, z := SendLeftover(publisher, prev, KnownLevels(last), snap.levels, told);
    DeltaParts(last, snap, told + rest);
    AppendThrice(old(publisher.attempted), a, told, rest);
    AppendThrice(old(publisher.ok), x, y, z);
    ms, sent := a + (told + rest), x + (y + z);
  }

  lemma ObservedGrows(cfg: Config, st: State, cascade: Levels, now: nat)
    ensures st.committed.Keys <= Observed(cfg, st, cascade, now).committed.Keys
  {
  }

  lemma NamesHas(profiles: seq<Profile>, name: string)
    ensures name in Names(profiles) <==> exists i :: 0 <= i < |profiles| && profiles[i].name == name
  {
    if i :| 0 <= i < |profiles| && profiles[i].name == name {
      assert Names(profiles)[i] == name;
    }
  }

  // ---------------------------------------------------------------- what one turn does

  /** What stays fixed while the engine runs. */
  datatype Setup = Setup(widgets: seq<WidgetDef>, rules: seq<CompiledRule>, budget: Budget,
                         userOverrides: Levels, numerals: Numerals, config: Config)

  datatype EngineState = EngineState(
    signals: SignalContext, active: Option<string>, debouncer: State, last: Option<Snapshot>)

  const NEW_ENGINE := EngineState(map[], None, State(map[], map[]), None)

  /** What the cascade is given under the profiles loaded at the time. */
  function InputOf(setup: Setup, profiles: seq<Profile>, st: EngineState): CascadeInput {
    var profile := if st.active.None? then None else FindProfile(profiles, st.active.value);
    CascadeInput(setup.widgets, st.signals, setup.rules, profile, setup.budget, setup.userOverrides)
  }

  function Informed(setup: Setup, profiles: seq<Profile>, st: EngineState, e: Event): EngineState {
    st.(signals := SignalsAfter(setup.numerals, st.signals, e),
        active := if e.ProfileActionRequested? then ProfileAfter(profiles, st.active, e.action, e.profile)
          else st.active)
  }

  function Resolved(setup: Setup, profiles: seq<Profile>, st: EngineState, now: nat): EngineState {
    var layout := Resolve(InputOf(setup, profiles, st));
    var debouncer := Observed(setup.config, st.debouncer, layout.prominences, now);
    st.(debouncer := debouncer, last := Some(Snapshot(layout.bar, debouncer.committed)))
  }

  /** An event, or just a tick, and the resolve after it. */
  function Turned(setup: Setup, profiles: seq<Profile>, st: EngineState, event: Option<Event>, now: nat): EngineState {
    Resolved(setup, profiles, if event.Some? then Informed(setup, profiles, st, event.value) else st, now)
  }

  // ---------------------------------------------------------------- the module

  class ContextEngineModule {
    const publisher: WidgetPublisher
    const widgets: seq<WidgetDef>
    const rules: seq<CompiledRule>
    const budget: Budget
    const userOverrides: Levels
    const numerals: Numerals
    const hysteresis: Hysteresis
    var profiles: seq<Profile>
    var activeProfile: Option<string>
    var signals: SignalContext
    var lastPublished: Option<Snapshot>

    /** The last published levels are the committed ones, and without loss the shell knows exactly what
        was published last. */
    ghost predicate Valid()
      reads this, publisher, hysteresis
    {
      && publisher.Valid() && hysteresis.Valid()
      && KnownLevels(lastPublished) == hysteresis.committed
      && (AllSent(publisher.ok, 0) ==> publisher.Heard() == MirrorOf(lastPublished))
    }

    constructor (publisher: WidgetPublisher, widgets: seq<WidgetDef>, rules: seq<CompiledRule>, profiles: seq<Profile>,
                 budget: Budget, userOverrides: Levels, numerals: Numerals, config: Config)
      requires publisher.Valid() && publisher.attempted == []
      ensures Valid() && fresh(hysteresis) && this.publisher == publisher && signals == map[]
      ensures this.widgets == widgets && this.rules == rules && this.profiles == profiles
      ensures this.budget == budget && this.userOverrides == userOverrides && this.numerals == numerals
        && hysteresis.config == config
      ensures activeProfile == None && lastPublished == None && hysteresis.View() == State(map[], map[])
    {
      this.publisher, this.widgets, this.rules, this.profiles := publisher, widgets, rules, profiles;
      this.budget, this.userOverrides, this.numerals := budget, userOverrides, numerals;
      hysteresis := new Hysteresis(config);
      activeProfile, signals, lastPublished := None, map[], None;
    }

    /** A loader replaces the shared profiles between two turns. */
    method LoadProfiles(loaded: seq<Profile>)
      requires Valid()
      modifies this`profiles
      ensures Valid() && profiles == loaded && View() == old(View())
    {
      profiles := loaded;
    }

    function ActiveProfile(): Option<Profile>
      reads this`profiles, this`activeProfile
    {
      if activeProfile.None? then None else FindProfile(profiles, activeProfile.value)
    }

    function Input(): CascadeInput
      reads this`profiles, this`activeProfile, this`signals
    {
      CascadeInput(widgets, signals, rules, ActiveProfile(), budget, userOverrides)
    }

    function Fixed(): Setup {
      Setup(widgets, rules, budget, userOverrides, numerals, hysteresis.config)
    }

    function View(): EngineState
      reads this`signals, this`activeProfile, this`lastPublished, hysteresis
    {
      EngineState(signals, activeProfile, hysteresis.View(), lastPublished)
    }

    /** Recompute, debounce, and send what changed. The bar sent is the undebounced layout; the levels
        are the committed ones. A shell in step before is in step after exactly when no send failed. */
    method ResolveAndPublish(now: nat) returns (committed: Levels, ghost ms: seq<Message>)
      requires Valid()
      modifies this`lastPublished, hysteresis, publisher
      ensures Valid()
      ensures hysteresis.View()
        == Observed(hysteresis.config, old(hysteresis.View()), Resolve(old(Input())).prominences, now)
      ensures committed == hysteresis.committed && Input() == old(Input())
      ensures lastPublished == Some(Snapshot(Resolve(old(Input())).bar, committed))
      ensures IsDelta(old(lastPublished), lastPublished.value, ms)
      ensures publisher.attempted == old(publisher.attempted) + ms
      ensures |publisher.ok| == |old(publisher.ok)| + |ms|
      ensures old(publisher.Heard()) == MirrorOf(old(lastPublished)) ==>
        (publisher.Heard() == MirrorOf(lastPublished) <==> AllSent(publisher.ok, |old(publisher.ok)|))
    {
      var snap := ResolveAndObserve(now);
      committed := snap.levels;
      ms := Publish(snap);
    }

    /** The cascade at `now`, fed through the debouncer. */
    method ResolveAndObserve(now: nat) returns (snap: Snapshot)
      requires hysteresis.Valid()
      modifies hysteresis
      ensures hysteresis.Valid()
      ensures hysteresis.View()
        == Observed(hysteresis.config, old(hysteresis.View()), Resolve(old(Input())).prominences, now)
      ensures snap == Snapshot(Resolve(old(Input())).bar, hysteresis.committed) && Input() == old(Input())
      ensures old(hysteresis.committed).Keys <= snap.levels.Keys
    {
      var layout := ResolveLayout(Input());
      var committed := hysteresis.Observe(layout.prominences, now);
      ObservedGrows(hysteresis.config, old(hysteresis.View()), layout.prominences, now);
      snap := Snapshot(layout.bar, committed);
    }

    method Publish(snap: Snapshot) returns (ghost ms: seq<Message>)
      requires publisher.Valid() && KnownLevels(lastPublished).Keys <= snap.levels.Keys
      requires AllSent(publisher.ok, 0) ==> publisher.Heard() == MirrorOf(lastPublished)
      modifies this`lastPublished, publisher
      ensures publisher.Valid() && lastPublished == Some(snap) && IsDelta(old(lastPublished), snap, ms)
      ensures publisher.attempted == old(publisher.attempted) + ms
      ensures |publisher.ok| == |old(publisher.ok)| + |ms|
      ensures old(publisher.Heard()) == MirrorOf(old(lastPublished)) ==>
        (publisher.Heard() == MirrorOf(lastPublished) <==> AllSent(publisher.ok, |old(publisher.ok)|))
      ensures AllSent(publisher.ok, 0) ==> publisher.Heard() == MirrorOf(lastPublished)
    {
      ghost var sent;
      ms, sent := SendDelta(publisher, lastPublished, snap);
      AllSentPrefix(old(publisher.ok), sent);
      if old(publisher.Heard()) == MirrorOf(old(lastPublished)) {
        StaysInStep(old(lastPublished), snap, old(publisher.attempted), ms, old(publisher.ok), sent);
      }
      lastPublished := Some(snap);
    }

    method ApplyEvent(e: Event)
      requires Valid()
      modifies this`signals, this`activeProfile, publisher
      ensures Valid()
      ensures signals == SignalsAfter(numerals, old(signals), e)
      ensures activeProfile == if e.ProfileActionRequested?
        then ProfileAfter(profiles, old(activeProfile), e.action, e.profile) else old(activeProfile)
      ensures publisher.attempted == old(publisher.attempted) + Reply(numerals, old(signals), e)
      ensures |publisher.ok| == |old(publisher.ok)| + |Reply(numerals, old(signals), e)|
      ensures publisher.Heard() == old(publisher.Heard()) && old(publisher.ok) <= publisher.ok
    {
      match e
      case WorkspaceChanged(name, window) =>
        signals := signals["workspace.name" := Text(name)];
        SetOrClear("workspace.focused_window", window);
      case WindowFocused(app, title) =>
        SetOrClear("focused.app_id", app);
        signals := signals["focused.title" := Text(title)];
      case PowerStateChanged(onBattery) =>
        signals := signals["power.on_battery" := Bool(onBattery)];
      case BarDensityRequested(mode) =>
        var resolved := ResolveDensity(mode);
        signals := signals["bar.density" := Text(resolved)];
        Say(DensityMessage(DensityOf(resolved)));
      case UiScaleRequested(value) =>
        var resolved := ResolveScale(value);
        signals := signals["ui.scale" := Text(numerals.show(resolved))];
        Say(ScaleMessage(resolved));
      case ProfileActionRequested(action, name) =>
        ApplyProfileAction(action, name);
      case FocusSessionStarted(kind, _, _) =>
        SetFocusSession(true, kind == "break", kind);
      case FocusSessionEnded(_, _, _) =>
        SetFocusSession(false, false, "idle");
      case _ =>
    }

    method SetOrClear(key: string, value: Option<string>)
      modifies this`signals
      ensures signals == SetOrRemove(old(signals), key, value)
    {
      if value.Some? {
        signals := signals[key := Text(value.value)];
      } else {
        signals := signals - {key};
      }
    }

    method SetFocusSession(active: bool, onBreak: bool, kind: string)
      modifies this`signals
      ensures signals == FocusSignals(old(signals), active, onBreak, kind)
    {
      signals := signals["focus_session.active" := Bool(active)];
      signals := signals["focus_session.on_break" := Bool(onBreak)];
      signals := signals["focus_session.kind" := Text(kind)];
    }

    /** Send a density or scale message; the shell's bar and levels are not touched. */
    method Say(m: Message)
      requires publisher.Valid() && (m.DensityMessage? || m.ScaleMessage?)
      modifies publisher
      ensures publisher.Valid() && publisher.attempted == old(publisher.attempted) + [m]
      ensures |publisher.ok| == |old(publisher.ok)| + 1 && old(publisher.ok) <= publisher.ok
      ensures publisher.Heard() == old(publisher.Heard())
      ensures AllSent(publisher.ok, 0) ==> AllSent(old(publisher.ok), 0)
    {
      var sent := publisher.TrySend(m);
      ReplyIsNoNews(old(publisher.attempted), old(publisher.ok), m, sent);
      AllSentPrefix(old(publisher.ok), [sent]);
    }

    method ResolveDensity(mode: string) returns (resolved: string)
      ensures resolved == ResolvedDensity(signals, mode)
    {
      resolved := mode;
      if mode == "cycle" {
        var current := TextOf(signals, "bar.density", "full");
        if current == "full" {
          resolved := "compact";
        } else if current == "compact" {
          resolved := "hidden";
        } else {
          resolved := "full";
        }
      }
    }

    method ResolveScale(value: string) returns (resolved: Float)
      ensures resolved == ScaleAfter(numerals, StoredScale(signals), value)
    {
      if value == "cycle" {
        var stored := StoredScale(signals);
        var parsed := if stored.Some? then numerals.parse(stored.value) else None;
        var current := if parsed.Some? then parsed.value else USUAL;
        var idx := 0;
        while idx < |STEPS| && !Near(STEPS[idx], current)
          invariant idx <= |STEPS| && forall k | 0 <= k < idx :: !Near(STEPS[k], current)
        {
          idx := idx + 1;
        }
        if idx == |STEPS| { idx := |STEPS| - 1; }
        resolved := Finite(STEPS[(idx + 1) % |STEPS|]);
      } else {
        var parsed := numerals.parse(value);
        resolved := Clamp(if parsed.Some? then parsed.value else USUAL);
      }
    }

    method ApplyProfileAction(action: string, name: Option<string>)
      modifies this`activeProfile
      ensures activeProfile == ProfileAfter(profiles, old(activeProfile), action, name)
    {
      if action == "activate" {
        if name.Some? {
          NamesHas(profiles, name.value);
          if exists i :: 0 <= i < |profiles| && profiles[i].name == name.value {
            activeProfile := name;
          }
        }
      } else if action == "deactivate" {
        if name.Some? {
          if activeProfile == name { activeProfile := None; }
        } else {
          activeProfile := None;
        }
      } else if action == "cycle" {
        CycleProfile();
      }
    }

    method CycleProfile()
      modifies this`activeProfile
      ensures activeProfile == Cycled(profiles, old(activeProfile))
    {
      if profiles == [] { return; }
      var names := SortNames(Names(profiles));
      SortedLength(profiles);
      if activeProfile.None? {
        activeProfile := Some(names[0]);
      } else {
        var idx := PositionOrLast(names, activeProfile.value);
        activeProfile := Some(names[(idx + 1) % |names|]);
      }
    }

    method PositionOrLast(names: seq<string>, name: string) returns (idx: nat)
      requires names != []
      ensures idx == if name in names then Position(names, name).value else |names| - 1
    {
      idx := 0;
      while idx < |names| && names[idx] != name
        invariant idx <= |names| && name !in names[..idx]
      {
        idx := idx + 1;
      }
      if idx == |names| {
        assert names[..idx] == names;
        idx := |names| - 1;
      } else {
        PositionIs(names, name, idx);
      }
    }

    method OnEvent(e: Event, now: nat) returns (committed: Levels, ghost ms: seq<Message>)
      requires Valid()
      modifies this`signals, this`activeProfile, this`lastPublished, hysteresis, publisher
      ensures Valid()
      ensures signals == SignalsAfter(numerals, old(signals), e)
      ensures activeProfile == if e.ProfileActionRequested?
        then ProfileAfter(profiles, old(activeProfile), e.action, e.profile) else old(activeProfile)
      ensures publisher.attempted == old(publisher.attempted) + Reply(numerals, old(signals), e) + ms
      ensures hysteresis.View()
        == Observed(hysteresis.config, old(hysteresis.View()), Resolve(Input()).prominences, now)
      ensures View() == Turned(Fixed(), profiles, old(View()), Some(e), now)
      ensures committed == hysteresis.committed
      ensures lastPublished == Some(Snapshot(Resolve(Input()).bar, committed))
      ensures IsDelta(old(lastPublished), lastPublished.value, ms)
    {
      ApplyEvent(e);
      assert View() == Informed(Fixed(), profiles, old(View()), e);
      committed, ms := ResolveAndPublish(now);
    }

    method Tick(now: nat) returns (committed: Levels, ghost ms: seq<Message>)
      requires Valid()
      modifies this`lastPublished, hysteresis, publisher
      ensures Valid() && publisher.attempted == old(publisher.attempted) + ms
      ensures hysteresis.View()
        == Observed(hysteresis.config, old(hysteresis.View()), Resolve(Input()).prominences, now)
      ensures View() == Turned(Fixed(), profiles, old(View()), None, now)
      ensures committed == hysteresis.committed
      ensures lastPublished == Some(Snapshot(Resolve(Input()).bar, committed))
      ensures IsDelta(old(lastPublished), lastPublished.value, ms)
    {
      committed, ms := ResolveAndPublish(now);
      assert View() == Resolved(Fixed(), profiles, old(View()), now);
    }
  }
}
