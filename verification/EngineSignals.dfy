/** What each signal says after a stream of events, and what the engine answers. */
module EngineSignals {
  import opened Prelude
  import opened Expressions
  import opened Events
  import opened ShellMirror
  import opened ContextEngine
  import opened UiScale
  import opened TimerRuns

  /** What is said about a signal: nothing, that it is gone, or a value. */
  datatype Word = Silence | Gone | Says(value: SignalValue)

  function TextOrGone(t: Option<string>): Word {
    if t.Some? then Says(Text(t.value)) else Gone
  }

  /** Signal by signal: who speaks about it, and what. */
  function WordOn(key: string, e: Event): Word {
    if key == "workspace.name" then (if e.WorkspaceChanged? then Says(Text(e.name)) else Silence)
    else if key == "workspace.focused_window" then
      if e.WorkspaceChanged? then TextOrGone(e.focusedWindow) else Silence
    else if key == "focused.app_id" then (if e.WindowFocused? then TextOrGone(e.appId) else Silence)
    else if key == "focused.title" then (if e.WindowFocused? then Says(Text(e.title)) else Silence)
    else if key == "power.on_battery" then (if e.PowerStateChanged? then Says(Bool(e.onBattery)) else Silence)
    else if key == "focus_session.active" then (if IsFocus(e) then Says(Bool(e.FocusSessionStarted?)) else Silence)
    else if key == "focus_session.on_break" then
      if IsFocus(e) then Says(Bool(e.FocusSessionStarted? && e.kind == "break")) else Silence
    else if key == "focus_session.kind" then
      if e.FocusSessionStarted? then Says(Text(e.kind)) else if e.FocusSessionEnded? then Says(Text("idle"))
        else Silence
    else Silence
  }

  function LastWord(key: string, stream: seq<Event>): Word {
    if stream == [] then Silence
    else
      var w := WordOn(key, stream[|stream| - 1]);
      if w == Silence then LastWord(key, stream[..|stream| - 1]) else w
  }

  function ValueOf(signals: SignalContext, key: string): Option<SignalValue> {
    if key in signals then Some(signals[key]) else None
  }

  function Heeded(was: Option<SignalValue>, w: Word): Option<SignalValue> {
    match w case Silence => was case Gone => None case Says(v) => Some(v)
  }

  lemma WordIsHeeded(numerals: Numerals, signals: SignalContext, e: Event, key: string)
    requires key != "bar.density" && key != "ui.scale"
    ensures ValueOf(SignalsAfter(numerals, signals, e), key) == Heeded(ValueOf(signals, key), WordOn(key, e))
  {
  }

  /** Every signal but density and scale says what the last event about it said; other events leave it. */
  lemma {:induction false} SignalsFollowEvents(numerals: Numerals, signals: SignalContext, stream: seq<Event>,
                                               key: string)
    requires key != "bar.density" && key != "ui.scale"
    ensures ValueOf(SignalsFold(numerals, signals, stream), key) == Heeded(ValueOf(signals, key), LastWord(key, stream))
  {
    if stream != [] {
      var n := |stream| - 1;
      SignalsFollowEvents(numerals, signals, stream[..n], key);
      WordIsHeeded(numerals, SignalsFold(numerals, signals, stream[..n]), stream[n], key);
    }
  }

  /** Only a density request changes the density, and only a scale request the scale. */
  lemma {:induction false} DensityAndScaleStay(numerals: Numerals, signals: SignalContext, e: Event)
    ensures !e.BarDensityRequested? ==>
      ValueOf(SignalsAfter(numerals, signals, e), "bar.density") == ValueOf(signals, "bar.density")
    ensures !e.UiScaleRequested? ==>
      ValueOf(SignalsAfter(numerals, signals, e), "ui.scale") == ValueOf(signals, "ui.scale")
  {
  }

  // ---------------------------------------------------------------- density

  const DENSITIES := ["full", "compact", "hidden"]

  function DensityCycled(numerals: Numerals, signals: SignalContext, k: nat): SignalContext {
    if k == 0 then signals
    else SignalsAfter(numerals, DensityCycled(numerals, signals, k - 1), BarDensityRequested("cycle"))
  }

  /** From no density, `k` cycles step through full, compact and hidden. */
  lemma {:induction false} DensityCycles(numerals: Numerals, signals: SignalContext, k: nat)
    requires "bar.density" !in signals
    ensures TextOf(DensityCycled(numerals, signals, k), "bar.density", "full") == DENSITIES[k % 3]
  {
    if k > 0 {
      DensityCycles(numerals, signals, k - 1);
      CycleOnce(numerals, DensityCycled(numerals, signals, k - 1), (k - 1) % 3);
      NextThird(k);
    }
  }

  lemma NextThird(k: nat)
    requires k > 0
    ensures ((k - 1) % 3 + 1) % 3 == k % 3
  {
  }

  lemma CycleOnce(numerals: Numerals, signals: SignalContext, i: nat)
    requires i < 3 && TextOf(signals, "bar.density", "full") == DENSITIES[i]
    ensures TextOf(SignalsAfter(numerals, signals, BarDensityRequested("cycle")), "bar.density", "full")
         == DENSITIES[(i + 1) % 3]
  {
    assert DENSITIES[0] == "full" && DENSITIES[1] == "compact" && DENSITIES[2] == "hidden";
  }

  /** Any other request is taken as given; an unknown density is followed by full. */
  lemma {:induction false} DensityIsTaken(numerals: Numerals, signals: SignalContext, mode: string)
    ensures mode != "cycle" ==>
      ValueOf(SignalsAfter(numerals, signals, BarDensityRequested(mode)), "bar.density") == Some(Text(mode))
    ensures TextOf(signals, "bar.density", "full") !in DENSITIES ==>
      ValueOf(SignalsAfter(numerals, signals, BarDensityRequested("cycle")), "bar.density") == Some(Text("full"))
  {
    assert DENSITIES[0] == "full" && DENSITIES[1] == "compact";
  }

  /** The engine tells the shell the density and the scale its signals then say, and answers nothing else. */
  lemma {:induction false} ReplyTellsSignals(numerals: Numerals, signals: SignalContext, e: Event)
    ensures var after, said := SignalsAfter(numerals, signals, e), Reply(numerals, signals, e);
      if e.BarDensityRequested? then
        && |said| == 1 && said[0].DensityMessage?
        && (said[0].density == CompactBar <==> ValueOf(after, "bar.density") == Some(Text("compact")))
        && (said[0].density == HiddenBar <==> ValueOf(after, "bar.density") == Some(Text("hidden")))
      else if e.UiScaleRequested? then
        && |said| == 1 && said[0].ScaleMessage?
        && ValueOf(after, "ui.scale") == Some(Text(numerals.show(said[0].factor)))
      else said == []
  {
  }

  /** The value of a scale request: read, else the usual one, and clamped. */
  lemma {:induction false} ScaleIsTaken(numerals: Numerals, stored: Option<string>, value: string)
    requires value != "cycle"
    ensures var f := ScaleAfter(numerals, stored, value);
      && (numerals.parse(value) == None ==> f == Finite(1.75))
      && (numerals.parse(value) == Some(NaN) ==> f == NaN)
      && (forall r | numerals.parse(value) == Some(r) && !r.NaN? ::
            && (f == r <==> !Below(r, Finite(0.5)) && !Below(Finite(4.0), r))
            && (Below(r, Finite(0.5)) ==> f == Finite(0.5))
            && (Below(Finite(4.0), r) ==> f == Finite(4.0)))
  {
  }

  /** Cycling from a value that is near no step starts over. */
  lemma {:induction false} ScaleStartsOver(numerals: Numerals, stored: string, f: Float)
    requires numerals.parse(stored) == Some(f) && forall i | 0 <= i < 5 :: !Near(STEPS[i], f)
    ensures ScaleAfter(numerals, Some(stored), "cycle") == Finite(1.0)
  {
  }
}
