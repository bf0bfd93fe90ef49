/** What the timer guarantees over whole runs, and what its listeners know. */
module TimerRuns {
  import opened Prelude
  import opened Expressions
  import opened Events
  import opened SessionTimer
  import opened Notifications
  import opened ContextEngine
  import opened UiScale

  /** State and events after `inputs`, from a fresh timer. */
  function Run(cfg: TimerConfig, inputs: seq<Input>): Outcome {
    if inputs == [] then Outcome(FRESH, [])
    else
      var before := Run(cfg, inputs[..|inputs| - 1]);
      var last := Step(cfg, before.state, inputs[|inputs| - 1]);
      Outcome(last.state, before.events + last.events)
  }

  // ---------------------------------------------------------------- brackets

  /** The open session after a trace: none, one of a kind, or a trace that is not bracketed. */
  datatype Session = Closed | Open(kind: string) | Broken

  function Next(s: Session, e: Event): Session {
    match e
    case FocusSessionStarted(kind, _, _) => if s == Closed then Open(kind) else Broken
    case FocusSessionEnded(kind, _, _) => if s == Open(kind) then Closed else Broken
    case _ => Broken
  }

  function SessionAfter(s: Session, trace: seq<Event>): Session {
    if trace == [] then s else Next(SessionAfter(s, trace[..|trace| - 1]), trace[|trace| - 1])
  }

  function SessionOf(phase: Phase): Session {
    if phase == Idle then Closed else Open(phase.Wire())
  }

  lemma {:induction false} SessionJoin(s: Session, a: seq<Event>, c: seq<Event>)
    ensures SessionAfter(s, a + c) == SessionAfter(SessionAfter(s, a), c)
  {
    if c == [] {
      assert a + c == a;
    } else {
      var n := |c| - 1;
      SessionJoin(s, a, c[..n]);
      assert (a + c)[..|a| + n] == a + c[..n];
    }
  }

  lemma SessionShort(s: Session, e: Event, f: Event)
    ensures SessionAfter(s, []) == s && SessionAfter(s, [e]) == Next(s, e)
    ensures SessionAfter(s, [e, f]) == Next(Next(s, e), f)
  {
  }

  /** The events of one step, spelled out. */
  lemma StepShape(cfg: TimerConfig, st: TimerState, input: Input)
    ensures var out := Step(cfg, st, input);
      var p, q := st.phase, out.state.phase;
      || (out.events == [] && q == p)
      || (p == Idle && q == Work && |out.events| == 1 && out.events[0].FocusSessionStarted?
        && out.events[0].kind == "work")
      || (p != Idle && q == Idle && |out.events| == 1 && out.events[0].FocusSessionEnded?
        && out.events[0].kind == p.Wire())
      || (p != Idle && q != Idle && q != p && |out.events| == 2
          && out.events[0].FocusSessionEnded? && out.events[0].kind == p.Wire()
          && out.events[1].FocusSessionStarted? && out.events[1].kind == q.Wire())
  {
  }

  lemma StepSession(cfg: TimerConfig, st: TimerState, input: Input)
    ensures SessionAfter(SessionOf(st.phase), Step(cfg, st, input).events)
      == SessionOf(Step(cfg, st, input).state.phase)
  {
    var out := Step(cfg, st, input);
    StepShape(cfg, st, input);
    if |out.events| == 1 {
      assert out.events == [out.events[0]];
      SessionShort(SessionOf(st.phase), out.events[0], out.events[0]);
    } else if |out.events| == 2 {
      assert out.events == [out.events[0], out.events[1]];
      SessionShort(SessionOf(st.phase), out.events[0], out.events[1]);
    }
  }

  /** Over every run the trace strictly alternates starts and ends of the same kind, and a session is
      open exactly when the timer is not idle, of the kind of the current phase. */
  lemma {:induction false} TraceIsBracketed(cfg: TimerConfig, inputs: seq<Input>)
    ensures SessionAfter(Closed, Run(cfg, inputs).events) == SessionOf(Run(cfg, inputs).state.phase)
  {
    if inputs != [] {
      var n := |inputs| - 1;
      var before := Run(cfg, inputs[..n]);
      TraceIsBracketed(cfg, inputs[..n]);
      SessionJoin(Closed, before.events, Step(cfg, before.state, inputs[n]).events);
      StepSession(cfg, before.state, inputs[n]);
    }
  }

  // ---------------------------------------------------------------- listeners

  predicate IsFocus(e: Event) {
    e.FocusSessionStarted? || e.FocusSessionEnded?
  }

  /** The focus events of a stream. */
  function FocusOnly(stream: seq<Event>): seq<Event> {
    if stream == [] then []
    else
      var front := FocusOnly(stream[..|stream| - 1]);
      if IsFocus(stream[|stream| - 1]) then front + [stream[|stream| - 1]] else front
  }

  function SignalsFold(numerals: Numerals, signals: SignalContext, stream: seq<Event>): SignalContext {
    if stream == [] then signals
    else SignalsAfter(numerals, SignalsFold(numerals, signals, stream[..|stream| - 1]), stream[|stream| - 1])
  }

  function QuietFold(q: Quiet, stream: seq<Event>): Quiet {
    if stream == [] then q else QuietAfter(QuietFold(q, stream[..|stream| - 1]), stream[|stream| - 1])
  }

  /** The bare signal `name` as a predicate. */
  function Holds(name: string, signals: SignalContext): EvalResult {
    Evaluate(Truthy(Signal(name)), signals)
  }

  /** What the three focus signals say when session `s` is open. */
  ghost predicate SignalsShow(s: Session, signals: SignalContext) {
    && s != Broken
    && Holds("focus_session.active", signals) == Ok(s.Open?)
    && Holds("focus_session.on_break", signals) == Ok(s == Open("break"))
    && Evaluate(Compare(Signal("focus_session.kind"), Eq, Lit(TextLit("work"))), signals) == Ok(s == Open("work"))
  }

  const FOCUS_SIGNALS := {"focus_session.active", "focus_session.on_break", "focus_session.kind"}

  lemma OtherEventsSpareFocus(numerals: Numerals, signals: SignalContext, e: Event, key: string)
    requires !IsFocus(e) && key in FOCUS_SIGNALS
    ensures key in SignalsAfter(numerals, signals, e) <==> key in signals
    ensures key in signals ==> SignalsAfter(numerals, signals, e)[key] == signals[key]
  {
  }

  lemma OtherEventsShowSame(numerals: Numerals, s: Session, signals: SignalContext, e: Event)
    requires SignalsShow(s, signals) && !IsFocus(e)
    ensures SignalsShow(s, SignalsAfter(numerals, signals, e))
  {
    OtherEventsSpareFocus(numerals, signals, e, "focus_session.active");
    OtherEventsSpareFocus(numerals, signals, e, "focus_session.on_break");
    OtherEventsSpareFocus(numerals, signals, e, "focus_session.kind");
  }

  /** A session of one of the timer's kinds, or none. */
  predicate TimerSession(s: Session) {
    s == Closed || s == Open("work") || s == Open("break")
  }

  lemma FocusEventsShow(numerals: Numerals, s: Session, signals: SignalContext, e: Event)
    requires IsFocus(e) && Next(s, e) != Broken && TimerSession(Next(s, e))
    ensures SignalsShow(Next(s, e), SignalsAfter(numerals, signals, e))
  {
  }

  lemma QuietShows(s: Session, q: Quiet, e: Event)
    requires IsFocus(e) && Next(s, e) != Broken
    ensures QuietAfter(q, e).focusWork == (Next(s, e) == Open("work"))
  {
  }

  /** Every prefix of the trace leaves a session of the timer's kinds. */
  ghost predicate Tame(trace: seq<Event>) {
    forall n | 0 <= n <= |trace| :: TimerSession(SessionAfter(Closed, trace[..n]))
  }

  lemma TameFront(trace: seq<Event>, e: Event)
    requires Tame(trace + [e])
    ensures Tame(trace) && TimerSession(SessionAfter(Closed, trace + [e]))
    ensures SessionAfter(Closed, trace + [e]) == Next(SessionAfter(Closed, trace), e)
  {
    forall n | 0 <= n <= |trace| ensures TimerSession(SessionAfter(Closed, trace[..n])) {
      assert (trace + [e])[..n] == trace[..n];
    }
    assert (trace + [e])[..|trace| + 1] == trace + [e];
    assert (trace + [e])[..|trace|] == trace;
  }

  /** Listeners that see the trace in order, whatever else they see in between. */
  lemma {:induction false} ListenersShow(numerals: Numerals, signals: SignalContext, q: Quiet, stream: seq<Event>)
    requires Tame(FocusOnly(stream)) && SignalsShow(Closed, signals) && !q.focusWork
    ensures SignalsShow(SessionAfter(Closed, FocusOnly(stream)), SignalsFold(numerals, signals, stream))
    ensures QuietFold(q, stream).focusWork == (SessionAfter(Closed, FocusOnly(stream)) == Open("work"))
  {
    if stream != [] {
      var front, e := stream[..|stream| - 1], stream[|stream| - 1];
      if IsFocus(e) {
        TameFront(FocusOnly(front), e);
        ListenersShow(numerals, signals, q, front);
        FocusEventsShow(numerals, SessionAfter(Closed, FocusOnly(front)), SignalsFold(numerals, signals, front), e);
        QuietShows(SessionAfter(Closed, FocusOnly(front)), QuietFold(q, front), e);
      } else {
        ListenersShow(numerals, signals, q, front);
        OtherEventsShowSame(numerals, SessionAfter(Closed, FocusOnly(front)), SignalsFold(numerals, signals, front), e);
      }
    }
  }

  lemma {:induction false} RunIsTame(cfg: TimerConfig, inputs: seq<Input>)
    ensures Tame(Run(cfg, inputs).events)
  {
    if inputs != [] {
      var n := |inputs| - 1;
      var before := Run(cfg, inputs[..n]);
      RunIsTame(cfg, inputs[..n]);
      TraceIsBracketed(cfg, inputs[..n]);
      StepIsTame(before.events, cfg, before.state, inputs[n]);
    }
  }

  lemma TameAppend(trace: seq<Event>, e: Event)
    requires Tame(trace) && TimerSession(SessionAfter(Closed, trace + [e]))
    ensures Tame(trace + [e])
  {
    forall n | 0 <= n <= |trace + [e]| ensures TimerSession(SessionAfter(Closed, (trace + [e])[..n])) {
      if n <= |trace| {
        assert (trace + [e])[..n] == trace[..n];
      } else {
        assert (trace + [e])[..n] == trace + [e];
      }
    }
  }

  lemma TameExtends(trace: seq<Event>, s: Session, more: seq<Event>)
    requires Tame(trace) && SessionAfter(Closed, trace) == s && |more| <= 2
    requires TimerSession(SessionAfter(s, more)) && (|more| == 2 ==> TimerSession(Next(s, more[0])))
    ensures Tame(trace + more)
  {
    SessionJoin(Closed, trace, more);
    if |more| == 0 {
      assert trace + more == trace;
    } else if |more| == 1 {
      assert more == [more[0]];
      TameAppend(trace, more[0]);
    } else {
      SessionShort(s, more[0], more[1]);
      SessionJoin(Closed, trace, [more[0]]);
      TameAppend(trace, more[0]);
      assert trace + [more[0]] + [more[1]] == trace + more;
      TameAppend(trace + [more[0]], more[1]);
    }
  }

  lemma StepIsTame(trace: seq<Event>, cfg: TimerConfig, st: TimerState, input: Input)
    requires Tame(trace) && SessionAfter(Closed, trace) == SessionOf(st.phase)
    ensures Tame(trace + Step(cfg, st, input).events)
  {
    StepShape(cfg, st, input);
    StepSession(cfg, st, input);
    TameExtends(trace, SessionOf(st.phase), Step(cfg, st, input).events);
  }

  /** The context engine's focus signals and the notification gate follow the timer through every run,
      whatever other events are interleaved with its trace. */
  lemma {:induction false} ListenersFollowTheTimer(numerals: Numerals, cfg: TimerConfig, inputs: seq<Input>,
                                                   stream: seq<Event>, signals: SignalContext, q: Quiet)
    requires FocusOnly(stream) == Run(cfg, inputs).events
    requires FOCUS_SIGNALS !! signals.Keys && !q.focusWork
    ensures var phase, after := Run(cfg, inputs).state.phase, SignalsFold(numerals, signals, stream);
      && Holds("focus_session.active", after) == Ok(phase != Idle)
      && Holds("focus_session.on_break", after) == Ok(phase == Break)
      && Evaluate(Compare(Signal("focus_session.kind"), Eq, Lit(TextLit("work"))), after) == Ok(phase == Work)
      && QuietFold(q, stream).focusWork == (phase == Work)
  {
    RunIsTame(cfg, inputs);
    TraceIsBracketed(cfg, inputs);
    assert "focus_session.active" !in signals && "focus_session.on_break" !in signals
      && "focus_session.kind" !in signals by {
      assert "focus_session.active" in FOCUS_SIGNALS && "focus_session.on_break" in FOCUS_SIGNALS
        && "focus_session.kind" in FOCUS_SIGNALS;
    }
    ListenersShow(numerals, signals, q, stream);
  }

  /** The last presentation-mode request of a stream. */
  function Presenting(was: bool, stream: seq<Event>): bool {
    if stream == [] then was
    else
      var e := stream[|stream| - 1];
      if e.PresentationModeChanged? then e.on else Presenting(was, stream[..|stream| - 1])
  }

  lemma {:induction false} PresentationFolds(q: Quiet, stream: seq<Event>)
    ensures QuietFold(q, stream).presentation == Presenting(q.presentation, stream)
  {
    if stream != [] {
      PresentationFolds(q, stream[..|stream| - 1]);
    }
  }

  /** What of a notification gets through a closed gate. */
  function Urgent(e: Event): seq<Delivery>
    requires e.NotifyRequested?
  {
    if e.urgency == "critical" then [NoteShown(e.title, e.body, "critical")] else []
  }

  /** A nudge or a notification is shown, as it is, exactly when presentation mode was last off and no work
      interval runs; a critical one, and a critical escalation, always is. */
  lemma {:induction false} GateFollowsTheTimer(cfg: TimerConfig, inputs: seq<Input>, stream: seq<Event>, e: Event)
    requires FocusOnly(stream) == Run(cfg, inputs).events
    ensures var q := QuietFold(LOUD, stream);
      && (e.NudgeDelivered? ==>
            Deliveries(q, e) == if Presenting(false, stream) || Run(cfg, inputs).state.phase == Work then []
                                else [NudgeShown(e.kind, e.title)])
      && (e.NotifyRequested? ==>
            Deliveries(q, e) == if Presenting(false, stream) || Run(cfg, inputs).state.phase == Work then Urgent(e)
                                else [NoteShown(e.title, e.body, e.urgency)])
      && (e.CriticalEscalation? ==> Deliveries(q, e) == [CriticalShown(e.widget, e.title, e.body)])
  {
    ListenersFollowTheTimer(Numerals(_ => None, _ => ""), cfg, inputs, stream, map[], LOUD);
    PresentationFolds(LOUD, stream);
  }
}
