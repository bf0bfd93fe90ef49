/** What the debouncer guarantees over whole runs. */
module DebounceRuns {
  import opened Prelude
  import opened Prominences
  import opened Debounce

  datatype Event = Observe(cascade: Levels, now: nat) | Force(widget: string, prominence: Prominence)

  function Step(cfg: Config, st: State, e: Event): State {
    match e
    case Observe(cascade, now) => Observed(cfg, st, cascade, now)
    case Force(w, p) => Forced(st, w, p)
  }

  /** The state after `events`, from the empty debouncer. */
  function Run(cfg: Config, events: seq<Event>): State {
    if events == [] then State(map[], map[])
    else Step(cfg, Run(cfg, events[..|events| - 1]), events[|events| - 1])
  }

  /** The clock never runs backwards. */
  ghost predicate ClockRises(events: seq<Event>) {
    forall i, j | 0 <= i < j < |events| && events[i].Observe? && events[j].Observe? :: events[i].now <= events[j].now
  }

  ghost predicate NoForce(events: seq<Event>) {
    forall i | 0 <= i < |events| :: events[i].Observe?
  }

  predicate Mentions(e: Event, w: string) {
    e.Observe? && w in e.cascade
  }

  /** `e` does not ask `w` for anything but `x`, and does not force it. */
  predicate AsksOnly(e: Event, w: string, x: Prominence) {
    match e
    case Observe(cascade, _) => w in cascade ==> cascade[w] == x
    case Force(v, _) => v != w
  }

  // ---------------------------------------------------------------- one widget through one observation

  /** An observation that mentions `w` makes it committed; one that does not leaves it alone. */
  lemma ObservedWidget(cfg: Config, st: State, cascade: Levels, now: nat, w: string)
    ensures var next := Observed(cfg, st, cascade, now);
      if w !in cascade then
        && (w in next.committed <==> w in st.committed) && (w in st.committed ==> next.committed[w] == st.committed[w])
        && (w in next.pending <==> w in st.pending) && (w in st.pending ==> next.pending[w] == st.pending[w])
      else if w !in st.committed && w !in st.pending then
        w in next.committed && next.committed[w] == cascade[w] && w !in next.pending
      else if Ready(st, cascade, now, w) then
        w in next.committed && next.committed[w] == cascade[w] && w !in next.pending
      else w in st.committed ==>
        && w in next.committed && next.committed[w] == st.committed[w]
        && (w in next.pending <==> cascade[w] != st.committed[w])
        && (w in next.pending ==>
              (next.pending[w] ==
                if w in st.pending && st.pending[w].target == cascade[w] then st.pending[w]
                else Transition(cascade[w], now + cfg.Delay(st.committed[w], cascade[w]))))
  {
  }

  /** Waiting widgets are committed, to something else than what they wait for. */
  ghost predicate Sound(st: State) {
    forall w | w in st.pending :: w in st.committed && st.committed[w] != st.pending[w].target
  }

  lemma StepSound(cfg: Config, st: State, e: Event)
    requires Sound(st)
    ensures Sound(Step(cfg, st, e))
    ensures st.committed.Keys <= Step(cfg, st, e).committed.Keys
  {
  }

  lemma {:induction false} RunSound(cfg: Config, events: seq<Event>)
    ensures Sound(Run(cfg, events))
  {
    if events != [] {
      RunSound(cfg, events[..|events| - 1]);
      StepSound(cfg, Run(cfg, events[..|events| - 1]), events[|events| - 1]);
    }
  }

  /** Once committed, a widget is never forgotten. */
  lemma {:induction false} NeverForgets(cfg: Config, events: seq<Event>, n: nat)
    requires n <= |events|
    ensures Run(cfg, events[..n]).committed.Keys <= Run(cfg, events).committed.Keys
  {
    if n < |events| {
      var init := events[..|events| - 1];
      NeverForgets(cfg, init, n);
      assert init[..n] == events[..n];
      RunSound(cfg, init);
      StepSound(cfg, Run(cfg, init), events[|events| - 1]);
    } else {
      assert events[..n] == events;
    }
  }

  // ---------------------------------------------------------------- commit safety

  /** Event `m` started the wait of `w` for `x`. */
  ghost predicate Opens(cfg: Config, events: seq<Event>, m: nat, w: string, x: Prominence) {
    && m < |events| && Mentions(events[m], w) && events[m].cascade[w] == x
    && var st := Run(cfg, events[..m]); w in st.pending ==> st.pending[w].target != x
  }

  /** Since event `m` nothing but `x` was asked of `w`, which stayed committed to `a`. */
  ghost predicate HeldSince(cfg: Config, events: seq<Event>, m: nat, w: string, a: Prominence, x: Prominence) {
    forall i | m <= i < |events| ::
      AsksOnly(events[i], w, x) && CommittedTo(Run(cfg, events[..i]), w, a)
  }

  predicate CommittedTo(st: State, w: string, a: Prominence) {
    w in st.committed && st.committed[w] == a
  }

  /** A justified wait: opened by event `m`, which set the deadline, and held since. */
  ghost predicate Justified(cfg: Config, events: seq<Event>, m: nat, w: string, a: Prominence, t: Transition) {
    && Opens(cfg, events, m, w, t.target)
    && t.commitAt == events[m].now + (if t.target.Rank() > a.Rank() then cfg.activation else cfg.deactivation)
    && HeldSince(cfg, events, m, w, a, t.target)
  }

  lemma Prefixes(events: seq<Event>, e: Event, i: nat)
    requires i <= |events|
    ensures (events + [e])[..i] == events[..i]
  {
  }

  lemma JustifiedGrows(cfg: Config, events: seq<Event>, e: Event, m: nat, w: string, a: Prominence, t: Transition)
    requires Justified(cfg, events, m, w, a, t)
    requires AsksOnly(e, w, t.target) && CommittedTo(Run(cfg, events), w, a)
    ensures Justified(cfg, events + [e], m, w, a, t)
  {
    var all := events + [e];
    Prefixes(events, e, m);
    assert all[m] == events[m];
    forall i | m <= i < |all| ensures AsksOnly(all[i], w, t.target) && CommittedTo(Run(cfg, all[..i]), w, a) {
      Prefixes(events, e, i);
      if i == |events| { assert events[..i] == events; }
    }
  }

  lemma JustifiedStarts(cfg: Config, events: seq<Event>, e: Event, w: string, a: Prominence)
    requires Mentions(e, w) && CommittedTo(Run(cfg, events), w, a)
    requires w in Run(cfg, events).pending ==> Run(cfg, events).pending[w].target != e.cascade[w]
    ensures Justified(cfg, events + [e], |events|, w, a, Transition(e.cascade[w], e.now + cfg.Delay(a, e.cascade[w])))
  {
  }

  /** Every wait is justified by an earlier observation. */
  lemma {:induction false} WaitsAreJustified(cfg: Config, events: seq<Event>, w: string) returns (m: nat)
    requires w in Run(cfg, events).pending
    ensures w in Run(cfg, events).committed
    ensures Justified(cfg, events, m, w, Run(cfg, events).committed[w], Run(cfg, events).pending[w])
  {
    var init, e := events[..|events| - 1], events[|events| - 1];
    var st, next := Run(cfg, init), Run(cfg, events);
    assert events == init + [e];
    RunSound(cfg, init);
    RunSound(cfg, events);
    if e.Observe? { ObservedWidget(cfg, st, e.cascade, e.now, w); }
    if w in st.pending && next.pending[w] == st.pending[w]
      && (Mentions(e, w) ==> e.cascade[w] == st.pending[w].target) {
      m := WaitsAreJustified(cfg, init, w);
      JustifiedGrows(cfg, init, e, m, w, st.committed[w], st.pending[w]);
    } else {
      m := |init|;
      JustifiedStarts(cfg, init, e, w, st.committed[w]);
    }
  }

  /** When the last event changes the committed level of `w` from `a` to `x`, an earlier observation
      asked for `x` at least the right delay before, and every event since that mentions `w` asked
      for `x`; observations that do not mention `w` in between do not matter. */
  lemma {:induction false} CommitSafety(cfg: Config, events: seq<Event>, now: nat, cascade: Levels, w: string)
    returns (m: nat)
    requires w in Run(cfg, events).committed
    requires w in Observed(cfg, Run(cfg, events), cascade, now).committed
    requires Observed(cfg, Run(cfg, events), cascade, now).committed[w] != Run(cfg, events).committed[w]
    ensures var a, x := Run(cfg, events).committed[w], Observed(cfg, Run(cfg, events), cascade, now).committed[w];
      && Opens(cfg, events, m, w, x)
      && events[m].now + (if x.Rank() > a.Rank() then cfg.activation else cfg.deactivation) <= now
      && HeldSince(cfg, events, m, w, a, x)
      && AsksOnly(Observe(cascade, now), w, x)
  {
    RunSound(cfg, events);
    ObservedWidget(cfg, Run(cfg, events), cascade, now, w);
    m := WaitsAreJustified(cfg, events, w);
  }

  // ---------------------------------------------------------------- commits on time

  /** A widget mentioned for the first time is committed at once, to what is asked. */
  lemma {:induction false} FirstSightCommits(cfg: Config, events: seq<Event>, cascade: Levels, now: nat, w: string)
    requires w in cascade && w !in Run(cfg, events).committed
    ensures var next := Run(cfg, events + [Observe(cascade, now)]);
      CommittedTo(next, w, cascade[w]) && w !in next.pending
  {
    RunSound(cfg, events);
    assert (events + [Observe(cascade, now)])[..|events|] == events;
    ObservedWidget(cfg, Run(cfg, events), cascade, now, w);
  }

  /** An event that does not concern `w`. */
  predicate Spares(e: Event, w: string) {
    match e
    case Observe(cascade, _) => w !in cascade
    case Force(v, _) => v != w
  }

  lemma SparedStays(cfg: Config, st: State, e: Event, w: string, p: Prominence)
    requires Spares(e, w) && CommittedTo(st, w, p) && w !in st.pending
    ensures CommittedTo(Step(cfg, st, e), w, p) && w !in Step(cfg, st, e).pending
  {
    if e.Observe? { ObservedWidget(cfg, st, e.cascade, e.now, w); }
  }

  /** A forced widget has its level at once, with no change under way, and keeps it until it is mentioned or
      forced again. */
  lemma {:induction false} ForcingLasts(cfg: Config, st: State, w: string, p: Prominence, later: seq<Event>)
    requires forall i | 0 <= i < |later| :: Spares(later[i], w)
    ensures var end := RunFrom(cfg, Forced(st, w, p), later);
      CommittedTo(end, w, p) && w !in end.pending
  {
    if later != [] {
      var n := |later| - 1;
      ForcingLasts(cfg, st, w, p, later[..n]);
      SparedStays(cfg, RunFrom(cfg, Forced(st, w, p), later[..n]), later[n], w, p);
    }
  }

  /** The state after `later`, from `st`. */
  function RunFrom(cfg: Config, st: State, later: seq<Event>): State {
    if later == [] then st else Step(cfg, RunFrom(cfg, st, later[..|later| - 1]), later[|later| - 1])
  }

  /** Forcing one widget changes nothing for the others. */
  lemma {:induction false} ForcingIsLocal(st: State, w: string, p: Prominence)
    ensures Forced(st, w, p).committed - {w} == st.committed - {w}
    ensures Forced(st, w, p).pending - {w} == st.pending - {w}
  {
  }

  /** An observation after `m` mentions `w` at `limit` or later. */
  ghost predicate MentionedBy(events: seq<Event>, m: nat, w: string, limit: nat) {
    exists i | m < i < |events| :: Mentions(events[i], w) && events[i].now >= limit
  }

  /** Waiting for `x` since `m`, or committed to it because it was asked for when due. */
  ghost predicate UnderWay(cfg: Config, events: seq<Event>, m: nat, w: string, a: Prominence, x: Prominence,
                           limit: nat) {
    var st := Run(cfg, events);
    if MentionedBy(events, m, w, limit) then CommittedTo(st, w, x) && w !in st.pending
    else CommittedTo(st, w, a) && w in st.pending && st.pending[w] == Transition(x, limit)
  }

  lemma MentionedMore(events: seq<Event>, e: Event, m: nat, w: string, limit: nat)
    requires m < |events|
    ensures MentionedBy(events + [e], m, w, limit)
       <==> MentionedBy(events, m, w, limit) || (Mentions(e, w) && e.now >= limit)
  {
    var all := events + [e];
    forall i | m < i < |events| ensures all[i] == events[i] {}
    if MentionedBy(all, m, w, limit) {
      var i :| m < i < |all| && Mentions(all[i], w) && all[i].now >= limit;
      if i < |events| { assert Mentions(events[i], w); }
    }
    if MentionedBy(events, m, w, limit) {
      var i :| m < i < |events| && Mentions(events[i], w) && events[i].now >= limit;
      assert Mentions(all[i], w);
    }
    if Mentions(e, w) && e.now >= limit { assert Mentions(all[|events|], w); }
  }

  lemma UnderWayStep(cfg: Config, events: seq<Event>, e: Event, m: nat, w: string, a: Prominence, x: Prominence,
                     limit: nat)
    requires m < |events| && a != x && UnderWay(cfg, events, m, w, a, x, limit) && AsksOnly(e, w, x)
    ensures UnderWay(cfg, events + [e], m, w, a, x, limit)
  {
    assert (events + [e])[..|events|] == events;
    MentionedMore(events, e, m, w, limit);
    if e.Observe? { ObservedWidget(cfg, Run(cfg, events), e.cascade, e.now, w); }
  }

  lemma WayOpens(cfg: Config, events: seq<Event>, e: Event, w: string, a: Prominence, x: Prominence)
    requires Mentions(e, w) && e.cascade[w] == x && a != x && CommittedTo(Run(cfg, events), w, a)
    requires w in Run(cfg, events).pending ==> Run(cfg, events).pending[w].target != x
    ensures UnderWay(cfg, events + [e], |events|, w, a, x,
                     e.now + if x.Rank() > a.Rank() then cfg.activation else cfg.deactivation)
  {
    assert (events + [e])[..|events|] == events;
    ObservedWidget(cfg, Run(cfg, events), e.cascade, e.now, w);
  }

  lemma {:induction false} StaysUnderWay(cfg: Config, events: seq<Event>, m: nat, w: string, a: Prominence,
                                         x: Prominence)
    requires Opens(cfg, events, m, w, x) && CommittedTo(Run(cfg, events[..m]), w, a) && a != x
    requires forall i | m < i < |events| :: AsksOnly(events[i], w, x)
    ensures UnderWay(cfg, events, m, w, a, x,
                     events[m].now + if x.Rank() > a.Rank() then cfg.activation else cfg.deactivation)
  {
    var n := |events| - 1;
    assert events == events[..n] + [events[n]];
    if m == n {
      WayOpens(cfg, events[..n], events[n], w, a, x);
    } else {
      assert events[..n][..m] == events[..m];
      StaysUnderWay(cfg, events[..n], m, w, a, x);
      UnderWayStep(cfg, events[..n], events[n], m, w, a, x,
        events[m].now + if x.Rank() > a.Rank() then cfg.activation else cfg.deactivation);
    }
  }

  /** A change that is opened, and then contradicted by nobody, is committed exactly when an observation
      after the opening one mentions the widget at the deadline or later. Promotions wait the activation
      delay, demotions the deactivation delay. */
  lemma {:induction false} CommitsExactlyWhenDue(cfg: Config, events: seq<Event>, m: nat, w: string, a: Prominence,
                                                 x: Prominence)
    requires Opens(cfg, events, m, w, x) && CommittedTo(Run(cfg, events[..m]), w, a) && a != x
    requires forall i | m < i < |events| :: AsksOnly(events[i], w, x)
    ensures CommittedTo(Run(cfg, events), w, x) <==>
      exists i | m < i < |events| :: Mentions(events[i], w)
        && events[i].now >= events[m].now + if x.Rank() > a.Rank() then cfg.activation else cfg.deactivation
  {
    StaysUnderWay(cfg, events, m, w, a, x);
  }

  // ---------------------------------------------------------------- settling

  /** No deadline lies further ahead than the longest delay. */
  lemma {:induction false} DeadlinesAreNear(cfg: Config, events: seq<Event>, now: nat)
    requires forall i | 0 <= i < |events| && events[i].Observe? :: events[i].now <= now
    ensures forall w | w in Run(cfg, events).pending :: Run(cfg, events).pending[w].commitAt <= now + cfg.Longest()
  {
    forall w | w in Run(cfg, events).pending
      ensures Run(cfg, events).pending[w].commitAt <= now + cfg.Longest()
    {
      var m := WaitsAreJustified(cfg, events, w);
    }
  }

  /** `w` has reached `x`, or waits for it with a deadline no later than `limit`. */
  predicate OnCourse(st: State, w: string, x: Prominence, limit: nat) {
    && w in st.committed
    && (st.committed[w] == x || (w in st.pending && st.pending[w].target == x && st.pending[w].commitAt <= limit))
  }

  lemma StayOnCourse(cfg: Config, st: State, cascade: Levels, now: nat, w: string, limit: nat)
    requires Sound(st) && w in cascade && OnCourse(st, w, cascade[w], limit)
    ensures OnCourse(Observed(cfg, st, cascade, now), w, cascade[w], limit)
    ensures now >= limit ==> CommittedTo(Observed(cfg, st, cascade, now), w, cascade[w])
  {
  }

  /** `k..|events|` is a stretch of observations of one cascade result. */
  ghost predicate Stretch(events: seq<Event>, k: nat, cascade: Levels) {
    forall i | k <= i < |events| :: events[i].Observe? && events[i].cascade == cascade
  }

  lemma {:induction false} StretchOnCourse(cfg: Config, events: seq<Event>, k: nat, cascade: Levels, w: string)
    requires k < |events| && Stretch(events, k, cascade) && ClockRises(events) && w in cascade
    ensures OnCourse(Run(cfg, events), w, cascade[w], events[k].now + cfg.Longest())
  {
    var n := |events| - 1;
    var init := events[..n];
    RunSound(cfg, init);
    if k == n {
      DeadlinesAreNear(cfg, init, events[n].now);
      ObservedWidget(cfg, Run(cfg, init), cascade, events[n].now, w);
    } else {
      StretchOnCourse(cfg, init, k, cascade, w);
      StayOnCourse(cfg, Run(cfg, init), cascade, events[n].now, w, events[k].now + cfg.Longest());
    }
  }

  lemma {:induction false} SettlesAt(cfg: Config, events: seq<Event>, k: nat, cascade: Levels, w: string)
    requires k < |events| - 1 && Stretch(events, k, cascade) && ClockRises(events) && w in cascade
    requires events[|events| - 1].now >= events[k].now + cfg.Longest()
    ensures CommittedTo(Run(cfg, events), w, cascade[w])
  {
    var n := |events| - 1;
    RunSound(cfg, events[..n]);
    StretchOnCourse(cfg, events[..n], k, cascade, w);
    StayOnCourse(cfg, Run(cfg, events[..n]), cascade, events[n].now, w, events[k].now + cfg.Longest());
  }

  /** If one cascade result is observed over a stretch and a later observation of it comes at least the
      longest delay after the first, the committed levels are that result. */
  lemma {:induction false} Settles(cfg: Config, events: seq<Event>, k: nat, cascade: Levels)
    requires k < |events| - 1 && Stretch(events, k, cascade) && ClockRises(events)
    requires events[|events| - 1].now >= events[k].now + cfg.Longest()
    ensures forall w | w in cascade :: CommittedTo(Run(cfg, events), w, cascade[w])
  {
    forall w | w in cascade ensures CommittedTo(Run(cfg, events), w, cascade[w]) {
      SettlesAt(cfg, events, k, cascade, w);
    }
  }

  // ---------------------------------------------------------------- flap bound

  /** How often the committed level of `w` changed after it was first committed. */
  function Changes(cfg: Config, events: seq<Event>, w: string): nat {
    if events == [] then 0
    else
      var init := events[..|events| - 1];
      var st, next := Run(cfg, init), Run(cfg, events);
      Changes(cfg, init, w)
        + if Changed(st, next, w) then 1 else 0
  }

  /** The time `w` was first mentioned, which is when it was first committed. */
  function FirstSeen(events: seq<Event>, w: string): Option<nat> {
    if events == [] then None
    else
      var before, e := FirstSeen(events[..|events| - 1], w), events[|events| - 1];
      if before.Some? then before else if Mentions(e, w) then Some(e.now) else None
  }

  /** The time `n` changes take at least. */
  function Cost(cfg: Config, n: nat): nat {
    if n == 0 then 0 else Cost(cfg, n - 1) + cfg.Shortest()
  }

  lemma CostIsProduct(cfg: Config, n: nat)
    ensures Cost(cfg, n) == n * cfg.Shortest()
  {
  }

  /** `n` changes since `first`, and a further one when it is pending, are paid for by elapsed time. */
  ghost predicate Paid(cfg: Config, st: State, w: string, n: nat, first: Option<nat>, now: nat) {
    match first
    case None => n == 0 && w !in st.committed && w !in st.pending
    case Some(t0) =>
      && w in st.committed && t0 + Cost(cfg, n) <= now
      && (w in st.pending ==> t0 + Cost(cfg, n + 1) <= st.pending[w].commitAt)
  }

  predicate Changed(st: State, next: State, w: string) {
    w in st.committed && w in next.committed && st.committed[w] != next.committed[w]
  }

  lemma PaidStep(cfg: Config, st: State, next: State, cascade: Levels, w: string, n: nat, first: Option<nat>, at: nat,
                 now: nat)
    requires Paid(cfg, st, w, n, first, at) && next == Observed(cfg, st, cascade, at) && at <= now
    ensures Paid(cfg, next, w, n + (if Changed(st, next, w) then 1 else 0),
      if first.Some? then first else if w in cascade then Some(at) else None, now)
  {
  }

  lemma OneMore(cfg: Config, events: seq<Event>, w: string)
    requires events != [] && events[|events| - 1].Observe?
    ensures var init, e := events[..|events| - 1], events[|events| - 1];
      var st, next, first := Run(cfg, init), Run(cfg, events), FirstSeen(init, w);
      && next == Observed(cfg, st, e.cascade, e.now)
      && Changes(cfg, events, w) == Changes(cfg, init, w) + (if Changed(st, next, w) then 1 else 0)
      && FirstSeen(events, w) == if first.Some? then first else if w in e.cascade then Some(e.now) else None
  {
  }

  lemma {:induction false} AllPaid(cfg: Config, events: seq<Event>, w: string, now: nat)
    requires NoForce(events) && ClockRises(events)
    requires forall i | 0 <= i < |events| :: events[i].now <= now
    ensures Paid(cfg, Run(cfg, events), w, Changes(cfg, events, w), FirstSeen(events, w), now)
  {
    if events != [] {
      var init, e := events[..|events| - 1], events[|events| - 1];
      AllPaid(cfg, init, w, e.now);
      OneMore(cfg, events, w);
      PaidStep(cfg, Run(cfg, init), Run(cfg, events), e.cascade, w, Changes(cfg, init, w), FirstSeen(init, w), e.now,
        now);
    }
  }

  /** Without forced commits, a widget first seen at `t0` has changed at most `(now - t0) / shortest delay`
      times by `now`. */
  lemma {:induction false} FlapBound(cfg: Config, events: seq<Event>, w: string, now: nat)
    requires NoForce(events) && ClockRises(events)
    requires forall i | 0 <= i < |events| :: events[i].now <= now
    ensures match FirstSeen(events, w)
      case None => w !in Run(cfg, events).committed
      case Some(t0) => t0 <= now && Changes(cfg, events, w) * cfg.Shortest() <= now - t0
  {
    AllPaid(cfg, events, w, now);
    CostIsProduct(cfg, Changes(cfg, events, w));
  }
}
