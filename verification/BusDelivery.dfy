/** What every subscriber of the bus is guaranteed, whatever the others do. */
module BusDelivery {
  import opened Prelude
  import opened Events
  import opened EventBus

  datatype Action =
    | Subscribe(kinds: set<EventKind>, capacity: nat)
    | Publish(event: Event)
    | Receive(id: nat)
    | Close(id: nat)

  datatype BusState = BusState(subs: seq<Subscriber>, nextId: nat)

  function Step(st: BusState, a: Action): BusState {
    match a
    case Subscribe(kinds, capacity) => BusState(st.subs + [NewSubscriber(st.nextId, kinds, capacity)], st.nextId + 1)
    case Publish(e) => st.(subs := OfferedAll(st.subs, e))
    case Receive(id) => st.(subs := Taken(st.subs, id))
    case Close(id) => st.(subs := Dropped(st.subs, id))
  }

  function Run(actions: seq<Action>): BusState {
    if actions == [] then BusState([], 0) else Step(Run(actions[..|actions| - 1]), actions[|actions| - 1])
  }

  function Lookup(subs: seq<Subscriber>, id: nat): Option<Subscriber> {
    var i := Find(subs, id);
    if i.Some? then Some(subs[i.value]) else None
  }

  // ---------------------------------------------------------------- one subscriber's own history

  /** A subscriber with what it has received, the matching events published since it subscribed, and how
      many of them found its queue full. */
  datatype History = History(sub: Subscriber, received: seq<Event>, published: seq<Event>, lost: nat)

  /** What an event does to one subscriber alone. */
  function Heard(h: History, e: Event): Option<History> {
    if !Wants(h.sub, e) then Some(h)
    else if !h.sub.open then None
    else
      var full := |h.sub.queue| >= h.sub.capacity;
      Some(History(Offered(h.sub, e).value, h.received, h.published + [e], h.lost + if full then 1 else 0))
  }

  function OwnStep(h: History, a: Action): Option<History> {
    match a
    case Publish(e) => Heard(h, e)
    case Receive(id) =>
      if id == h.sub.id && h.sub.open && h.sub.queue != [] then
        Some(h.(sub := h.sub.(queue := h.sub.queue[1..]), received := h.received + [h.sub.queue[0]]))
      else Some(h)
    case Close(id) => Some(if id == h.sub.id then h.(sub := h.sub.(open := false)) else h)
    case Subscribe(_, _) => Some(h)
  }

  function Subscriptions(actions: seq<Action>): nat {
    if actions == [] then 0
    else Subscriptions(actions[..|actions| - 1]) + if actions[|actions| - 1].Subscribe? then 1 else 0
  }

  /** The history of subscriber `id`: only its own actions and the published events enter it. */
  function HistoryOf(actions: seq<Action>, id: nat): Option<History> {
    if actions == [] then None
    else
      var n := |actions| - 1;
      var before := HistoryOf(actions[..n], id);
      if before.Some? then OwnStep(before.value, actions[n])
      else if actions[n].Subscribe? && Subscriptions(actions[..n]) == id then
        Some(History(NewSubscriber(id, actions[n].kinds, actions[n].capacity), [], [], 0))
      else None
  }

  // ---------------------------------------------------------------- isolation

  ghost predicate WellFormed(st: BusState) {
    && (forall i | 0 <= i < |st.subs| :: st.subs[i].id < st.nextId)
    && DistinctIds(st.subs)
  }

  ghost predicate HasId(subs: seq<Subscriber>, id: nat) {
    exists i | 0 <= i < |subs| :: subs[i].id == id
  }

  ghost predicate DistinctIds(subs: seq<Subscriber>) {
    forall i, j | 0 <= i < j < |subs| :: subs[i].id != subs[j].id
  }

  lemma {:induction false} OfferedIds(subs: seq<Subscriber>, e: Event)
    requires DistinctIds(subs)
    ensures forall i | 0 <= i < |OfferedAll(subs, e)| :: HasId(subs, OfferedAll(subs, e)[i].id)
    ensures DistinctIds(OfferedAll(subs, e))
  {
    if subs != [] {
      var n := |subs| - 1;
      OfferedIds(subs[..n], e);
      var front, all := OfferedAll(subs[..n], e), OfferedAll(subs, e);
      forall i | 0 <= i < |all| ensures HasId(subs, all[i].id) {
        if i < |front| {
          assert HasId(subs[..n], front[i].id);
          var j :| 0 <= j < n && subs[..n][j].id == front[i].id;
          assert subs[j].id == all[i].id;
        } else {
          assert subs[n].id == all[i].id;
        }
      }
      forall i | 0 <= i < |front| ensures front[i].id != subs[n].id {
        assert HasId(subs[..n], front[i].id);
      }
    }
  }

  lemma StepWellFormed(st: BusState, a: Action)
    requires WellFormed(st)
    ensures WellFormed(Step(st, a))
  {
    if a.Publish? {
      OfferedIds(st.subs, a.event);
    }
  }

  lemma {:induction false} RunWellFormed(actions: seq<Action>)
    ensures WellFormed(Run(actions)) && Run(actions).nextId == Subscriptions(actions)
  {
    if actions != [] {
      var n := |actions| - 1;
      RunWellFormed(actions[..n]);
      StepWellFormed(Run(actions[..n]), actions[n]);
    }
  }

  lemma FindAt(subs: seq<Subscriber>, i: nat)
    requires i < |subs| && DistinctIds(subs)
    ensures Find(subs, subs[i].id) == Some(i)
  {
  }

  /** Looking from the back: the last subscriber, or the others. */
  lemma LookupBack(subs: seq<Subscriber>, id: nat)
    requires subs != []
    ensures var n := |subs| - 1;
      Lookup(subs, id) == if subs[n].id == id then Some(subs[n]) else Lookup(subs[..n], id)
  {
  }

  lemma OfferedBack(subs: seq<Subscriber>, e: Event, id: nat)
    requires subs != []
    ensures var n := |subs| - 1;
      var last := Offered(subs[n], e);
      Lookup(OfferedAll(subs, e), id) ==
        if last.Some? && id == subs[n].id then last else Lookup(OfferedAll(subs[..n], e), id)
  {
  }

  lemma {:induction false} LookupOffered(subs: seq<Subscriber>, e: Event, id: nat)
    requires DistinctIds(subs)
    ensures Lookup(OfferedAll(subs, e), id) == match Lookup(subs, id) case None => None case Some(s) => Offered(s, e)
  {
    if subs != [] {
      LookupOffered(subs[..|subs| - 1], e, id);
      LookupBack(subs, id);
      OfferedBack(subs, e, id);
      if subs[|subs| - 1].id == id { NotInFront(subs, id); }
    }
  }

  lemma NotInFront(subs: seq<Subscriber>, id: nat)
    requires subs != [] && subs[|subs| - 1].id == id
    requires DistinctIds(subs)
    ensures Find(subs[..|subs| - 1], id) == None
  {
  }

  lemma LookupUpdated(subs: seq<Subscriber>, i: nat, s: Subscriber, id: nat)
    requires i < |subs| && s.id == subs[i].id && DistinctIds(subs)
    ensures Lookup(subs[i := s], id) == if id == s.id then Some(s) else Lookup(subs, id)
  {
    var next := subs[i := s];
    if id == s.id {
      FindAt(next, i);
    } else {
      var a, b := Find(subs, id), Find(next, id);
      if a.Some? { assert next[a.value].id == id; FindAt(next, a.value); }
      if b.Some? { assert subs[b.value].id == id; FindAt(subs, b.value); }
    }
  }

  lemma LookupAppended(subs: seq<Subscriber>, s: Subscriber, id: nat)
    ensures Lookup(subs + [s], id) == if id == s.id then Some(s) else Lookup(subs, id)
  {
  }

  lemma LookupStep(st: BusState, a: Action, id: nat)
    requires WellFormed(st)
    ensures var before, after := Lookup(st.subs, id), Lookup(Step(st, a).subs, id);
      match a
      case Subscribe(kinds, capacity) =>
        after == if id == st.nextId then Some(NewSubscriber(id, kinds, capacity)) else before
      case Publish(e) => after == if before.None? then None else Offered(before.value, e)
      case Receive(r) =>
        after == if before.Some? && id == r && before.value.open && before.value.queue != []
                 then Some(before.value.(queue := before.value.queue[1..])) else before
      case Close(c) => after == if before.Some? && id == c then Some(before.value.(open := false)) else before
  {
    match a
    case Subscribe(kinds, capacity) => LookupAppended(st.subs, NewSubscriber(st.nextId, kinds, capacity), id);
    case Publish(e) => LookupOffered(st.subs, e, id);
    case Receive(r) =>
      var i := Find(st.subs, r);
      if i.Some? {
        var s := st.subs[i.value];
        LookupUpdated(st.subs, i.value, s.(queue := if s.queue == [] then [] else s.queue[1..]), id);
      }
    case Close(c) =>
      var i := Find(st.subs, c);
      if i.Some? { LookupUpdated(st.subs, i.value, st.subs[i.value].(open := false), id); }
  }

  /** What the bus holds for a subscriber is decided by its own history: no other subscriber's slowness,
      receiving or closing enters it. */
  lemma {:induction false} SubscribersAreIsolated(actions: seq<Action>, id: nat)
    ensures var h := HistoryOf(actions, id);
      Lookup(Run(actions).subs, id) == if h.Some? then Some(h.value.sub) else None
    ensures HistoryOf(actions, id).Some? ==> HistoryOf(actions, id).value.sub.id == id < Subscriptions(actions)
    ensures id >= Subscriptions(actions) ==> HistoryOf(actions, id) == None
  {
    if actions != [] {
      var n := |actions| - 1;
      SubscribersAreIsolated(actions[..n], id);
      RunWellFormed(actions[..n]);
      LookupStep(Run(actions[..n]), actions[n], id);
    }
  }

  // ---------------------------------------------------------------- delivery

  /** `a` is `b` with some elements left out. */
  predicate Subsequence<T(==)>(a: seq<T>, b: seq<T>) {
    a == [] || (b != [] &&
      ((a[|a| - 1] == b[|b| - 1] && Subsequence(a[..|a| - 1], b[..|b| - 1])) || Subsequence(a, b[..|b| - 1])))
  }

  lemma SubsequenceGrows<T>(a: seq<T>, b: seq<T>, x: T)
    requires Subsequence(a, b)
    ensures Subsequence(a, b + [x]) && Subsequence(a + [x], b + [x])
  {
  }

  /** The delivery promise for one subscriber. */
  ghost predicate Delivers(h: History) {
    && h.sub.capacity >= 1 && |h.sub.queue| <= h.sub.capacity
    && Subsequence(h.received + h.sub.queue, h.published)
    && |h.received| + |h.sub.queue| + h.lost == |h.published|
    && h.sub.dropped == (if h.lost <= U64_MAX then h.lost else U64_MAX)
  }

  lemma ContentGrows(received: seq<Event>, queue: seq<Event>, published: seq<Event>, e: Event)
    requires Subsequence(received + queue, published)
    ensures Subsequence(received + queue, published + [e])
    ensures Subsequence(received + (queue + [e]), published + [e])
  {
    SubsequenceGrows(received + queue, published, e);
    assert received + (queue + [e]) == received + queue + [e];
  }

  lemma HeardDelivers(h: History, e: Event)
    requires Delivers(h) && Wants(h.sub, e) && h.sub.open
    ensures Heard(h, e).Some? && Delivers(Heard(h, e).value)
  {
    ContentGrows(h.received, h.sub.queue, h.published, e);
    var next := Heard(h, e).value;
    if |h.sub.queue| < h.sub.capacity {
      assert next.sub.queue == h.sub.queue + [e] && next.lost == h.lost;
    } else {
      assert next.sub.queue == h.sub.queue && next.lost == h.lost + 1;
    }
  }

  lemma OwnStepDelivers(h: History, a: Action)
    requires Delivers(h) && OwnStep(h, a).Some?
    ensures Delivers(OwnStep(h, a).value)
  {
    match a
    case Publish(e) => if Wants(h.sub, e) { HeardDelivers(h, e); }
    case Receive(id) =>
      if h.sub.queue != [] {
        assert h.received + [h.sub.queue[0]] + h.sub.queue[1..] == h.received + h.sub.queue;
      }
    case _ =>
  }

  lemma {:induction false} HistoryDelivers(actions: seq<Action>, id: nat)
    ensures HistoryOf(actions, id).Some? ==> Delivers(HistoryOf(actions, id).value)
  {
    if actions != [] {
      var n := |actions| - 1;
      HistoryDelivers(actions[..n], id);
      var before := HistoryOf(actions[..n], id);
      if before.Some? && OwnStep(before.value, actions[n]).Some? {
        OwnStepDelivers(before.value, actions[n]);
      }
    }
  }

  lemma {:induction false} WholeSubsequence<T>(a: seq<T>, b: seq<T>)
    requires Subsequence(a, b)
    ensures |a| <= |b| && (|a| == |b| ==> a == b)
  {
    if a != [] {
      var p, q := a[..|a| - 1], b[..|b| - 1];
      if a[|a| - 1] == b[|b| - 1] && Subsequence(p, q) {
        WholeSubsequence(p, q);
        assert a == p + [a[|a| - 1]] && b == q + [b[|b| - 1]];
      } else {
        WholeSubsequence(a, q);
      }
    }
  }

  /** Over every run and for every registered subscriber: what it received and what is queued is an
      in-order part of the matching events published since it subscribed, the rest is what it dropped, the
      queue stays within its capacity, and it missed nothing exactly when its drop counter is zero. */
  lemma {:induction false} EverySubscriberIsServed(actions: seq<Action>, id: nat)
    requires Lookup(Run(actions).subs, id).Some?
    ensures HistoryOf(actions, id).Some?
    ensures var h := HistoryOf(actions, id).value;
      && Lookup(Run(actions).subs, id) == Some(h.sub) && Delivers(h)
      && (h.sub.dropped == 0 <==> h.received + h.sub.queue == h.published)
  {
    SubscribersAreIsolated(actions, id);
    HistoryDelivers(actions, id);
    var h := HistoryOf(actions, id).value;
    WholeSubsequence(h.received + h.sub.queue, h.published);
  }

  /** A publish removes a subscriber exactly when its receiver is gone and the event is of a kind it asked
      for; other publishes keep closed subscribers. */
  lemma {:induction false} ClosedLeaveAtTheNextMatch(actions: seq<Action>, e: Event, id: nat)
    requires Lookup(Run(actions).subs, id).Some?
    ensures var s := Lookup(Run(actions).subs, id).value;
      Lookup(Run(actions + [Publish(e)]).subs, id) == None <==> !s.open && Wants(s, e)
  {
    assert (actions + [Publish(e)])[..|actions|] == actions;
    RunWellFormed(actions);
    LookupStep(Run(actions), Publish(e), id);
  }

  // ---------------------------------------------------------------- a subscriber that never takes anything

  /** The events of these kinds published after action `j`. */
  function PublishedSince(actions: seq<Action>, j: nat, kinds: set<EventKind>): seq<Event> {
    if |actions| <= j + 1 then []
    else
      var n := |actions| - 1;
      var front := PublishedSince(actions[..n], j, kinds);
      if actions[n].Publish? && KindOf(actions[n].event) in kinds then front + [actions[n].event] else front
  }

  function FirstOf<T>(s: seq<T>, n: nat): seq<T> {
    if |s| <= n then s else s[..n]
  }

  /** Open, never served, holding the first events that fit. */
  ghost predicate Slow(h: History, kinds: set<EventKind>, capacity: nat, published: seq<Event>) {
    && h.received == [] && h.published == published && h.lost == |published| - |h.sub.queue|
    && h.sub.open && h.sub.kinds == kinds && h.sub.capacity == (if capacity == 0 then 1 else capacity)
    && h.sub.queue == FirstOf(published, h.sub.capacity)
  }

  lemma SlowStep(h: History, a: Action, kinds: set<EventKind>, capacity: nat, published: seq<Event>)
    requires Slow(h, kinds, capacity, published) && a != Receive(h.sub.id) && a != Close(h.sub.id)
    ensures OwnStep(h, a).Some? && OwnStep(h, a).value.sub.id == h.sub.id
    ensures Slow(OwnStep(h, a).value, kinds, capacity,
                 if a.Publish? && KindOf(a.event) in kinds then published + [a.event] else published)
  {
  }

  lemma {:induction false} SlowHistory(actions: seq<Action>, j: nat, id: nat)
    requires j < |actions| && actions[j].Subscribe? && Subscriptions(actions[..j]) == id
    requires forall i | j < i < |actions| :: actions[i] != Receive(id) && actions[i] != Close(id)
    ensures HistoryOf(actions, id).Some? && HistoryOf(actions, id).value.sub.id == id
    ensures Slow(HistoryOf(actions, id).value, actions[j].kinds, actions[j].capacity,
                 PublishedSince(actions, j, actions[j].kinds))
  {
    var n := |actions| - 1;
    if j == n {
      SubscribersAreIsolated(actions[..n], id);
    } else {
      assert actions[..n][..j] == actions[..j];
      SlowHistory(actions[..n], j, id);
      SlowStep(HistoryOf(actions[..n], id).value, actions[n], actions[j].kinds, actions[j].capacity,
        PublishedSince(actions[..n], j, actions[j].kinds));
    }
  }

  /** A subscriber that takes nothing holds the first `max(1, capacity)` events of the kinds it asked for,
      and has dropped all that came after. */
  lemma {:induction false} SlowSubscriberKeepsTheFirst(actions: seq<Action>, j: nat, id: nat)
    requires j < |actions| && actions[j].Subscribe? && Subscriptions(actions[..j]) == id
    requires forall i | j < i < |actions| :: actions[i] != Receive(id) && actions[i] != Close(id)
    ensures Lookup(Run(actions).subs, id).Some?
    ensures var s, published := Lookup(Run(actions).subs, id).value, PublishedSince(actions, j, actions[j].kinds);
      var room := if actions[j].capacity == 0 then 1 else actions[j].capacity;
      && s.queue == FirstOf(published, room)
      && (|published| <= U64_MAX ==> s.dropped == |published| - |s.queue|)
  {
    SlowHistory(actions, j, id);
    SubscribersAreIsolated(actions, id);
    HistoryDelivers(actions, id);
  }

  /** Every event is of the kind named after it. */
  lemma {:induction false} KindsTell(e: Event)
    ensures KindOf(e) == WorkspaceKind <==> e.WorkspaceChanged?
    ensures KindOf(e) == WindowKind <==> e.WindowFocused?
    ensures KindOf(e) == PowerKind <==> e.PowerStateChanged?
    ensures KindOf(e) == DensityKind <==> e.BarDensityRequested?
    ensures KindOf(e) == ScaleKind <==> e.UiScaleRequested?
    ensures KindOf(e) == ProfileKind <==> e.ProfileActionRequested?
    ensures KindOf(e) == PresentationKind <==> e.PresentationModeChanged?
    ensures KindOf(e) == CriticalKind <==> e.CriticalEscalation?
    ensures KindOf(e) == NudgeKind <==> e.NudgeDelivered?
    ensures KindOf(e) == NotifyKind <==> e.NotifyRequested?
    ensures KindOf(e) == FocusStartedKind <==> e.FocusSessionStarted?
    ensures KindOf(e) == FocusEndedKind <==> e.FocusSessionEnded?
    ensures KindOf(e) == TimerCommandKind <==> e.SessionTimerCommand?
    ensures KindOf(e) == WidgetActionKind <==> e.WidgetActionReceived?
  {
  }
}
