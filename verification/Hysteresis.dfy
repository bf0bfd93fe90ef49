/** The debouncer in front of the cascade: a change commits only after it has been asked for long enough. */
module Debounce {
  import opened Prominences

  datatype Config = Config(activation: nat, deactivation: nat) {
    function Longest(): nat { if activation > deactivation then activation else deactivation }

    function Shortest(): nat { if activation < deactivation then activation else deactivation }

    /** Promotions wait `activation`, demotions wait `deactivation`. */
    function Delay(committed: Prominence, target: Prominence): nat {
      if target.Above(committed) then activation else deactivation
    }
  }

  datatype Transition = Transition(target: Prominence, commitAt: nat)

  datatype State = State(committed: Levels, pending: map<string, Transition>)

  // ---------------------------------------------------------------- one observation

  /** The pending transition of `w` is due and still asked for. */
  predicate Ready(st: State, cascade: Levels, now: nat, w: string) {
    && w in st.pending && st.pending[w].commitAt <= now
    && w in cascade && cascade[w] == st.pending[w].target
  }

  function ReadySet(st: State, cascade: Levels, now: nat): set<string> {
    set w | w in st.pending && Ready(st, cascade, now, w)
  }

  /** First step: transitions that are due commit. */
  function Due(st: State, cascade: Levels, now: nat): State {
    var ready := ReadySet(st, cascade, now);
    State(st.committed + (map w | w in ready :: st.pending[w].target), st.pending - ready)
  }

  /** Widgets seen for the first time commit at once. */
  function Introduced(committed: Levels, cascade: Levels, seen: set<string>): Levels
    requires seen <= cascade.Keys
  {
    map w | w in committed.Keys + seen :: if w in committed then committed[w] else cascade[w]
  }

  /** `w` is asked away from its committed level, or is not mentioned while waiting. */
  predicate Waits(st: State, cascade: Levels, w: string) {
    if w in cascade then w in st.committed && cascade[w] != st.committed[w] else w in st.pending
  }

  /** A transition already under way to the same target keeps its deadline. */
  function WaitsFor(cfg: Config, st: State, cascade: Levels, now: nat, w: string): Transition
    requires Waits(st, cascade, w)
  {
    if w !in cascade || (w in st.pending && st.pending[w].target == cascade[w]) then st.pending[w]
    else Transition(cascade[w], now + cfg.Delay(st.committed[w], cascade[w]))
  }

  function Waiting(cfg: Config, st: State, cascade: Levels, now: nat): map<string, Transition> {
    map w | w in st.pending.Keys + cascade.Keys && Waits(st, cascade, w) :: WaitsFor(cfg, st, cascade, now, w)
  }

  /** Second step: every mentioned widget starts, keeps or drops a transition. */
  function Rescheduled(cfg: Config, st: State, cascade: Levels, now: nat): State {
    State(Introduced(st.committed, cascade, cascade.Keys), Waiting(cfg, st, cascade, now))
  }

  function Observed(cfg: Config, st: State, cascade: Levels, now: nat): State {
    Rescheduled(cfg, Due(st, cascade, now), cascade, now)
  }

  function Forced(st: State, w: string, p: Prominence): State {
    State(st.committed[w := p], st.pending - {w})
  }

  /** Midway through the second step: widgets still `todo` have their old transition, the others the new one. */
  ghost predicate PartDone(cfg: Config, was: State, cascade: Levels, now: nat,
                           pending: map<string, Transition>, todo: set<string>, w: string) {
    if w in todo || w !in cascade then
      (w in pending <==> w in was.pending) && (w in pending ==> pending[w] == was.pending[w])
    else
      (w in pending <==> Waits(was, cascade, w))
      && (w in pending ==> pending[w] == WaitsFor(cfg, was, cascade, now, w))
  }

  lemma IntroducedOne(committed: Levels, cascade: Levels, seen: set<string>, w: string)
    requires seen <= cascade.Keys && w in cascade && w !in seen
    ensures var so := Introduced(committed, cascade, seen);
      (w in so <==> w in committed) && (w in committed ==> so[w] == committed[w])
      && Introduced(committed, cascade, seen + {w}) == if w in so then so else so[w := cascade[w]]
  {
  }

  lemma OneMoreDone(cfg: Config, was: State, cascade: Levels, now: nat, before: map<string, Transition>,
                    after: map<string, Transition>, todo: set<string>, w: string)
    requires w in todo && w in cascade && forall v :: PartDone(cfg, was, cascade, now, before, todo, v)
    requires after ==
      if w !in was.committed || was.committed[w] == cascade[w] then before - {w}
      else if w in before && before[w].target == cascade[w] then before
      else before[w := Transition(cascade[w], now + cfg.Delay(was.committed[w], cascade[w]))]
    ensures forall v :: PartDone(cfg, was, cascade, now, after, todo - {w}, v)
  {
    assert PartDone(cfg, was, cascade, now, before, todo, w);
    forall v ensures PartDone(cfg, was, cascade, now, after, todo - {w}, v) {
      assert PartDone(cfg, was, cascade, now, before, todo, v);
    }
  }

  lemma AllDone(cfg: Config, was: State, cascade: Levels, now: nat, pending: map<string, Transition>)
    requires forall w :: PartDone(cfg, was, cascade, now, pending, {}, w)
    ensures pending == Waiting(cfg, was, cascade, now)
  {
    var target := Waiting(cfg, was, cascade, now);
    forall w ensures w in pending <==> w in target {
      assert PartDone(cfg, was, cascade, now, pending, {}, w);
    }
    forall w | w in pending ensures pending[w] == target[w] {
      assert PartDone(cfg, was, cascade, now, pending, {}, w);
    }
  }

  // ---------------------------------------------------------------- the object

  class Hysteresis {
    const config: Config
    var committed: Levels
    var pending: map<string, Transition>

    function View(): State
      reads this
    {
      State(committed, pending)
    }

    /** Only committed widgets wait for a change. */
    ghost predicate Valid()
      reads this
    {
      pending.Keys <= committed.Keys
    }

    constructor (config: Config)
      ensures Valid() && this.config == config && View() == State(map[], map[])
    {
      this.config := config;
      committed := map[];
      pending := map[];
    }

    /** Feed one cascade result; the maps may be visited in any order. */
    method Observe(cascade: Levels, now: nat) returns (result: Levels)
      requires Valid()
      modifies this`committed, this`pending
      ensures Valid()
      ensures View() == Observed(config, old(View()), cascade, now)
      ensures result == committed
    {
      var ready := CollectReady(cascade, now);
      CommitReady(ready);
      RescheduleAll(cascade, now);
      result := committed;
    }

    method RescheduleAll(cascade: Levels, now: nat)
      modifies this`committed, this`pending
      ensures View() == Rescheduled(config, old(View()), cascade, now)
    {
      ghost var was := View();
      var todo := cascade.Keys;
      while todo != {}
        invariant todo <= cascade.Keys
        invariant committed == Introduced(was.committed, cascade, cascade.Keys - todo)
        invariant forall w :: PartDone(config, was, cascade, now, pending, todo, w)
      {
        var w :| w in todo;
        ghost var before := pending;
        IntroducedOne(was.committed, cascade, cascade.Keys - todo, w);
        ObserveWidget(w, cascade[w], now);
        OneMoreDone(config, was, cascade, now, before, pending, todo, w);
        assert cascade.Keys - (todo - {w}) == (cascade.Keys - todo) + {w};
        todo := todo - {w};
      }
      AllDone(config, was, cascade, now, pending);
    }

    method CollectReady(cascade: Levels, now: nat) returns (ready: set<string>)
      ensures ready == ReadySet(View(), cascade, now)
    {
      ready := {};
      var todo := pending.Keys;
      while todo != {}
        invariant todo <= pending.Keys
        invariant forall w :: w in ready <==> w !in todo && Ready(View(), cascade, now, w)
      {
        var w :| w in todo;
        if pending[w].commitAt <= now && w in cascade && cascade[w] == pending[w].target {
          ready := ready + {w};
        }
        todo := todo - {w};
      }
    }

    method CommitReady(ready: set<string>)
      requires ready <= pending.Keys
      modifies this`committed, this`pending
      ensures pending == old(pending) - ready
      ensures committed == old(committed) + map w | w in ready :: old(pending)[w].target
    {
      var todo := ready;
      while todo != {}
        invariant todo <= ready
        invariant pending == old(pending) - (ready - todo)
        invariant committed == old(committed) + map w | w in ready - todo :: old(pending)[w].target
      {
        var w :| w in todo;
        committed := committed[w := pending[w].target];
        pending := pending - {w};
        todo := todo - {w};
      }
    }

    /** Start, keep or drop the pending transition of one widget. */
    method ObserveWidget(w: string, target: Prominence, now: nat)
      modifies this`committed, this`pending
      ensures committed == if w in old(committed) then old(committed) else old(committed)[w := target]
      ensures pending ==
        if w !in old(committed) || old(committed)[w] == target then old(pending) - {w}
        else if w in old(pending) && old(pending)[w].target == target then old(pending)
        else old(pending)[w := Transition(target, now + config.Delay(old(committed)[w], target))]
    {
      if w !in committed {
        committed := committed[w := target];
        pending := pending - {w};
      } else if committed[w] == target {
        pending := pending - {w};
      } else {
        var delay := if target.Above(committed[w]) then config.activation else config.deactivation;
        var deadline := now + delay;
        if w in pending && pending[w].target == target {
        } else {
          pending := pending[w := Transition(target, deadline)];
        }
      }
    }

    method ForceCommit(w: string, p: Prominence)
      requires Valid()
      modifies this`committed, this`pending
      ensures Valid()
      ensures View() == Forced(old(View()), w, p)
    {
      pending := pending - {w};
      committed := committed[w := p];
    }
  }
}
