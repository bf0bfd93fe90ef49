/**
 The five-step prominence cascade: seed, relevance rules, active profile, spatial demotion,
 user overrides, and the zone lists of the bar.

 The functions say what each step computes; `CascadeRun` holds the loops that compute it.
 */
module Cascade {
  import opened Prelude
  import opened Prominences
  import opened Expressions

  datatype Zone = LeftZone | CenterZone | RightZone

  datatype WidgetDef = WidgetDef(id: string, default: Prominence, priority: int, zone: Zone)

  datatype CompiledRule = CompiledRule(target: string, when: Expression, prominence: Prominence)

  datatype Profile = Profile(name: string, overrides: Levels)

  /** The pixel budget: bar width, gap between neighbours, and the width estimator. */
  datatype Budget = Budget(available: u32, gap: u32, width: (string, Prominence) -> u32)

  datatype CascadeInput = CascadeInput(
    widgets: seq<WidgetDef>,
    signals: SignalContext,
    rules: seq<CompiledRule>,
    activeProfile: Option<Profile>,
    budget: Budget,
    userOverrides: Levels)

  datatype Layout = Layout(prominences: Levels, bar: BarLayout)

  function Ids(ws: seq<WidgetDef>): (r: seq<string>) {
    seq(|ws|, i requires 0 <= i < |ws| => ws[i].id)
  }

  ghost predicate DistinctIds(ws: seq<WidgetDef>) {
    forall i, j | 0 <= i < j < |ws| :: ws[i].id != ws[j].id
  }

  // ---------------------------------------------------------------- step 1: defaults

  function Seed(ws: seq<WidgetDef>): (levels: Levels)
    ensures levels.Keys == set w | w in ws :: w.id
  {
    if ws == [] then map[]
    else
      assert ws == ws[..|ws| - 1] + [ws[|ws| - 1]];
      Seed(ws[..|ws| - 1])[ws[|ws| - 1].id := ws[|ws| - 1].default]
  }

  // ---------------------------------------------------------------- step 2: relevance rules

  /** A rule whose predicate fails to evaluate does not fire. */
  predicate Fires(rule: CompiledRule, signals: SignalContext) {
    Evaluate(rule.when, signals) == Ok(true)
  }

  predicate VotesFor(rule: CompiledRule, id: string, signals: SignalContext) {
    rule.target == id && Fires(rule, signals)
  }

  /** The level of `id` after the rules have voted: the most insistent vote wins. */
  function Vote(base: Prominence, id: string, rules: seq<CompiledRule>, signals: SignalContext): Prominence {
    if rules == [] then base
    else
      var last := rules[|rules| - 1];
      var p := Vote(base, id, rules[..|rules| - 1], signals);
      if VotesFor(last, id, signals) && last.prominence.Above(p) then last.prominence else p
  }

  /** The vote is the highest of the default and the levels the firing rules ask for. */
  lemma {:induction false} VoteIsHighest(base: Prominence, id: string, rules: seq<CompiledRule>, signals: SignalContext)
    ensures var p := Vote(base, id, rules, signals);
      && (p == base || exists r | r in rules :: VotesFor(r, id, signals) && r.prominence == p)
      && p.Rank() >= base.Rank()
      && forall r | r in rules && VotesFor(r, id, signals) :: p.Rank() >= r.prominence.Rank()
  {
    if rules != [] {
      VoteIsHighest(base, id, rules[..|rules| - 1], signals);
      assert rules == rules[..|rules| - 1] + [rules[|rules| - 1]];
    }
  }

  function Relevance(levels: Levels, rules: seq<CompiledRule>, signals: SignalContext): Levels {
    map id | id in levels :: Vote(levels[id], id, rules, signals)
  }

  // ---------------------------------------------------------------- steps 3 and 5: overrides

  /** Unconditional replacement of the levels of known widgets. */
  function Overlay(levels: Levels, overrides: Levels): Levels {
    map id | id in levels :: if id in overrides then overrides[id] else levels[id]
  }

  function Profiled(levels: Levels, profile: Option<Profile>): Levels {
    if profile.Some? then Overlay(levels, profile.value.overrides) else levels
  }

  // ---------------------------------------------------------------- priority order

  /** Descending priority, then ascending id. */
  predicate Before(a: WidgetDef, b: WidgetDef) {
    a.priority > b.priority || (a.priority == b.priority && TextLess(a.id, b.id))
  }

  ghost predicate InOrder(ws: seq<WidgetDef>) {
    forall i, j | 0 <= i < j < |ws| :: !Before(ws[j], ws[i])
  }

  /** Insertion after everything that does not have to follow `w`. */
  function Insert(w: WidgetDef, ws: seq<WidgetDef>): (r: seq<WidgetDef>)
    ensures multiset(r) == multiset(ws) + multiset{w}
    ensures InOrder(ws) ==> InOrder(r)
  {
    if ws == [] then [w]
    else
      var last := ws[|ws| - 1];
      assert ws == ws[..|ws| - 1] + [last];
      if Before(w, last) then
        var r := Insert(w, ws[..|ws| - 1]);
        InsertKeepsOrder(w, ws, r);
        r + [last]
      else
        AppendKeepsOrder(w, ws);
        ws + [w]
  }

  lemma InsertKeepsOrder(w: WidgetDef, ws: seq<WidgetDef>, r: seq<WidgetDef>)
    requires ws != [] && Before(w, ws[|ws| - 1])
    requires multiset(r) == multiset(ws[..|ws| - 1]) + multiset{w}
    requires InOrder(ws[..|ws| - 1]) ==> InOrder(r)
    ensures InOrder(ws) ==> InOrder(r + [ws[|ws| - 1]])
  {
    if InOrder(ws) {
      var last := ws[|ws| - 1];
      forall i | 0 <= i < |r| ensures !Before(last, r[i]) {
        assert r[i] in multiset(r);
        if r[i] == w {
          BeforeAsymmetric(w, last);
        } else {
          assert r[i] in ws[..|ws| - 1];
        }
      }
    }
  }

  lemma AppendKeepsOrder(w: WidgetDef, ws: seq<WidgetDef>)
    requires ws != [] && !Before(w, ws[|ws| - 1])
    ensures InOrder(ws) ==> InOrder(ws + [w])
  {
    if InOrder(ws) {
      forall i | 0 <= i < |ws| ensures !Before(w, ws[i]) {
        if Before(w, ws[i]) {
          BeforeConnected(ws[|ws| - 1], w);
          if i < |ws| - 1 {
            if Before(ws[|ws| - 1], w) {
              BeforeTransitive(ws[|ws| - 1], w, ws[i]);
            }
          }
        }
      }
    }
  }

  lemma BeforeAsymmetric(a: WidgetDef, b: WidgetDef)
    requires Before(a, b)
    ensures !Before(b, a)
  {
    if TextLess(a.id, b.id) { TextLessAsymmetric(a.id, b.id); }
  }

  lemma BeforeTransitive(a: WidgetDef, b: WidgetDef, c: WidgetDef)
    requires Before(a, b) && Before(b, c)
    ensures Before(a, c)
  {
    if TextLess(a.id, b.id) && TextLess(b.id, c.id) { TextLessTransitive(a.id, b.id, c.id); }
  }

  lemma BeforeConnected(a: WidgetDef, b: WidgetDef)
    ensures Before(a, b) || Before(b, a) || (a.priority == b.priority && a.id == b.id)
  {
    TextLessTotal(a.id, b.id);
  }

  /** The stable sort the cascade uses for placement and within each zone. */
  function ByPriority(ws: seq<WidgetDef>): (r: seq<WidgetDef>)
    ensures multiset(r) == multiset(ws)
    ensures InOrder(r)
  {
    if ws == [] then []
    else
      assert ws == ws[..|ws| - 1] + [ws[|ws| - 1]];
      Insert(ws[|ws| - 1], ByPriority(ws[..|ws| - 1]))
  }

  // ---------------------------------------------------------------- step 4: spatial demotion

  function DemoteOne(p: Prominence): Prominence {
    match p
    case Expanded => Visible
    case Visible => Compact
    case Compact => IconOnly
    case IconOnly => Badge
    case Badge => Hidden
    case Hidden => Hidden
  }

  /** Pixels taken once `id` is added at level `p` to a bar already showing `shown` widgets. */
  function Extended(b: Budget, running: u32, shown: nat, id: string, p: Prominence): u32 {
    SatAdd32(SatAdd32(running, b.width(id, p)), if shown > 0 then b.gap else 0)
  }

  predicate Fits(b: Budget, running: u32, shown: nat, id: string, p: Prominence) {
    Extended(b, running, shown, id, p) <= b.available
  }

  /** The first level at or below `p` that fits; Hidden always does. */
  function Settle(b: Budget, running: u32, shown: nat, id: string, p: Prominence): (q: Prominence)
    ensures q.Rank() <= p.Rank()
    ensures q.Hidden? || Fits(b, running, shown, id, q)
    ensures forall r: Prominence | q.Rank() < r.Rank() <= p.Rank() :: !Fits(b, running, shown, id, r)
    decreases p.Rank()
  {
    if p.Hidden? || Fits(b, running, shown, id, p) then p
    else Settle(b, running, shown, id, DemoteOne(p))
  }

  /** The level of `id`; a widget nobody knows is hidden. */
  function LevelOf(levels: Levels, id: string): Prominence {
    if id in levels then levels[id] else Hidden
  }

  datatype Placement = Placement(levels: Levels, running: u32, shown: nat)

  function PlaceOne(b: Budget, at: Placement, w: WidgetDef): Placement {
    var q := Settle(b, at.running, at.shown, w.id, LevelOf(at.levels, w.id));
    if q.Hidden? then at.(levels := at.levels[w.id := Hidden])
    else Placement(at.levels[w.id := q], Extended(b, at.running, at.shown, w.id, q), at.shown + 1)
  }

  /** Walk `order`, settling each widget in the space the earlier ones left. */
  function Place(b: Budget, order: seq<WidgetDef>, levels: Levels): Placement {
    if order == [] then Placement(levels, 0, 0)
    else PlaceOne(b, Place(b, order[..|order| - 1], levels), order[|order| - 1])
  }

  // ---------------------------------------------------------------- zones

  predicate Shown(levels: Levels, id: string) {
    LevelOf(levels, id) != Hidden
  }

  function InZone(ws: seq<WidgetDef>, levels: Levels, zone: Zone): seq<WidgetDef> {
    if ws == [] then []
    else
      var last := ws[|ws| - 1];
      var r := InZone(ws[..|ws| - 1], levels, zone);
      if last.zone == zone && Shown(levels, last.id) then r + [last] else r
  }

  lemma {:induction false} InZoneMembers(ws: seq<WidgetDef>, levels: Levels, zone: Zone)
    ensures var r := InZone(ws, levels, zone);
      && (forall w :: w in r <==> w in ws && w.zone == zone && Shown(levels, w.id))
      && multiset(r) <= multiset(ws)
  {
    if ws != [] {
      InZoneMembers(ws[..|ws| - 1], levels, zone);
      assert ws == ws[..|ws| - 1] + [ws[|ws| - 1]];
    }
  }

  function ZoneList(ws: seq<WidgetDef>, levels: Levels, zone: Zone): seq<string> {
    Ids(ByPriority(InZone(ws, levels, zone)))
  }

  function Bar(ws: seq<WidgetDef>, levels: Levels): BarLayout {
    BarLayout(ZoneList(ws, levels, LeftZone), ZoneList(ws, levels, CenterZone), ZoneList(ws, levels, RightZone))
  }

  // ---------------------------------------------------------------- the cascade

  /** Levels before space is considered: defaults, votes, profile. */
  function Wanted(input: CascadeInput): (levels: Levels)
    ensures levels.Keys == set w | w in input.widgets :: w.id
  {
    Profiled(Relevance(Seed(input.widgets), input.rules, input.signals), input.activeProfile)
  }

  function Placed(input: CascadeInput): Placement {
    Place(input.budget, ByPriority(input.widgets), Wanted(input))
  }

  function Resolve(input: CascadeInput): Layout {
    var levels := Overlay(Placed(input).levels, input.userOverrides);
    Layout(levels, Bar(input.widgets, levels))
  }
}
