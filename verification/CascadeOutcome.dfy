/** What the cascade answers when there is room for everything: who decides the level of a widget. */
module CascadeOutcome {
  import opened Prelude
  import opened Prominences
  import opened Expressions
  import opened Cascade
  import opened CascadeSpace

  /** The profile's say on `id`, if a profile is active and has one. */
  function ProfileSays(input: CascadeInput, id: string): Option<Prominence> {
    if input.activeProfile.Some? && id in input.activeProfile.value.overrides
    then Some(input.activeProfile.value.overrides[id]) else None
  }

  /** A rule that asks for a level of `w`. */
  predicate Speaks(input: CascadeInput, r: CompiledRule, w: WidgetDef) {
    r.target == w.id && Evaluate(r.when, input.signals) == Ok(true)
  }

  /** `p` is the highest of the default of `w` and the levels its firing rules ask for. */
  ghost predicate IsHighest(input: CascadeInput, w: WidgetDef, p: Prominence) {
    && (p == w.default || exists r | r in input.rules :: Speaks(input, r, w) && r.prominence == p)
    && p.Rank() >= w.default.Rank()
    && forall r | r in input.rules && Speaks(input, r, w) :: p.Rank() >= r.prominence.Rank()
  }

  lemma {:induction false} SeedIsDefault(ws: seq<WidgetDef>, i: nat)
    requires DistinctIds(ws) && i < |ws|
    ensures ws[i].id in Seed(ws) && Seed(ws)[ws[i].id] == ws[i].default
  {
    if i < |ws| - 1 { SeedIsDefault(ws[..|ws| - 1], i); }
  }

  /** Before space is considered the profile decides, and else the highest of default and votes. */
  lemma WantedIs(input: CascadeInput, w: WidgetDef)
    requires DistinctIds(input.widgets) && w in input.widgets
    ensures w.id in Wanted(input)
    ensures match ProfileSays(input, w.id)
      case Some(p) => Wanted(input)[w.id] == p
      case None => IsHighest(input, w, Wanted(input)[w.id])
  {
    var i :| 0 <= i < |input.widgets| && input.widgets[i] == w;
    SeedIsDefault(input.widgets, i);
    VoteIsHighest(w.default, w.id, input.rules, input.signals);
  }

  // ---------------------------------------------------------------- room for everything

  lemma {:induction false} UseGrows(b: Budget, ws: seq<WidgetDef>, levels: Levels)
    requires ws != []
    ensures TrueUse(b, ws[..|ws| - 1], levels) <= TrueUse(b, ws, levels)
  {
    UseOneMore(b, ws, levels);
  }

  /** The last of widgets that all fit as wanted. */
  lemma FitTurn(b: Budget, ws: seq<WidgetDef>, levels: Levels, at: Placement)
    requires ws != [] && TrueUse(b, ws, levels) <= b.available < U32_MAX
    requires at.running == TrueUse(b, ws[..|ws| - 1], levels) && at.shown == ShownCount(ws[..|ws| - 1], levels)
    requires LevelOf(at.levels, ws[|ws| - 1].id) == LevelOf(levels, ws[|ws| - 1].id)
    ensures var next := PlaceOne(b, at, ws[|ws| - 1]);
      && next.running == TrueUse(b, ws, levels) && next.shown == ShownCount(ws, levels)
      && LevelOf(next.levels, ws[|ws| - 1].id) == LevelOf(levels, ws[|ws| - 1].id)
  {
    UseOneMore(b, ws, levels);
    PlaceOneSettles(b, at, ws[|ws| - 1]);
  }

  lemma {:induction false} AllFit(b: Budget, order: seq<WidgetDef>, levels: Levels)
    requires DistinctIds(order) && TrueUse(b, order, levels) <= b.available < U32_MAX
    ensures var at := Place(b, order, levels);
      at.running == TrueUse(b, order, levels) && at.shown == ShownCount(order, levels)
    ensures SameLevels(order, Place(b, order, levels).levels, levels)
  {
    if order != [] {
      var n := |order| - 1;
      UseGrows(b, order, levels);
      AllFit(b, order[..n], levels);
      PlacementKeepsOthers(b, order[..n], levels, order[n].id);
      FitTurn(b, order, levels, Place(b, order[..n], levels));
      PlacedStay(b, order, levels);
      forall i | 0 <= i < n ensures LevelOf(Place(b, order, levels).levels, order[i].id)
        == LevelOf(levels, order[i].id) {
        assert order[..n][i] == order[i];
      }
    }
  }

  /** The bar holds everything as wanted. */
  ghost predicate Roomy(input: CascadeInput) {
    TrueUse(input.budget, ByPriority(input.widgets), Wanted(input)) <= input.budget.available < U32_MAX
  }

  lemma RoomyKeeps(input: CascadeInput, w: WidgetDef)
    requires DistinctIds(input.widgets) && w in input.widgets && Roomy(input)
    ensures LevelOf(Placed(input).levels, w.id) == LevelOf(Wanted(input), w.id)
  {
    OrderIsDistinct(input.widgets);
    AllFit(input.budget, ByPriority(input.widgets), Wanted(input));
    assert w in multiset(input.widgets);
    assert w in multiset(ByPriority(input.widgets));
    var i :| 0 <= i < |ByPriority(input.widgets)| && ByPriority(input.widgets)[i] == w;
  }

  /** With room for everything the user's override decides, else the profile's, else the highest of the
      default and the levels firing rules ask for. Without room only widgets the user does not override can
      end lower. */
  lemma {:induction false} WhoDecides(input: CascadeInput, w: WidgetDef)
    requires DistinctIds(input.widgets) && w in input.widgets
    ensures w.id in Resolve(input).prominences
    ensures w.id in input.userOverrides ==> Resolve(input).prominences[w.id] == input.userOverrides[w.id]
    ensures w.id !in input.userOverrides && Roomy(input) ==>
      match ProfileSays(input, w.id)
      case Some(p) => Resolve(input).prominences[w.id] == p
      case None => IsHighest(input, w, Resolve(input).prominences[w.id])
    ensures w.id !in input.userOverrides ==>
      Resolve(input).prominences[w.id].Rank() <= LevelOf(Wanted(input), w.id).Rank()
  {
    PlacedKeys(input);
    WantedIs(input, w);
    PlacedNoHigher(input, w);
    if Roomy(input) { RoomyKeeps(input, w); }
  }

  lemma PlacedNoHigher(input: CascadeInput, w: WidgetDef)
    requires DistinctIds(input.widgets) && w in input.widgets
    ensures LevelOf(Placed(input).levels, w.id).Rank() <= LevelOf(Wanted(input), w.id).Rank()
  {
    OrderIsDistinct(input.widgets);
    assert w in multiset(input.widgets);
    assert w in multiset(ByPriority(input.widgets));
    var i :| 0 <= i < |ByPriority(input.widgets)| && ByPriority(input.widgets)[i] == w;
    FirstFit(input.budget, ByPriority(input.widgets), Wanted(input), i);
  }
}
