/** What the spatial step guarantees: the budget, first fit, and how layouts react to space. */
module CascadeSpace {
  import opened Prelude
  import opened Prominences
  import opened Cascade

  // ---------------------------------------------------------------- pixels really used

  function WidthAt(b: Budget, levels: Levels, id: string): nat {
    if Shown(levels, id) then b.width(id, LevelOf(levels, id)) else 0
  }

  function WidthTotal(b: Budget, ws: seq<WidgetDef>, levels: Levels): nat {
    if ws == [] then 0
    else WidthTotal(b, ws[..|ws| - 1], levels) + WidthAt(b, levels, ws[|ws| - 1].id)
  }

  function ShownCount(ws: seq<WidgetDef>, levels: Levels): nat {
    if ws == [] then 0
    else ShownCount(ws[..|ws| - 1], levels) + if Shown(levels, ws[|ws| - 1].id) then 1 else 0
  }

  function GapTotal(gap: nat, shown: nat): nat {
    if shown == 0 then 0 else gap * (shown - 1)
  }

  /** Unsaturated pixels: the widths of the shown widgets and a gap between neighbours. */
  function TrueUse(b: Budget, ws: seq<WidgetDef>, levels: Levels): nat {
    WidthTotal(b, ws, levels) + GapTotal(b.gap, ShownCount(ws, levels))
  }

  lemma GapNext(gap: nat, shown: nat)
    ensures GapTotal(gap, shown + 1) == GapTotal(gap, shown) + if shown > 0 then gap else 0
  {
    if shown > 0 { assert gap * shown == gap * (shown - 1) + gap; }
  }

  lemma {:induction false} GapsGrow(gap: nat, k: nat, n: nat)
    requires k <= n
    ensures GapTotal(gap, k) <= GapTotal(gap, n)
  {
    if k < n {
      GapsGrow(gap, k, n - 1);
      GapNext(gap, n - 1);
    }
  }

  /** The two level maps give the same level to every widget of `ws`. */
  ghost predicate SameLevels(ws: seq<WidgetDef>, l: Levels, m: Levels) {
    forall i | 0 <= i < |ws| :: LevelOf(l, ws[i].id) == LevelOf(m, ws[i].id)
  }

  lemma {:induction false} UseIsLocal(b: Budget, ws: seq<WidgetDef>, l: Levels, m: Levels)
    requires SameLevels(ws, l, m)
    ensures WidthTotal(b, ws, l) == WidthTotal(b, ws, m)
    ensures ShownCount(ws, l) == ShownCount(ws, m)
  {
    if ws != [] {
      UseIsLocal(b, ws[..|ws| - 1], l, m);
    }
  }

  ghost predicate HidesSome(ws: seq<WidgetDef>, l: Levels, m: Levels) {
    forall i | 0 <= i < |ws| :: LevelOf(m, ws[i].id) == LevelOf(l, ws[i].id) || !Shown(m, ws[i].id)
  }

  /** Hiding widgets never takes more pixels. */
  lemma {:induction false} HidingSavesSpace(b: Budget, ws: seq<WidgetDef>, l: Levels, m: Levels)
    requires HidesSome(ws, l, m)
    ensures WidthTotal(b, ws, m) <= WidthTotal(b, ws, l)
    ensures ShownCount(ws, m) <= ShownCount(ws, l)
  {
    if ws != [] {
      HidingSavesSpace(b, ws[..|ws| - 1], l, m);
    }
  }

  // ---------------------------------------------------------------- placement, widget by widget

  lemma {:induction false} PlacementKeepsOthers(b: Budget, order: seq<WidgetDef>, levels: Levels, id: string)
    requires forall i | 0 <= i < |order| :: order[i].id != id
    ensures LevelOf(Place(b, order, levels).levels, id) == LevelOf(levels, id)
  {
    if order != [] {
      PlacementKeepsOthers(b, order[..|order| - 1], levels, id);
    }
  }

  lemma PlaceOneKeepsOthers(b: Budget, at: Placement, w: WidgetDef, id: string)
    requires id != w.id
    ensures LevelOf(PlaceOne(b, at, w).levels, id) == LevelOf(at.levels, id)
  {
  }

  lemma PlaceOneSettles(b: Budget, at: Placement, w: WidgetDef)
    ensures LevelOf(PlaceOne(b, at, w).levels, w.id) == Settle(b, at.running, at.shown, w.id, LevelOf(at.levels, w.id))
  {
  }

  lemma LastFit(b: Budget, order: seq<WidgetDef>, levels: Levels)
    requires DistinctIds(order) && order != []
    ensures var n := |order| - 1;
      var before := Place(b, order[..n], levels);
      LevelOf(Place(b, order, levels).levels, order[n].id)
        == Settle(b, before.running, before.shown, order[n].id, LevelOf(levels, order[n].id))
  {
    var n := |order| - 1;
    PlacementKeepsOthers(b, order[..n], levels, order[n].id);
    PlaceOneSettles(b, Place(b, order[..n], levels), order[n]);
  }

  /** A widget's final level is the first of its demotion chain that fits beside the widgets placed
      before it; widgets placed after it have no say. */
  lemma {:induction false} FirstFit(b: Budget, order: seq<WidgetDef>, levels: Levels, i: nat)
    requires DistinctIds(order) && i < |order|
    ensures var before := Place(b, order[..i], levels);
      LevelOf(Place(b, order, levels).levels, order[i].id)
        == Settle(b, before.running, before.shown, order[i].id, LevelOf(levels, order[i].id))
  {
    var n := |order| - 1;
    if i == n {
      LastFit(b, order, levels);
    } else {
      FirstFit(b, order[..n], levels, i);
      assert order[..n][..i] == order[..i];
      PlaceOneKeepsOthers(b, Place(b, order[..n], levels), order[n], order[i].id);
    }
  }

  /** Placing one more widget leaves the widgets already placed alone. */
  lemma PlacedStay(b: Budget, order: seq<WidgetDef>, levels: Levels)
    requires DistinctIds(order) && order != []
    ensures var init := order[..|order| - 1];
      SameLevels(init, Place(b, init, levels).levels, Place(b, order, levels).levels)
  {
  }

  /** What placing one widget adds to the bar, below saturation. */
  lemma PlaceOneAdds(b: Budget, at: Placement, w: WidgetDef)
    requires b.available < U32_MAX
    ensures var next := PlaceOne(b, at, w);
      if Shown(next.levels, w.id) then
        && next.running == at.running + WidthAt(b, next.levels, w.id) + (if at.shown > 0 then b.gap else 0)
        && next.running <= b.available && next.shown == at.shown + 1
      else next.running == at.running && next.shown == at.shown
  {
  }

  lemma UseOneMore(b: Budget, ws: seq<WidgetDef>, levels: Levels)
    requires ws != []
    ensures var init, id := ws[..|ws| - 1], ws[|ws| - 1].id;
      var n := ShownCount(init, levels);
      if Shown(levels, id) then
        && ShownCount(ws, levels) == n + 1
        && TrueUse(b, ws, levels) == TrueUse(b, init, levels) + WidthAt(b, levels, id) + (if n > 0 then b.gap else 0)
      else ShownCount(ws, levels) == n && TrueUse(b, ws, levels) == TrueUse(b, init, levels)
  {
    GapNext(b.gap, ShownCount(ws[..|ws| - 1], levels));
  }

  lemma UseTurn(b: Budget, order: seq<WidgetDef>, levels: Levels, before: Placement, after: Placement)
    requires b.available < U32_MAX && order != [] && after == PlaceOne(b, before, order[|order| - 1])
    requires before.running == TrueUse(b, order[..|order| - 1], after.levels) <= b.available
    requires before.shown == ShownCount(order[..|order| - 1], after.levels)
    ensures after.running == TrueUse(b, order, after.levels) <= b.available
      && after.shown == ShownCount(order, after.levels)
  {
    PlaceOneAdds(b, before, order[|order| - 1]);
    UseOneMore(b, order, after.levels);
  }

  /** Below saturation the running total is the true pixel count. */
  lemma {:induction false} RunningIsTrueUse(b: Budget, order: seq<WidgetDef>, levels: Levels)
    requires DistinctIds(order) && b.available < U32_MAX
    ensures var at := Place(b, order, levels);
      at.running == TrueUse(b, order, at.levels) <= b.available && at.shown == ShownCount(order, at.levels)
  {
    if order != [] {
      var init := order[..|order| - 1];
      RunningIsTrueUse(b, init, levels);
      PlacedStay(b, order, levels);
      UseIsLocal(b, init, Place(b, init, levels).levels, Place(b, order, levels).levels);
      UseTurn(b, order, levels, Place(b, init, levels), Place(b, order, levels));
    }
  }

  lemma SubDistinct(r: seq<WidgetDef>, ws: seq<WidgetDef>)
    requires DistinctIds(ws) && multiset(r) <= multiset(ws)
    ensures DistinctIds(r)
  {
    forall i, j | 0 <= i < j < |r| ensures r[i].id != r[j].id {
      if r[i].id == r[j].id {
        var a := IndexOf(ws, r, i);
        var c := IndexOf(ws, r, j);
        assert a == c;
        CountOnce(ws, a);
        CountTwice(r, i, j);
        assert false;
      }
    }
  }

  lemma OrderIsDistinct(ws: seq<WidgetDef>)
    requires DistinctIds(ws)
    ensures DistinctIds(ByPriority(ws))
  {
    SubDistinct(ByPriority(ws), ws);
  }

  lemma IndexOf(ws: seq<WidgetDef>, r: seq<WidgetDef>, i: nat) returns (a: nat)
    requires multiset(r) <= multiset(ws) && i < |r|
    ensures a < |ws| && ws[a] == r[i]
  {
    assert r[i] in multiset(r);
    assert r[i] in multiset(ws);
    a :| 0 <= a < |ws| && ws[a] == r[i];
  }

  // ---------------------------------------------------------------- the budget

  ghost predicate WithinBudget(input: CascadeInput) {
    TrueUse(input.budget, ByPriority(input.widgets), Resolve(input).prominences) <= input.budget.available
  }

  ghost predicate HidesOnly(overrides: Levels, ws: seq<WidgetDef>) {
    forall i | 0 <= i < |ws| && ws[i].id in overrides :: overrides[ws[i].id].Hidden?
  }

  /** Below saturation, a cascade whose user overrides only hide known widgets fits the bar. */
  lemma {:induction false} LayoutFits(input: CascadeInput)
    requires DistinctIds(input.widgets) && input.budget.available < U32_MAX
    requires HidesOnly(input.userOverrides, input.widgets)
    ensures WithinBudget(input)
  {
    var order := ByPriority(input.widgets);
    var placed, final := Placed(input).levels, Resolve(input).prominences;
    OrderIsDistinct(input.widgets);
    RunningIsTrueUse(input.budget, order, Wanted(input));
    forall i | 0 <= i < |order|
      ensures LevelOf(final, order[i].id) == LevelOf(placed, order[i].id) || !Shown(final, order[i].id)
    {
      var a := IndexOf(input.widgets, order, i);
      assert input.widgets[a] == order[i];
    }
    HidingSavesSpace(input.budget, order, placed, final);
    GapsGrow(input.budget.gap, ShownCount(order, final), ShownCount(order, placed));
  }

  /** User pins are applied after the spatial step. For given widgets and overrides, every budget
      below saturation is respected exactly when the overrides only hide. */
  lemma {:induction false} BudgetGuarantee(input: CascadeInput)
    requires DistinctIds(input.widgets)
    ensures (forall b: Budget | b.available < U32_MAX :: WithinBudget(input.(budget := b)))
       <==> HidesOnly(input.userOverrides, input.widgets)
  {
    if HidesOnly(input.userOverrides, input.widgets) {
      forall b: Budget | b.available < U32_MAX ensures WithinBudget(input.(budget := b)) {
        LayoutFits(input.(budget := b));
      }
    } else {
      var a :| 0 <= a < |input.widgets| && input.widgets[a].id in input.userOverrides
               && input.userOverrides[input.widgets[a].id] != Hidden;
      var b := PinOverflows(input, a);
    }
  }

  /** One user-pinned widget overflows a bar of no width. */
  lemma PinOverflows(input: CascadeInput, a: nat) returns (b: Budget)
    requires a < |input.widgets| && input.widgets[a].id in input.userOverrides
    requires input.userOverrides[input.widgets[a].id] != Hidden
    ensures b.available < U32_MAX && !WithinBudget(input.(budget := b))
  {
    b := Budget(0, 0, (id, p) => 1);
    var tight := input.(budget := b);
    var order, w := ByPriority(input.widgets), input.widgets[a];
    var i := IndexOf(order, input.widgets, a);
    PlacedKeys(tight);
    assert w in input.widgets;
    assert Resolve(tight).prominences[w.id] == input.userOverrides[w.id];
    ShownWidgetHasWidth(b, order, Resolve(tight).prominences, i);
  }

  lemma {:induction false} PlaceKeys(b: Budget, order: seq<WidgetDef>, levels: Levels)
    ensures Place(b, order, levels).levels.Keys == levels.Keys + set w | w in order :: w.id
  {
    if order != [] {
      PlaceKeys(b, order[..|order| - 1], levels);
      assert order == order[..|order| - 1] + [order[|order| - 1]];
    }
  }

  lemma PlacedKeys(input: CascadeInput)
    ensures Placed(input).levels.Keys == set w | w in input.widgets :: w.id
    ensures Resolve(input).prominences.Keys == set w | w in input.widgets :: w.id
  {
    var order := ByPriority(input.widgets);
    PlaceKeys(input.budget, order, Wanted(input));
    forall w ensures w in order <==> w in input.widgets {
      assert w in multiset(order) <==> w in multiset(input.widgets);
    }
  }

  lemma {:induction false} ShownWidgetHasWidth(b: Budget, ws: seq<WidgetDef>, levels: Levels, i: nat)
    requires i < |ws|
    ensures WidthTotal(b, ws, levels) >= WidthAt(b, levels, ws[i].id)
  {
    if i < |ws| - 1 { ShownWidgetHasWidth(b, ws[..|ws| - 1], levels, i); }
  }

  function Wide(id: string, p: Prominence): u32 { 0x8000_0000 }

  const TWIN_A := WidgetDef("a", Visible, 1, LeftZone)
  const TWIN_C := WidgetDef("c", Visible, 0, LeftZone)

  lemma TwinOrder(a: WidgetDef, c: WidgetDef)
    requires Before(a, c) && !Before(c, a)
    ensures ByPriority([a, c]) == [a, c]
  {
  }

  lemma PlaceTwo(b: Budget, a: WidgetDef, c: WidgetDef, levels: Levels)
    ensures Place(b, [a, c], levels) == PlaceOne(b, PlaceOne(b, Placement(levels, 0, 0), a), c)
  {
    assert [a, c][..1] == [a] && [a][..0] == [];
    assert Place(b, [a], levels) == PlaceOne(b, Place(b, [], levels), a);
  }

  lemma SeedTwo(a: WidgetDef, c: WidgetDef)
    ensures Seed([a, c]) == map[a.id := a.default][c.id := c.default]
  {
  }

  lemma PlaceFitting(b: Budget, at: Placement, w: WidgetDef)
    requires Shown(at.levels, w.id) && Fits(b, at.running, at.shown, w.id, at.levels[w.id])
    ensures PlaceOne(b, at, w)
         == Placement(at.levels, Extended(b, at.running, at.shown, w.id, at.levels[w.id]), at.shown + 1)
  {
  }

  lemma PlaceDemoted(b: Budget, at: Placement, w: WidgetDef)
    requires Shown(at.levels, w.id) && !Fits(b, at.running, at.shown, w.id, at.levels[w.id])
    ensures PlaceOne(b, at, w) == PlaceOne(b, at.(levels := at.levels[w.id := DemoteOne(at.levels[w.id])]), w)
  {
  }

  const TWINS := CascadeInput([TWIN_A, TWIN_C], map[], [], None, Budget(U32_MAX, 0, Wide), map[])
  const BOTH_VISIBLE: Levels := map["a" := Visible, "c" := Visible]

  lemma TwinsWanted()
    ensures Wanted(TWINS) == BOTH_VISIBLE
  {
    SeedTwo(TWIN_A, TWIN_C);
    assert Seed(TWINS.widgets) == BOTH_VISIBLE;
    assert Relevance(BOTH_VISIBLE, [], map[]) == BOTH_VISIBLE;
  }

  lemma TwinsPlaced(b: Budget)
    requires b == Budget(U32_MAX, 0, Wide)
    ensures Place(b, [TWIN_A, TWIN_C], BOTH_VISIBLE).levels == BOTH_VISIBLE
  {
    PlaceTwo(b, TWIN_A, TWIN_C, BOTH_VISIBLE);
    PlaceFitting(b, Placement(BOTH_VISIBLE, 0, 0), TWIN_A);
    PlaceFitting(b, Placement(BOTH_VISIBLE, 0x8000_0000, 1), TWIN_C);
  }

  lemma TwinsWidth(b: Budget)
    requires b == Budget(U32_MAX, 0, Wide)
    ensures WidthTotal(b, [TWIN_A, TWIN_C], BOTH_VISIBLE) > U32_MAX
  {
  }

  /** At a bar width of `u32::MAX` the saturating sum stops measuring: two huge widgets both "fit". */
  lemma {:induction false} SaturationBreaksTheBudget()
    ensures DistinctIds(TWINS.widgets) && TWINS.userOverrides == map[] && TWINS.budget.available == U32_MAX
    ensures !WithinBudget(TWINS)
  {
    assert Before(TWIN_A, TWIN_C) && !Before(TWIN_C, TWIN_A);
    TwinOrder(TWIN_A, TWIN_C);
    TwinsWanted();
    TwinsPlaced(TWINS.budget);
    TwinsWidth(TWINS.budget);
    assert Overlay(BOTH_VISIBLE, map[]) == BOTH_VISIBLE;
  }

  /** The bar widths whose budget every cascade without pins respects are those below `u32::MAX`. */
  lemma {:induction false} SafeWidths(available: u32)
    ensures (forall input: CascadeInput |
               input.budget.available == available && DistinctIds(input.widgets)
               && HidesOnly(input.userOverrides, input.widgets) :: WithinBudget(input))
       <==> available < U32_MAX
  {
    if available < U32_MAX {
      forall input: CascadeInput | input.budget.available == available && DistinctIds(input.widgets)
                                   && HidesOnly(input.userOverrides, input.widgets)
        ensures WithinBudget(input)
      {
        LayoutFits(input);
      }
    } else {
      SaturationBreaksTheBudget();
      assert HidesOnly(TWINS.userOverrides, TWINS.widgets);
    }
  }

  // ---------------------------------------------------------------- reacting to space

  /** Ranks in placement order. */
  function Ranks(ws: seq<WidgetDef>, levels: Levels): (r: seq<nat>) {
    seq(|ws|, i requires 0 <= i < |ws| => LevelOf(levels, ws[i].id).Rank())
  }

  /** `a` is at least `c` in dictionary order. */
  ghost predicate LexAtLeast(a: seq<nat>, c: seq<nat>) {
    |a| == |c| && (a == c || exists k | 0 <= k < |a| :: FirstDifference(a, c, k) && a[k] > c[k])
  }

  ghost predicate FirstDifference(a: seq<nat>, c: seq<nat>, k: nat) {
    k < |a| == |c| && a[..k] == c[..k] && a[k] != c[k]
  }

  lemma LexExtend(a: seq<nat>, c: seq<nat>, x: nat, y: nat)
    requires LexAtLeast(a, c) && (a == c ==> x >= y)
    ensures LexAtLeast(a + [x], c + [y])
  {
    if a == c {
      if x != y { assert FirstDifference(a + [x], c + [y], |a|); }
    } else {
      var k :| 0 <= k < |a| && FirstDifference(a, c, k) && a[k] > c[k];
      assert (a + [x])[..k] == a[..k] && (c + [y])[..k] == c[..k];
      assert FirstDifference(a + [x], c + [y], k);
    }
  }

  /** The ranks after placing `order` extend the ranks after placing all but its last widget. */
  lemma RanksExtend(b: Budget, order: seq<WidgetDef>, levels: Levels)
    requires DistinctIds(order) && order != []
    ensures var init, w := order[..|order| - 1], order[|order| - 1];
      Ranks(order, Place(b, order, levels).levels)
        == Ranks(init, Place(b, init, levels).levels) + [LevelOf(Place(b, order, levels).levels, w.id).Rank()]
  {
  }

  /** Bars in step before the last widget: the wider one gives it no lower a level, and stays in step
      unless that level is higher. */
  lemma WiderTurn(b: Budget, wider: u32, order: seq<WidgetDef>, levels: Levels)
    requires DistinctIds(order) && order != [] && b.available <= wider
    requires var init := order[..|order| - 1];
      Place(b, init, levels).running == Place(b.(available := wider), init, levels).running
      && Place(b, init, levels).shown == Place(b.(available := wider), init, levels).shown
    ensures var narrow, wide := Place(b, order, levels), Place(b.(available := wider), order, levels);
      var x, y := LevelOf(wide.levels, order[|order| - 1].id).Rank(),
        LevelOf(narrow.levels, order[|order| - 1].id).Rank();
      x >= y && (x == y ==> wide.running == narrow.running && wide.shown == narrow.shown)
  {
    var n, c := |order| - 1, b.(available := wider);
    PlacementKeepsOthers(b, order[..n], levels, order[n].id);
    PlacementKeepsOthers(c, order[..n], levels, order[n].id);
    WiderStep(b, wider, Place(b, order[..n], levels), Place(c, order[..n], levels), order[n]);
  }

  /** In dictionary order, extended by one rank each; `agree` is what equal prefixes are known to give. */
  lemma LexTurn(a: seq<nat>, c: seq<nat>, x: nat, y: nat, agree: bool, next: bool)
    requires LexAtLeast(a, c) && (a == c ==> agree)
    requires agree && a == c ==> x >= y && (x == y ==> next)
    ensures LexAtLeast(a + [x], c + [y]) && (a + [x] == c + [y] ==> next)
  {
    LexExtend(a, c, x, y);
    if a + [x] == c + [y] { SplitEqual(a, c, x, y); }
  }

  lemma {:induction false} WiderPlacesBetter(b: Budget, wider: u32, order: seq<WidgetDef>, levels: Levels)
    requires DistinctIds(order) && b.available <= wider
    ensures var narrow, wide := Place(b, order, levels), Place(b.(available := wider), order, levels);
      && LexAtLeast(Ranks(order, wide.levels), Ranks(order, narrow.levels))
      && (Ranks(order, wide.levels) == Ranks(order, narrow.levels) ==>
            wide.running == narrow.running && wide.shown == narrow.shown)
  {
    if order != [] {
      var n := |order| - 1;
      var init, c := order[..n], b.(available := wider);
      WiderPlacesBetter(b, wider, init, levels);
      RanksExtend(b, order, levels);
      RanksExtend(c, order, levels);
      var narrow, wide := Place(b, init, levels), Place(c, init, levels);
      var narrower, further := Place(b, order, levels), Place(c, order, levels);
      if narrow.running == wide.running && narrow.shown == wide.shown { WiderTurn(b, wider, order, levels); }
      LexTurn(Ranks(init, wide.levels), Ranks(init, narrow.levels),
        LevelOf(further.levels, order[n].id).Rank(), LevelOf(narrower.levels, order[n].id).Rank(),
        narrow.running == wide.running && narrow.shown == wide.shown,
        narrower.running == further.running && narrower.shown == further.shown);
    }
  }

  lemma SplitEqual(a: seq<nat>, c: seq<nat>, x: nat, y: nat)
    requires |a| == |c| && a + [x] == c + [y]
    ensures a == c && x == y
  {
    assert (a + [x])[..|a|] == a && (c + [y])[..|c|] == c;
    assert (a + [x])[|a|] == x && (c + [y])[|c|] == y;
  }

  lemma WiderSettlesHigher(b: Budget, wider: u32, running: u32, shown: nat, id: string, p: Prominence)
    requires b.available <= wider
    ensures Settle(b.(available := wider), running, shown, id, p).Rank() >= Settle(b, running, shown, id, p).Rank()
  {
  }

  lemma WiderStep(b: Budget, wider: u32, narrow: Placement, wide: Placement, w: WidgetDef)
    requires narrow.running == wide.running && narrow.shown == wide.shown && b.available <= wider
    requires LevelOf(narrow.levels, w.id) == LevelOf(wide.levels, w.id)
    ensures var n, m := PlaceOne(b, narrow, w), PlaceOne(b.(available := wider), wide, w);
      var x, y := LevelOf(m.levels, w.id).Rank(), LevelOf(n.levels, w.id).Rank();
      x >= y && (x == y ==> n.running == m.running && n.shown == m.shown)
  {
    var c, p := b.(available := wider), LevelOf(narrow.levels, w.id);
    PlaceOneSettles(b, narrow, w);
    PlaceOneSettles(c, wide, w);
    WiderSettlesHigher(b, wider, narrow.running, narrow.shown, w.id, p);
    SameLevelSameUse(b, wider, narrow, wide, w);
    RankTells(LevelOf(PlaceOne(b, narrow, w).levels, w.id), LevelOf(PlaceOne(c, wide, w).levels, w.id));
  }

  lemma RankTells(p: Prominence, q: Prominence)
    ensures p.Rank() == q.Rank() ==> p == q
  {
  }

  lemma SameLevelSameUse(b: Budget, wider: u32, narrow: Placement, wide: Placement, w: WidgetDef)
    requires narrow.running == wide.running && narrow.shown == wide.shown
    ensures var x, y := PlaceOne(b, narrow, w), PlaceOne(b.(available := wider), wide, w);
      LevelOf(x.levels, w.id) == LevelOf(y.levels, w.id) ==> x.running == y.running && x.shown == y.shown
  {
  }

  /** The levels the spatial step settles on, highest priority first. */
  function PlacedRanks(input: CascadeInput): seq<nat> {
    Ranks(ByPriority(input.widgets), Placed(input).levels)
  }

  /** A wider bar gives a layout at least as good, read from the highest priority down. */
  lemma {:induction false} WiderIsLexicographicallyBetter(input: CascadeInput, wider: u32)
    requires DistinctIds(input.widgets) && input.budget.available <= wider
    ensures LexAtLeast(PlacedRanks(input.(budget := input.budget.(available := wider))), PlacedRanks(input))
  {
    OrderIsDistinct(input.widgets);
    WiderPlacesBetter(input.budget, wider, ByPriority(input.widgets), Wanted(input));
  }
}
