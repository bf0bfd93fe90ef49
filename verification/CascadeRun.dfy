/** The cascade as it runs: one level map updated step by step, maps visited in any order. */
module CascadeRun {
  import opened Prelude
  import opened Prominences
  import opened Expressions
  import opened Cascade

  method SeedDefaults(widgets: seq<WidgetDef>) returns (levels: Levels)
    ensures levels == Seed(widgets)
  {
    levels := map[];
    for i := 0 to |widgets|
      invariant levels == Seed(widgets[..i])
    {
      assert widgets[..i + 1][..i] == widgets[..i];
      levels := levels[widgets[i].id := widgets[i].default];
    }
    assert widgets[..|widgets|] == widgets;
  }

  /** One more rule raises at most its own target. */
  lemma OneMoreRule(seeded: Levels, rules: seq<CompiledRule>, rule: CompiledRule, signals: SignalContext)
    ensures Relevance(seeded, rules + [rule], signals) ==
      var levels := Relevance(seeded, rules, signals);
      if rule.target in levels && Fires(rule, signals) && rule.prominence.Above(levels[rule.target])
      then levels[rule.target := rule.prominence] else levels
  {
  }

  /** One pass over the rules; a rule for an unknown widget is skipped. */
  method ApplyRules(widgets: seq<WidgetDef>, seeded: Levels, rules: seq<CompiledRule>, signals: SignalContext)
    returns (levels: Levels)
    requires seeded == Seed(widgets)
    ensures levels == Relevance(seeded, rules, signals)
  {
    levels := seeded;
    for i := 0 to |rules|
      invariant levels == Relevance(seeded, rules[..i], signals)
    {
      var rule := rules[i];
      assert rules[..i + 1] == rules[..i] + [rule];
      OneMoreRule(seeded, rules[..i], rule, signals);
      if exists w :: w in widgets && w.id == rule.target {
        if Fires(rule, signals) {
          if rule.prominence.Above(levels[rule.target]) {
            levels := levels[rule.target := rule.prominence];
          }
        }
      }
    }
    assert rules[..|rules|] == rules;
  }

  /** Replace the level of every known widget that `overrides` mentions, in whatever order the map
      yields its entries. */
  method ApplyOverrides(levels: Levels, overrides: Levels) returns (r: Levels)
    ensures r == Overlay(levels, overrides)
  {
    r := levels;
    var todo := overrides.Keys;
    while todo != {}
      invariant todo <= overrides.Keys && r.Keys == levels.Keys
      invariant forall id | id in levels ::
        r[id] == if id in overrides && id !in todo then overrides[id] else levels[id]
    {
      var id :| id in todo;
      if id in r {
        r := r[id := overrides[id]];
      }
      todo := todo - {id};
    }
  }

  /** Demote one widget until it fits or is hidden. */
  method FitWidget(b: Budget, before: Levels, running: u32, shown: nat, w: WidgetDef) returns (at: Placement)
    requires w.id in before
    ensures at == PlaceOne(b, Placement(before, running, shown), w)
  {
    var levels, taken, count := before, running, shown;
    while true
      invariant w.id in levels && levels == before[w.id := levels[w.id]]
      invariant taken == running && count == shown
      invariant Settle(b, running, shown, w.id, levels[w.id]) == Settle(b, running, shown, w.id, before[w.id])
      decreases levels[w.id].Rank()
    {
      var p := levels[w.id];
      if p == Hidden { break; }
      var gap: u32 := if count > 0 then b.gap else 0;
      if SatAdd32(SatAdd32(taken, b.width(w.id, p)), gap) <= b.available {
        taken := SatAdd32(SatAdd32(taken, b.width(w.id, p)), gap);
        count := count + 1;
        break;
      }
      var demoted := DemoteOne(p);
      levels := levels[w.id := demoted];
      if demoted == Hidden { break; }
    }
    at := Placement(levels, taken, count);
  }

  method FitBar(b: Budget, order: seq<WidgetDef>, wanted: Levels) returns (levels: Levels)
    requires forall w | w in order :: w.id in wanted
    ensures levels == Place(b, order, wanted).levels
  {
    var at := Placement(wanted, 0, 0);
    for i := 0 to |order|
      invariant at == Place(b, order[..i], wanted)
      invariant wanted.Keys <= at.levels.Keys
    {
      assert order[..i + 1][..i] == order[..i];
      assert order[i] in order;
      at := FitWidget(b, at.levels, at.running, at.shown, order[i]);
    }
    assert order[..|order|] == order;
    levels := at.levels;
  }

  /** Sort the shown widgets into their zones. */
  method BuildBar(widgets: seq<WidgetDef>, levels: Levels) returns (bar: BarLayout)
    ensures bar == Bar(widgets, levels)
  {
    var left: seq<WidgetDef>, center: seq<WidgetDef>, right: seq<WidgetDef> := [], [], [];
    for i := 0 to |widgets|
      invariant left == InZone(widgets[..i], levels, LeftZone)
      invariant center == InZone(widgets[..i], levels, CenterZone)
      invariant right == InZone(widgets[..i], levels, RightZone)
    {
      assert widgets[..i + 1][..i] == widgets[..i];
      var w := widgets[i];
      if LevelOf(levels, w.id) == Hidden { continue; }
      match w.zone {
        case LeftZone => left := left + [w];
        case CenterZone => center := center + [w];
        case RightZone => right := right + [w];
      }
    }
    assert widgets[..|widgets|] == widgets;
    bar := BarLayout(Ids(ByPriority(left)), Ids(ByPriority(center)), Ids(ByPriority(right)));
  }

  /** The whole cascade. */
  method ResolveLayout(input: CascadeInput) returns (layout: Layout)
    ensures layout == Resolve(input)
  {
    var levels := SeedDefaults(input.widgets);
    levels := ApplyRules(input.widgets, levels, input.rules, input.signals);
    if input.activeProfile.Some? {
      levels := ApplyOverrides(levels, input.activeProfile.value.overrides);
    }
    var order := ByPriority(input.widgets);
    forall w | w in order ensures w.id in levels {
      assert w in multiset(order);
      assert w in multiset(input.widgets);
      assert w in input.widgets;
    }
    levels := FitBar(input.budget, order, levels);
    levels := ApplyOverrides(levels, input.userOverrides);
    var bar := BuildBar(input.widgets, levels);
    layout := Layout(levels, bar);
  }
}
