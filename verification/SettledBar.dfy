/** Cascade and debouncer together: once a result has held long enough, what is committed fits the bar. */
module SettledBar {
  import opened Prelude
  import opened Prominences
  import opened Cascade
  import opened CascadeSpace
  import opened CascadeOrder
  import opened Debounce
  import opened DebounceRuns

  /** The committed levels are those of the cascade, widget by widget. */
  lemma {:induction false} SettledAgrees(cfg: Config, events: seq<Event>, k: nat, input: CascadeInput)
    requires k < |events| - 1 && Stretch(events, k, Resolve(input).prominences) && ClockRises(events)
    requires events[|events| - 1].now >= events[k].now + cfg.Longest()
    ensures SameLevels(ByPriority(input.widgets), Resolve(input).prominences, Run(cfg, events).committed)
    ensures forall w | w in input.widgets ::
      LevelOf(Run(cfg, events).committed, w.id) == LevelOf(Resolve(input).prominences, w.id)
  {
    var levels, committed, order := Resolve(input).prominences, Run(cfg, events).committed, ByPriority(input.widgets);
    Settles(cfg, events, k, levels);
    PlacedKeys(input);
    forall w | w in input.widgets ensures LevelOf(committed, w.id) == LevelOf(levels, w.id) {
      assert w.id in levels;
    }
    forall i | 0 <= i < |order| ensures LevelOf(levels, order[i].id) == LevelOf(committed, order[i].id) {
      var a := IndexOf(input.widgets, order, i);
      assert input.widgets[a] in input.widgets;
    }
  }

  lemma ShownAgree(ws: seq<WidgetDef>, l: Levels, m: Levels)
    requires forall w | w in ws :: LevelOf(m, w.id) == LevelOf(l, w.id)
    ensures ShownIds(ws, l) == ShownIds(ws, m)
  {
  }

  /** Settling: without pins and below saturation, after one cascade result has been observed for the
      longest delay, the committed widths and gaps fit the bar, and the zones published list exactly the
      widgets committed as shown. */
  lemma {:induction false} SettledBarFits(cfg: Config, events: seq<Event>, k: nat, input: CascadeInput)
    requires DistinctIds(input.widgets) && input.budget.available < U32_MAX
    requires HidesOnly(input.userOverrides, input.widgets)
    requires k < |events| - 1 && Stretch(events, k, Resolve(input).prominences) && ClockRises(events)
    requires events[|events| - 1].now >= events[k].now + cfg.Longest()
    ensures TrueUse(input.budget, ByPriority(input.widgets), Run(cfg, events).committed) <= input.budget.available
    ensures var bar := Resolve(input).bar;
      multiset(bar.left + bar.center + bar.right) == multiset(ShownIds(input.widgets, Run(cfg, events).committed))
  {
    var levels, committed := Resolve(input).prominences, Run(cfg, events).committed;
    SettledAgrees(cfg, events, k, input);
    LayoutFits(input);
    UseIsLocal(input.budget, ByPriority(input.widgets), levels, committed);
    AllZonesIds(input.widgets, levels);
    ShownAgree(input.widgets, levels, committed);
  }
}
