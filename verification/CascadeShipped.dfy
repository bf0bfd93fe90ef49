/** When a wider bar is better for every widget, with the widths and the gap the engine ships with. */
module CascadeShipped {
  import opened Prelude
  import opened Prominences
  import opened Cascade
  import opened CascadeSpace
  import opened CascadeWidening

  // ---------------------------------------------------------------- the shipped bar

  const SHIPPED_GAP: u32 := 8

  /** The width table the engine ships with. */
  function ShippedWidth(id: string, p: Prominence): u32 {
    match p
    case Hidden => 0
    case Badge => 16
    case IconOnly => 32
    case Compact => 96
    case Visible => 160
    case Expanded => 220
  }

  function Shipped(available: u32): Budget {
    Budget(available, SHIPPED_GAP, ShippedWidth)
  }

  /** Widening a shipped bar never costs any widget a level. */
  ghost predicate ShippedNeverHurts(input: CascadeInput) {
    forall a: u32, wider: u32, w | a <= wider && w in input.widgets :: NoLowerOn(input, a, wider, w.id)
  }

  /** `id` is placed no lower on the wider bar. */
  predicate NoLowerOn(input: CascadeInput, a: u32, wider: u32, id: string) {
    PlacedLevel(input, Shipped(wider), id).Rank() >= PlacedLevel(input, Shipped(a), id).Rank()
  }

  /** Where the next widget starts on a bar of `running` pixels and `shown` widgets. */
  function Start(running: nat, shown: nat): nat {
    running + if shown > 0 then SHIPPED_GAP else 0
  }

  /** Where widget `n` starts when all before it are shown as wanted. */
  function FullStart(order: seq<WidgetDef>, levels: Levels, n: nat): nat
    requires n <= |order|
  {
    Start(TrueUse(Shipped(0), order[..n], levels), ShownCount(order[..n], levels))
  }

  /** Widget `n` is wanted at Compact or above, and some bar below saturation holds it there behind all
      before it as wanted. */
  predicate Spreads(order: seq<WidgetDef>, levels: Levels, n: nat)
    requires n < |order|
  {
    LevelOf(levels, order[n].id).Rank() >= Compact.Rank() && FullStart(order, levels, n) + 96 < U32_MAX
  }

  ghost predicate WantedFrom(order: seq<WidgetDef>, levels: Levels, k: nat) {
    exists m | k <= m < |order| :: Shown(levels, order[m].id)
  }

  /** Only the last wanted widget may spread. */
  ghost predicate OnlyLastSpreads(input: CascadeInput) {
    var order := ByPriority(input.widgets);
    forall n | 0 <= n < |order| && Spreads(order, Wanted(input), n) :: !WantedFrom(order, Wanted(input), n + 1)
  }

  // ---------------------------------------------------------------- one widget on a shipped bar

  lemma ShippedFits(a: u32, running: u32, shown: nat, id: string, p: Prominence)
    requires a < U32_MAX
    ensures Fits(Shipped(a), running, shown, id, p) <==> Start(running, shown) + ShippedWidth(id, p) <= a
    ensures Fits(Shipped(a), running, shown, id, p) ==>
      Extended(Shipped(a), running, shown, id, p) == Start(running, shown) + ShippedWidth(id, p)
  {
  }

  /** What the placement of a widget wanted at `p` comes to: level, pixels, and no room for the next level. */
  lemma ShippedSettle(a: u32, running: u32, shown: nat, id: string, p: Prominence) returns (q: Prominence)
    requires a < U32_MAX
    ensures q == Settle(Shipped(a), running, shown, id, p) && q.Rank() <= p.Rank()
    ensures q != Hidden ==> Start(running, shown) + ShippedWidth(id, q) <= a
    ensures forall r: Prominence | q.Rank() < r.Rank() <= p.Rank() :: Start(running, shown) + ShippedWidth(id, r) > a
  {
    q := Settle(Shipped(a), running, shown, id, p);
    forall r: Prominence ensures Fits(Shipped(a), running, shown, id, r) <==>
      Start(running, shown) + ShippedWidth(id, r) <= a
    {
      ShippedFits(a, running, shown, id, r);
    }
  }

  lemma SettlesSomewhere(a: u32, running: u32, shown: nat, id: string, p: Prominence)
    requires a < U32_MAX && p != Hidden
    ensures Settle(Shipped(a), running, shown, id, p) == Hidden <==> Start(running, shown) + 16 > a
  {
    var q := ShippedSettle(a, running, shown, id, p);
    assert Badge.Rank() <= p.Rank() && ShippedWidth(id, Badge) == 16;
  }

  lemma SettlesBelowVisible(a: u32, running: u32, shown: nat, id: string, p: Prominence)
    requires a < U32_MAX && p.Rank() >= Compact.Rank() && Start(running, shown) + 32 <= a < Start(running, shown) + 160
    ensures Settle(Shipped(a), running, shown, id, p) == if Start(running, shown) + 96 <= a then Compact else IconOnly
  {
    var q := ShippedSettle(a, running, shown, id, p);
    assert ShippedWidth(id, Compact) == 96 && ShippedWidth(id, IconOnly) == 32;
  }

  /** Nothing fits any more. */
  predicate Stuck(a: u32, at: Placement) {
    Start(at.running, at.shown) + 16 > a
  }

  /** No bar below saturation holds another widget at Compact. */
  predicate Heavy(at: Placement) {
    Start(at.running, at.shown) + 96 >= U32_MAX
  }

  lemma PlaceOneShipped(a: u32, at: Placement, w: WidgetDef) returns (q: Prominence)
    requires a < U32_MAX
    ensures q == LevelOf(PlaceOne(Shipped(a), at, w).levels, w.id)
         == Settle(Shipped(a), at.running, at.shown, w.id, LevelOf(at.levels, w.id))
    ensures var next := PlaceOne(Shipped(a), at, w);
      if q == Hidden then next.running == at.running && next.shown == at.shown
      else next.running == Start(at.running, at.shown) + ShippedWidth(w.id, q) && next.shown == at.shown + 1
  {
    q := ShippedSettle(a, at.running, at.shown, w.id, LevelOf(at.levels, w.id));
    PlaceOneSettles(Shipped(a), at, w);
    ShippedFits(a, at.running, at.shown, w.id, q);
  }

  lemma StuckHides(a: u32, at: Placement, w: WidgetDef)
    requires a < U32_MAX && Stuck(a, at)
    ensures LevelOf(PlaceOne(Shipped(a), at, w).levels, w.id) == Hidden && Stuck(a, PlaceOne(Shipped(a), at, w))
  {
    var q := PlaceOneShipped(a, at, w);
    var r := ShippedSettle(a, at.running, at.shown, w.id, LevelOf(at.levels, w.id));
  }

  /** A widget demoted to Badge or Hidden leaves no room for another one. */
  lemma DemotionSticks(a: u32, at: Placement, w: WidgetDef)
    requires a < U32_MAX
    requires LevelOf(PlaceOne(Shipped(a), at, w).levels, w.id).Rank() < LevelOf(at.levels, w.id).Rank()
    requires LevelOf(PlaceOne(Shipped(a), at, w).levels, w.id).Rank() <= Badge.Rank()
    ensures Stuck(a, PlaceOne(Shipped(a), at, w))
  {
    var q := PlaceOneShipped(a, at, w);
    var r := ShippedSettle(a, at.running, at.shown, w.id, LevelOf(at.levels, w.id));
    assert (if q == Hidden then Badge else IconOnly).Rank() == q.Rank() + 1;
  }

  // ---------------------------------------------------------------- two bars side by side

  /** All widgets placed so far are as wanted. */
  predicate AsWanted(order: seq<WidgetDef>, levels: Levels, k: nat, at: Placement)
    requires k <= |order|
  {
    at.running == TrueUse(Shipped(0), order[..k], levels) && at.shown == ShownCount(order[..k], levels)
  }

  /** Before widget `k` the bars are in step, or it does not matter any more. */
  ghost predicate SideBySide(a: u32, c: u32, order: seq<WidgetDef>, levels: Levels, k: nat)
    requires k <= |order|
  {
    var n, m := Place(Shipped(a), order[..k], levels), Place(Shipped(c), order[..k], levels);
    || !WantedFrom(order, levels, k) || Stuck(a, n)
    || (n.running == m.running && n.shown == m.shown && (Heavy(n) || AsWanted(order, levels, k, n)))
  }

  lemma FrontIs(b: Budget, order: seq<WidgetDef>, levels: Levels, k: nat)
    requires DistinctIds(order) && k < |order|
    ensures Place(b, order[..k + 1], levels) == PlaceOne(b, Place(b, order[..k], levels), order[k])
    ensures LevelOf(Place(b, order[..k], levels).levels, order[k].id) == LevelOf(levels, order[k].id)
  {
    assert order[..k + 1][..k] == order[..k] && order[..k + 1][k] == order[k];
    PlacementKeepsOthers(b, order[..k], levels, order[k].id);
  }

  lemma WantedMore(order: seq<WidgetDef>, levels: Levels, k: nat)
    requires k < |order|
    ensures WidthTotal(Shipped(0), order[..k + 1], levels)
         == WidthTotal(Shipped(0), order[..k], levels) + WidthAt(Shipped(0), levels, order[k].id)
    ensures if Shown(levels, order[k].id) then
        ShownCount(order[..k + 1], levels) == ShownCount(order[..k], levels) + 1
        && TrueUse(Shipped(0), order[..k + 1], levels)
             == FullStart(order, levels, k) + ShippedWidth(order[k].id, LevelOf(levels, order[k].id))
      else
        ShownCount(order[..k + 1], levels) == ShownCount(order[..k], levels)
        && TrueUse(Shipped(0), order[..k + 1], levels) == TrueUse(Shipped(0), order[..k], levels)
  {
    assert order[..k + 1][..k] == order[..k] && order[..k + 1][k] == order[k];
    UseOneMore(Shipped(0), order[..k + 1], levels);
  }

  /** A turn on bars in step. */
  lemma SameTurn(a: u32, c: u32, order: seq<WidgetDef>, levels: Levels, k: nat, n: Placement, m: Placement)
    requires a <= c < U32_MAX && k < |order| && n.running == m.running && n.shown == m.shown
    requires LevelOf(n.levels, order[k].id) == LevelOf(m.levels, order[k].id) == LevelOf(levels, order[k].id)
    requires Heavy(n) || AsWanted(order, levels, k, n)
    requires Spreads(order, levels, k) ==> !WantedFrom(order, levels, k + 1)
    ensures var x, y := PlaceOne(Shipped(a), n, order[k]), PlaceOne(Shipped(c), m, order[k]);
      || !WantedFrom(order, levels, k + 1) || Stuck(a, x)
      || (x.running == y.running && x.shown == y.shown && (Heavy(x) || AsWanted(order, levels, k + 1, x)))
  {
    var w, p := order[k], LevelOf(levels, order[k].id);
    var q := LevelOf(PlaceOne(Shipped(a), n, w).levels, w.id);
    LevelDrops(a, n, w);
    if q == p {
      KeptTurn(a, c, order, levels, k, n, m);
    } else if q.Rank() <= Badge.Rank() {
      DemotionSticks(a, n, w);
    } else if Heavy(n) {
      HeavyTurn(a, c, w, n, m);
    } else {
      assert Spreads(order, levels, k);
    }
  }

  lemma LevelDrops(a: u32, at: Placement, w: WidgetDef)
    requires a < U32_MAX
    ensures var q, p := LevelOf(PlaceOne(Shipped(a), at, w).levels, w.id), LevelOf(at.levels, w.id);
      q == p || q.Rank() < p.Rank()
  {
    var q := PlaceOneShipped(a, at, w);
    var r := ShippedSettle(a, at.running, at.shown, w.id, LevelOf(at.levels, w.id));
    if q.Rank() == LevelOf(at.levels, w.id).Rank() { RankTells(q, LevelOf(at.levels, w.id)); }
  }

  lemma HeavyTurn(a: u32, c: u32, w: WidgetDef, n: Placement, m: Placement)
    requires a <= c < U32_MAX && n.running == m.running && n.shown == m.shown && Heavy(n)
    requires LevelOf(n.levels, w.id) == LevelOf(m.levels, w.id)
    requires LevelOf(PlaceOne(Shipped(a), n, w).levels, w.id).Rank() > Badge.Rank()
    ensures var x, y := PlaceOne(Shipped(a), n, w), PlaceOne(Shipped(c), m, w);
      x.running == y.running && x.shown == y.shown && Heavy(x)
  {
    var p := LevelOf(n.levels, w.id);
    var q := PlaceOneShipped(a, n, w);
    var r := PlaceOneShipped(c, m, w);
    WiderSettlesHigher(Shipped(a), c, n.running, n.shown, w.id, p);
    HeavyIcon(a, n, w.id, p);
    HeavyIcon(c, m, w.id, p);
    assert q.Rank() == r.Rank() == IconOnly.Rank();
    RankTells(q, r);
  }

  lemma KeptTurn(a: u32, c: u32, order: seq<WidgetDef>, levels: Levels, k: nat, n: Placement, m: Placement)
    requires a <= c < U32_MAX && k < |order| && n.running == m.running && n.shown == m.shown
    requires LevelOf(n.levels, order[k].id) == LevelOf(m.levels, order[k].id) == LevelOf(levels, order[k].id)
    requires LevelOf(PlaceOne(Shipped(a), n, order[k]).levels, order[k].id) == LevelOf(levels, order[k].id)
    requires Heavy(n) || AsWanted(order, levels, k, n)
    ensures var x, y := PlaceOne(Shipped(a), n, order[k]), PlaceOne(Shipped(c), m, order[k]);
      x.running == y.running && x.shown == y.shown && (Heavy(x) || AsWanted(order, levels, k + 1, x))
  {
    var w, p := order[k], LevelOf(levels, order[k].id);
    var q := PlaceOneShipped(a, n, w);
    var r := PlaceOneShipped(c, m, w);
    var s := ShippedSettle(c, m.running, m.shown, w.id, p);
    WiderSettlesHigher(Shipped(a), c, n.running, n.shown, w.id, p);
    RankTells(s, p);
    WantedMore(order, levels, k);
  }

  lemma HeavyIcon(a: u32, at: Placement, id: string, p: Prominence)
    requires a < U32_MAX && Heavy(at)
    ensures Settle(Shipped(a), at.running, at.shown, id, p).Rank() <= IconOnly.Rank()
  {
    var q := ShippedSettle(a, at.running, at.shown, id, p);
  }

  lemma NextTurn(a: u32, c: u32, order: seq<WidgetDef>, levels: Levels, k: nat)
    requires a <= c < U32_MAX && DistinctIds(order) && k < |order| && SideBySide(a, c, order, levels, k)
    requires Spreads(order, levels, k) ==> !WantedFrom(order, levels, k + 1)
    ensures SideBySide(a, c, order, levels, k + 1)
  {
    var n, m := Place(Shipped(a), order[..k], levels), Place(Shipped(c), order[..k], levels);
    FrontIs(Shipped(a), order, levels, k);
    FrontIs(Shipped(c), order, levels, k);
    if Stuck(a, n) {
      StuckHides(a, n, order[k]);
    } else if WantedFrom(order, levels, k) {
      SameTurn(a, c, order, levels, k, n, m);
    }
  }

  /** Side by side, the wider bar gives a widget no lower a level. */
  lemma NoLower(a: u32, c: u32, order: seq<WidgetDef>, levels: Levels, k: nat)
    requires a <= c < U32_MAX && DistinctIds(order) && k < |order| && SideBySide(a, c, order, levels, k)
    ensures LevelOf(Place(Shipped(c), order, levels).levels, order[k].id).Rank()
         >= LevelOf(Place(Shipped(a), order, levels).levels, order[k].id).Rank()
  {
    var n, m := Place(Shipped(a), order[..k], levels), Place(Shipped(c), order[..k], levels);
    FirstFit(Shipped(a), order, levels, k);
    FirstFit(Shipped(c), order, levels, k);
    assert Shown(levels, order[k].id) ==> WantedFrom(order, levels, k);
    NoLowerHere(a, c, n, m, order[k].id, LevelOf(levels, order[k].id));
  }

  lemma NoLowerHere(a: u32, c: u32, n: Placement, m: Placement, id: string, p: Prominence)
    requires a <= c < U32_MAX
    requires p == Hidden || Stuck(a, n) || (n.running == m.running && n.shown == m.shown)
    ensures Settle(Shipped(c), m.running, m.shown, id, p).Rank() >= Settle(Shipped(a), n.running, n.shown, id, p).Rank()
  {
    if p != Hidden {
      SettlesSomewhere(a, n.running, n.shown, id, p);
      if !Stuck(a, n) { WiderSettlesHigher(Shipped(a), c, n.running, n.shown, id, p); }
    }
  }

  /** On the widest bar everything fits as wanted. */
  lemma AllFitAtMax(order: seq<WidgetDef>, levels: Levels, k: nat)
    requires DistinctIds(order) && k < |order|
    ensures LevelOf(Place(Shipped(U32_MAX), order, levels).levels, order[k].id) == LevelOf(levels, order[k].id)
  {
    FirstFit(Shipped(U32_MAX), order, levels, k);
  }

  lemma PlacedNoHigher(b: Budget, order: seq<WidgetDef>, levels: Levels, k: nat)
    requires DistinctIds(order) && k < |order|
    ensures LevelOf(Place(b, order, levels).levels, order[k].id).Rank() <= LevelOf(levels, order[k].id).Rank()
  {
    FirstFit(b, order, levels, k);
  }

  lemma NeverLower(a: u32, c: u32, order: seq<WidgetDef>, levels: Levels, i: nat)
    requires a <= c && DistinctIds(order) && i < |order|
    requires forall n | 0 <= n < |order| && Spreads(order, levels, n) :: !WantedFrom(order, levels, n + 1)
    ensures LevelOf(Place(Shipped(c), order, levels).levels, order[i].id).Rank()
         >= LevelOf(Place(Shipped(a), order, levels).levels, order[i].id).Rank()
  {
    if c == U32_MAX {
      AllFitAtMax(order, levels, i);
      PlacedNoHigher(Shipped(a), order, levels, i);
    } else {
      assert order[..0] == [];
      for k := 0 to i
        invariant SideBySide(a, c, order, levels, k)
      {
        NextTurn(a, c, order, levels, k);
      }
      NoLower(a, c, order, levels, i);
    }
  }

  // ---------------------------------------------------------------- a widget that spreads takes the room of the next

  /** A bar with room for all shows all as wanted. */
  lemma {:induction false} FullFront(a: u32, order: seq<WidgetDef>, levels: Levels, k: nat)
    requires DistinctIds(order) && k <= |order| && TrueUse(Shipped(0), order[..k], levels) <= a < U32_MAX
    ensures AsWanted(order, levels, k, Place(Shipped(a), order[..k], levels))
  {
    if k > 0 {
      UseGrows(order, levels, k - 1);
      FullFront(a, order, levels, k - 1);
      FrontIs(Shipped(a), order, levels, k - 1);
      FullTurn(a, order, levels, k - 1, Place(Shipped(a), order[..k - 1], levels));
    } else {
      assert order[..0] == [];
    }
  }

  lemma UseGrows(order: seq<WidgetDef>, levels: Levels, k: nat)
    requires k < |order|
    ensures TrueUse(Shipped(0), order[..k], levels) <= TrueUse(Shipped(0), order[..k + 1], levels)
  {
    WantedMore(order, levels, k);
  }

  lemma FullTurn(a: u32, order: seq<WidgetDef>, levels: Levels, k: nat, at: Placement)
    requires k < |order| && AsWanted(order, levels, k, at)
    requires LevelOf(at.levels, order[k].id) == LevelOf(levels, order[k].id)
    requires TrueUse(Shipped(0), order[..k + 1], levels) <= a < U32_MAX
    ensures AsWanted(order, levels, k + 1, PlaceOne(Shipped(a), at, order[k]))
  {
    WantedMore(order, levels, k);
    var q := PlaceOneShipped(a, at, order[k]);
    var r := ShippedSettle(a, at.running, at.shown, order[k].id, LevelOf(levels, order[k].id));
  }

  lemma {:induction false} UnwantedPass(a: u32, order: seq<WidgetDef>, levels: Levels, n: nat, m: nat)
    requires a < U32_MAX && DistinctIds(order) && n <= m <= |order|
    requires forall i | n <= i < m :: !Shown(levels, order[i].id)
    ensures var x, y := Place(Shipped(a), order[..n], levels), Place(Shipped(a), order[..m], levels);
      y.running == x.running && y.shown == x.shown
  {
    if n < m {
      UnwantedPass(a, order, levels, n, m - 1);
      FrontIs(Shipped(a), order, levels, m - 1);
      var q := PlaceOneShipped(a, Place(Shipped(a), order[..m - 1], levels), order[m - 1]);
      var r := ShippedSettle(a, Place(Shipped(a), order[..m - 1], levels).running,
        Place(Shipped(a), order[..m - 1], levels).shown, order[m - 1].id, Hidden);
    }
  }

  /** Where the bar stands after a widget that spreads, with `spare` pixels from where it starts. */
  lemma SpreadTurn(order: seq<WidgetDef>, levels: Levels, n: nat, spare: nat, a: u32)
    requires DistinctIds(order) && n < |order| && Spreads(order, levels, n)
    requires (spare == 95 || spare == 96) && a == FullStart(order, levels, n) + spare
    ensures var at := Place(Shipped(a), order[..n + 1], levels);
      at.shown > 0 && at.running == FullStart(order, levels, n) + if spare == 95 then 32 else 96
  {
    var at, w, p := Place(Shipped(a), order[..n], levels), order[n], LevelOf(levels, order[n].id);
    FullFront(a, order, levels, n);
    FrontIs(Shipped(a), order, levels, n);
    var q := PlaceOneShipped(a, at, w);
    SettlesBelowVisible(a, at.running, at.shown, w.id, p);
  }

  /** The next wanted widget finds that bar. */
  lemma SpreadNext(order: seq<WidgetDef>, levels: Levels, n: nat, m: nat, spare: nat, a: u32)
    requires DistinctIds(order) && n < m < |order| && Spreads(order, levels, n)
    requires (spare == 95 || spare == 96) && a == FullStart(order, levels, n) + spare
    requires forall i | n < i < m :: !Shown(levels, order[i].id)
    requires Shown(levels, order[m].id)
    ensures LevelOf(Place(Shipped(a), order, levels).levels, order[m].id) == Hidden <==> spare == 96
  {
    var at := Place(Shipped(a), order[..m], levels);
    SpreadTurn(order, levels, n, spare, a);
    UnwantedPass(a, order, levels, n + 1, m);
    FirstFit(Shipped(a), order, levels, m);
    SettlesSomewhere(a, at.running, at.shown, order[m].id, LevelOf(levels, order[m].id));
  }

  lemma NextWanted(order: seq<WidgetDef>, levels: Levels, k: nat) returns (m: nat)
    requires WantedFrom(order, levels, k)
    ensures k <= m < |order| && Shown(levels, order[m].id) && forall i | k <= i < m :: !Shown(levels, order[i].id)
  {
    var b: nat :| k <= b < |order| && Shown(levels, order[b].id);
    m := k;
    while !Shown(levels, order[m].id)
      invariant k <= m <= b && forall i | k <= i < m :: !Shown(levels, order[i].id)
      decreases b - m
    {
      m := m + 1;
    }
  }

  lemma SpreadHides(order: seq<WidgetDef>, levels: Levels, n: nat) returns (a: u32, c: u32, m: nat)
    requires DistinctIds(order) && n < |order| && Spreads(order, levels, n) && WantedFrom(order, levels, n + 1)
    ensures m < |order| && a < c
    ensures LevelOf(Place(Shipped(a), order, levels).levels, order[m].id) != Hidden
    ensures LevelOf(Place(Shipped(c), order, levels).levels, order[m].id) == Hidden
  {
    m := NextWanted(order, levels, n + 1);
    a, c := FullStart(order, levels, n) + 95, FullStart(order, levels, n) + 96;
    SpreadNext(order, levels, n, m, 95, a);
    SpreadNext(order, levels, n, m, 96, c);
  }

  lemma GainsWhileLastSpreads(input: CascadeInput, a: u32, wider: u32, w: WidgetDef)
    requires DistinctIds(input.widgets) && OnlyLastSpreads(input) && a <= wider && w in input.widgets
    ensures NoLowerOn(input, a, wider, w.id)
  {
    OrderIsDistinct(input.widgets);
    var i := OrderIndex(input.widgets, w);
    PlacedBy(input, Shipped(a), w.id);
    PlacedBy(input, Shipped(wider), w.id);
    NeverLower(a, wider, ByPriority(input.widgets), Wanted(input), i);
  }

  lemma SpreadHurts(input: CascadeInput, n: nat)
    requires DistinctIds(input.widgets) && n < |ByPriority(input.widgets)|
    requires Spreads(ByPriority(input.widgets), Wanted(input), n)
    requires WantedFrom(ByPriority(input.widgets), Wanted(input), n + 1)
    ensures !ShippedNeverHurts(input)
  {
    OrderIsDistinct(input.widgets);
    var a, c, m := SpreadHides(ByPriority(input.widgets), Wanted(input), n);
    var i := IndexOf(input.widgets, ByPriority(input.widgets), m);
    PlacedBy(input, Shipped(a), input.widgets[i].id);
    PlacedBy(input, Shipped(c), input.widgets[i].id);
    HiddenIsLower(input, a, c, input.widgets[i].id);
    HurtAt(input, a, c, input.widgets[i]);
  }

  lemma HiddenIsLower(input: CascadeInput, a: u32, c: u32, id: string)
    requires PlacedLevel(input, Shipped(a), id) != Hidden && PlacedLevel(input, Shipped(c), id) == Hidden
    ensures !NoLowerOn(input, a, c, id)
  {
  }

  lemma HurtAt(input: CascadeInput, a: u32, c: u32, w: WidgetDef)
    requires a <= c && w in input.widgets && !NoLowerOn(input, a, c, w.id)
    ensures !ShippedNeverHurts(input)
  {
  }

  // ---------------------------------------------------------------- exactly when

  /** With the shipped widths and gap, widening is better for every widget on all bars exactly when no widget
      wanted at Compact or above has another wanted widget behind it; one so far out that no bar below
      saturation holds it there does no harm. */
  lemma {:induction false} ShippedNeverHurtsIff(input: CascadeInput)
    requires DistinctIds(input.widgets)
    ensures ShippedNeverHurts(input) <==> OnlyLastSpreads(input)
  {
    if OnlyLastSpreads(input) {
      forall a: u32, wider: u32, w | a <= wider && w in input.widgets
        ensures NoLowerOn(input, a, wider, w.id)
      {
        GainsWhileLastSpreads(input, a, wider, w);
      }
    } else {
      var order := ByPriority(input.widgets);
      var n: nat :| n < |order| && Spreads(order, Wanted(input), n) && WantedFrom(order, Wanted(input), n + 1);
      SpreadHurts(input, n);
    }
  }

  // ---------------------------------------------------------------- an example

  const FIRST := WidgetDef("a", Visible, 1, LeftZone)
  const SECOND := WidgetDef("c", Badge, 0, LeftZone)

  function PairInput(available: u32): CascadeInput {
    CascadeInput([FIRST, SECOND], map[], [], None, Budget(available, SHIPPED_GAP, ShippedWidth), map[])
  }

  const PAIR_WANTED: Levels := map["a" := Visible, "c" := Badge]

  lemma PairWanted(available: u32)
    ensures Wanted(PairInput(available)) == PAIR_WANTED && ByPriority(PairInput(available).widgets) == [FIRST, SECOND]
  {
    TwoAlone(FIRST, SECOND, Shipped(available));
    TwinOrder(FIRST, SECOND);
  }

  lemma TwoAlone(a: WidgetDef, c: WidgetDef, b: Budget)
    ensures Wanted(CascadeInput([a, c], map[], [], None, b, map[])) == map[a.id := a.default][c.id := c.default]
  {
    var levels: Levels := map[a.id := a.default][c.id := c.default];
    SeedTwo(a, c);
    assert Relevance(levels, [], map[]) == levels;
  }

  /** The first widget fits one level lower, and leaves room for the second. */
  lemma FirstShrinks(b: Budget, a: WidgetDef, c: WidgetDef, levels: Levels)
    requires a.id != c.id && a.id in levels && c.id in levels && levels[a.id] == Visible && levels[c.id] == Badge
    requires b.width(a.id, Visible) > b.available >= b.width(a.id, Compact) + b.width(c.id, Badge) + b.gap
    ensures Place(b, [a, c], levels).levels == levels[a.id := Compact]
  {
    var start, demoted := Placement(levels, 0, 0), levels[a.id := Compact];
    PlaceTwo(b, a, c, levels);
    PlaceDemoted(b, start, a);
    PlaceFitting(b, start.(levels := demoted), a);
    PlaceFitting(b, Placement(demoted, b.width(a.id, Compact), 1), c);
  }

  /** The first widget fits as wanted, and leaves no room for the second. */
  lemma SecondHides(b: Budget, a: WidgetDef, c: WidgetDef, levels: Levels)
    requires a.id != c.id && a.id in levels && c.id in levels && levels[a.id] == Visible && levels[c.id] == Badge
    requires b.width(a.id, Visible) <= b.available < b.width(a.id, Visible) + b.width(c.id, Badge) + b.gap <= U32_MAX
    ensures Place(b, [a, c], levels).levels == levels[c.id := Hidden]
  {
    PlaceTwo(b, a, c, levels);
    PlaceFitting(b, Placement(levels, 0, 0), a);
    PlaceDemoted(b, Placement(levels, b.width(a.id, Visible), 1), c);
  }

  lemma PairResolves(available: u32, placed: Levels)
    requires Place(PairInput(available).budget, [FIRST, SECOND], PAIR_WANTED).levels == placed
    ensures Resolve(PairInput(available)).prominences == placed
  {
    var input := PairInput(available);
    PairWanted(available);
    assert Placed(input).levels == placed;
    assert Overlay(placed, map[]) == placed;
  }

  lemma NarrowPair()
    ensures Place(PairInput(120).budget, [FIRST, SECOND], PAIR_WANTED).levels == PAIR_WANTED["a" := Compact]
  {
    FirstShrinks(PairInput(120).budget, FIRST, SECOND, PAIR_WANTED);
  }

  lemma WidePair()
    ensures Place(PairInput(160).budget, [FIRST, SECOND], PAIR_WANTED).levels == PAIR_WANTED["c" := Hidden]
  {
    SecondHides(PairInput(160).budget, FIRST, SECOND, PAIR_WANTED);
  }

  /** With the shipped widths and gap: 120 pixels show both widgets, 160 hide the second. */
  lemma {:induction false} WideningCanHideAWidget()
    ensures Resolve(PairInput(120)).prominences == PAIR_WANTED["a" := Compact]
    ensures Resolve(PairInput(160)).prominences == PAIR_WANTED["c" := Hidden]
  {
    NarrowPair();
    PairResolves(120, PAIR_WANTED["a" := Compact]);
    WidePair();
    PairResolves(160, PAIR_WANTED["c" := Hidden]);
  }
}
