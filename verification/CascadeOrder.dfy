/** The layout depends on what the inputs contain, not on the order they are listed in. */
module CascadeOrder {
  import opened Prelude
  import opened Prominences
  import opened Expressions
  import opened Cascade
  import opened CascadeSpace

  // ---------------------------------------------------------------- sorted lists are unique

  lemma SameId(ws: seq<WidgetDef>, i: nat, j: nat)
    requires DistinctIds(ws) && i < |ws| && j < |ws| && ws[i].id == ws[j].id
    ensures i == j
  {
  }

  lemma SameLast(a: seq<WidgetDef>, c: seq<WidgetDef>)
    requires multiset(a) == multiset(c) && InOrder(a) && InOrder(c) && DistinctIds(a) && a != []
    ensures |a| == |c| && a[|a| - 1] == c[|a| - 1]
  {
    assert |multiset(a)| == |a| && |multiset(c)| == |c|;
    var n := |a| - 1;
    var i := IndexOf(c, a, n);
    var j := IndexOf(a, c, n);
    if j != n && i != n {
      BeforeConnected(a[n], c[n]);
      SameId(a, n, j);
    }
  }

  lemma SameFront(a: seq<WidgetDef>, c: seq<WidgetDef>)
    requires a != [] && |a| == |c| && multiset(a) == multiset(c) && a[|a| - 1] == c[|a| - 1]
    ensures multiset(a[..|a| - 1]) == multiset(c[..|a| - 1])
  {
    var n := |a| - 1;
    assert a == a[..n] + [a[n]] && c == c[..n] + [c[n]];
    assert multiset(a[..n]) == multiset(a) - multiset{a[n]};
    assert multiset(c[..n]) == multiset(c) - multiset{c[n]};
  }

  lemma {:induction false} SortedUnique(a: seq<WidgetDef>, c: seq<WidgetDef>)
    requires multiset(a) == multiset(c) && InOrder(a) && InOrder(c) && DistinctIds(a)
    ensures a == c
  {
    if a != [] {
      var n := |a| - 1;
      SameLast(a, c);
      SameFront(a, c);
      SortedUnique(a[..n], c[..n]);
      assert a == a[..n] + [a[n]] && c == c[..n] + [c[n]];
    } else {
      assert |multiset(c)| == 0;
    }
  }

  /** Lists without repeated ids and with the same members are permutations of each other. */
  lemma SameMembers(a: seq<WidgetDef>, c: seq<WidgetDef>)
    requires DistinctIds(a) && DistinctIds(c) && forall w :: w in a <==> w in c
    ensures multiset(a) == multiset(c)
  {
    forall w ensures multiset(a)[w] == multiset(c)[w] {
      if w in a {
        var i :| 0 <= i < |a| && a[i] == w;
        assert w in c;
        var j :| 0 <= j < |c| && c[j] == w;
        CountOnce(a, i);
        CountOnce(c, j);
      } else {
        assert multiset(a)[w] == 0 && multiset(c)[w] == 0;
      }
    }
  }

  lemma Members(a: seq<WidgetDef>, c: seq<WidgetDef>)
    requires multiset(a) == multiset(c)
    ensures forall w :: w in a <==> w in c
  {
    forall w ensures w in a <==> w in c {
      assert w in multiset(a) <==> w in multiset(c);
    }
  }

  // ---------------------------------------------------------------- order independence

  lemma {:induction false} SeedAt(ws: seq<WidgetDef>, w: WidgetDef)
    requires DistinctIds(ws) && w in ws
    ensures Seed(ws)[w.id] == w.default
  {
    var n := |ws| - 1;
    assert ws == ws[..n] + [ws[n]];
    if w != ws[n] {
      SeedAt(ws[..n], w);
      var i :| 0 <= i < n && ws[i] == w;
    }
  }

  lemma {:induction false} SeedIgnoresOrder(a: seq<WidgetDef>, c: seq<WidgetDef>)
    requires multiset(a) == multiset(c) && DistinctIds(a)
    ensures Seed(a) == Seed(c)
  {
    Members(a, c);
    SubDistinct(c, a);
    forall id | id in Seed(a) ensures Seed(a)[id] == Seed(c)[id] {
      var w :| w in a && w.id == id;
      SeedAt(a, w);
      SeedAt(c, w);
    }
  }

  lemma VoteIgnoresOrder(base: Prominence, id: string, a: seq<CompiledRule>, c: seq<CompiledRule>,
                         signals: SignalContext)
    requires forall r :: r in a <==> r in c
    ensures Vote(base, id, a, signals) == Vote(base, id, c, signals)
  {
    var p, q := Vote(base, id, a, signals), Vote(base, id, c, signals);
    VoteIsHighest(base, id, a, signals);
    VoteIsHighest(base, id, c, signals);
    assert p.Rank() <= q.Rank() && q.Rank() <= p.Rank();
  }

  lemma BarIgnoresOrder(a: seq<WidgetDef>, c: seq<WidgetDef>, levels: Levels, zone: Zone)
    requires multiset(a) == multiset(c) && DistinctIds(a)
    ensures ZoneList(a, levels, zone) == ZoneList(c, levels, zone)
  {
    var x, y := InZone(a, levels, zone), InZone(c, levels, zone);
    InZoneMembers(a, levels, zone);
    InZoneMembers(c, levels, zone);
    Members(a, c);
    SubDistinct(c, a);
    SubDistinct(x, a);
    SubDistinct(y, c);
    SameMembers(x, y);
    OrderIsDistinct(x);
    SortedUnique(ByPriority(x), ByPriority(y));
  }

  lemma RelevanceIgnoresOrder(seed: Levels, a: seq<CompiledRule>, c: seq<CompiledRule>, signals: SignalContext)
    requires forall r :: r in a <==> r in c
    ensures Relevance(seed, a, signals) == Relevance(seed, c, signals)
  {
    forall id | id in seed ensures Vote(seed[id], id, a, signals) == Vote(seed[id], id, c, signals) {
      VoteIgnoresOrder(seed[id], id, a, c, signals);
    }
  }

  /** Permuting the widgets, and permuting or repeating the rules, changes nothing. */
  lemma {:induction false} LayoutIgnoresOrder(input: CascadeInput, widgets: seq<WidgetDef>, rules: seq<CompiledRule>)
    requires DistinctIds(input.widgets) && multiset(widgets) == multiset(input.widgets)
    requires forall r :: r in rules <==> r in input.rules
    ensures Resolve(input) == Resolve(input.(widgets := widgets, rules := rules))
  {
    var other := input.(widgets := widgets, rules := rules);
    SeedIgnoresOrder(input.widgets, widgets);
    RelevanceIgnoresOrder(Seed(widgets), input.rules, rules, input.signals);
    assert Wanted(input) == Wanted(other);
    OrderIsDistinct(input.widgets);
    SortedUnique(ByPriority(input.widgets), ByPriority(widgets));
    assert Placed(input) == Placed(other);
    var levels := Resolve(input).prominences;
    BarIgnoresOrder(input.widgets, widgets, levels, LeftZone);
    BarIgnoresOrder(input.widgets, widgets, levels, CenterZone);
    BarIgnoresOrder(input.widgets, widgets, levels, RightZone);
  }

  // ---------------------------------------------------------------- zones

  function IdSet(ws: seq<WidgetDef>): set<string> {
    set w | w in ws :: w.id
  }

  lemma IdSetAppend(ws: seq<WidgetDef>, w: WidgetDef)
    requires DistinctIds(ws + [w])
    ensures IdSet(ws + [w]) == IdSet(ws) + {w.id} && w.id !in IdSet(ws)
  {
    forall v | v in ws ensures v.id != w.id {
      var i :| 0 <= i < |ws| && ws[i] == v;
      assert (ws + [w])[i] == v && (ws + [w])[|ws|] == w;
    }
  }

  lemma {:induction false} IdsOnce(ws: seq<WidgetDef>)
    requires DistinctIds(ws)
    ensures multiset(Ids(ws)) == multiset(IdSet(ws))
  {
    if ws != [] {
      var n := |ws| - 1;
      IdsOnce(ws[..n]);
      assert ws == ws[..n] + [ws[n]];
      IdSetAppend(ws[..n], ws[n]);
      assert Ids(ws) == Ids(ws[..n]) + [ws[n].id];
    }
  }

  /** `ids` lists widgets of `zone`, highest priority first and then by id. */
  ghost predicate ZoneInOrder(ids: seq<string>, ws: seq<WidgetDef>, zone: Zone) {
    exists ds: seq<WidgetDef> :: Ids(ds) == ids && InOrder(ds) && forall d | d in ds :: d in ws && d.zone == zone
  }

  function ZoneWidgets(ws: seq<WidgetDef>, levels: Levels, zone: Zone): seq<WidgetDef> {
    ByPriority(InZone(ws, levels, zone))
  }

  lemma ZoneContents(ws: seq<WidgetDef>, levels: Levels, zone: Zone)
    requires DistinctIds(ws)
    ensures DistinctIds(ZoneWidgets(ws, levels, zone))
    ensures forall w :: w in ZoneWidgets(ws, levels, zone) <==> w in ws && w.zone == zone && Shown(levels, w.id)
    ensures ZoneInOrder(ZoneList(ws, levels, zone), ws, zone)
  {
    InZoneMembers(ws, levels, zone);
    SubDistinct(InZone(ws, levels, zone), ws);
    OrderIsDistinct(InZone(ws, levels, zone));
    Members(ZoneWidgets(ws, levels, zone), InZone(ws, levels, zone));
  }

  lemma JoinDistinct(a: seq<WidgetDef>, c: seq<WidgetDef>, ws: seq<WidgetDef>)
    requires DistinctIds(a) && DistinctIds(c) && DistinctIds(ws)
    requires forall w | w in a || w in c :: w in ws
    requires forall w | w in a :: w !in c
    ensures DistinctIds(a + c)
  {
    forall i, j | 0 <= i < |a| && 0 <= j < |c| ensures a[i].id != c[j].id {
      assert a[i] in a && c[j] in c;
      var x :| 0 <= x < |ws| && ws[x] == a[i];
      var y :| 0 <= y < |ws| && ws[y] == c[j];
      assert x != y;
    }
  }

  function AllZones(ws: seq<WidgetDef>, levels: Levels): seq<WidgetDef> {
    ZoneWidgets(ws, levels, LeftZone) + ZoneWidgets(ws, levels, CenterZone) + ZoneWidgets(ws, levels, RightZone)
  }

  lemma AllZonesContents(ws: seq<WidgetDef>, levels: Levels)
    requires DistinctIds(ws)
    ensures DistinctIds(AllZones(ws, levels))
    ensures forall w :: w in AllZones(ws, levels) <==> w in ws && Shown(levels, w.id)
  {
    var l, c, r := ZoneWidgets(ws, levels, LeftZone), ZoneWidgets(ws, levels, CenterZone),
      ZoneWidgets(ws, levels, RightZone);
    ZoneContents(ws, levels, LeftZone);
    ZoneContents(ws, levels, CenterZone);
    ZoneContents(ws, levels, RightZone);
    JoinDistinct(l, c, ws);
    JoinDistinct(l + c, r, ws);
  }

  function ShownIds(ws: seq<WidgetDef>, levels: Levels): set<string> {
    set w | w in ws && Shown(levels, w.id) :: w.id
  }

  lemma IdsConcat(a: seq<WidgetDef>, c: seq<WidgetDef>)
    ensures Ids(a + c) == Ids(a) + Ids(c)
  {
  }

  lemma AllZonesIdSet(ws: seq<WidgetDef>, levels: Levels)
    requires DistinctIds(ws)
    ensures IdSet(AllZones(ws, levels)) == ShownIds(ws, levels)
  {
    AllZonesContents(ws, levels);
    var all := AllZones(ws, levels);
    assert forall w :: w in all <==> w in ws && Shown(levels, w.id);
  }

  lemma AllZonesIds(ws: seq<WidgetDef>, levels: Levels)
    requires DistinctIds(ws)
    ensures var bar := Bar(ws, levels);
      multiset(bar.left + bar.center + bar.right) == multiset(ShownIds(ws, levels))
  {
    var l, c, r := ZoneWidgets(ws, levels, LeftZone), ZoneWidgets(ws, levels, CenterZone),
      ZoneWidgets(ws, levels, RightZone);
    AllZonesContents(ws, levels);
    IdsOnce(AllZones(ws, levels));
    IdsConcat(l, c);
    IdsConcat(l + c, r);
    AllZonesIdSet(ws, levels);
  }

  /** The three zones list every shown widget exactly once and no hidden one, each zone in order. */
  lemma {:induction false} ZonesListShownWidgetsOnce(input: CascadeInput)
    requires DistinctIds(input.widgets)
    ensures var Layout(levels, bar) := Resolve(input);
      && multiset(bar.left + bar.center + bar.right) == multiset(ShownIds(input.widgets, levels))
      && ZoneInOrder(bar.left, input.widgets, LeftZone)
      && ZoneInOrder(bar.center, input.widgets, CenterZone)
      && ZoneInOrder(bar.right, input.widgets, RightZone)
  {
    var ws, levels := input.widgets, Resolve(input).prominences;
    AllZonesIds(ws, levels);
    ZoneContents(ws, levels, LeftZone);
    ZoneContents(ws, levels, CenterZone);
    ZoneContents(ws, levels, RightZone);
  }

  // ---------------------------------------------------------------- adding a widget

  lemma {:induction false} PlacementIsLocal(b: Budget, order: seq<WidgetDef>, l: Levels, m: Levels)
    requires DistinctIds(order) && SameLevels(order, l, m)
    ensures Place(b, order, l).running == Place(b, order, m).running
    ensures Place(b, order, l).shown == Place(b, order, m).shown
  {
    if order != [] {
      var n := |order| - 1;
      PlacementIsLocal(b, order[..n], l, m);
      PlacementKeepsOthers(b, order[..n], l, order[n].id);
      PlacementKeepsOthers(b, order[..n], m, order[n].id);
    }
  }

  lemma SplitSlices(ws: seq<WidgetDef>, w: WidgetDef, k: nat)
    requires k < |ws|
    ensures var n := |ws| - 1; ws[..n][..k] + [w] + ws[..n][k..] + [ws[n]] == ws[..k] + [w] + ws[k..]
  {
  }

  /** Insertion splits an ordered list; whatever must precede `w` is in front of the split. */
  lemma {:induction false} InsertSplits(w: WidgetDef, ws: seq<WidgetDef>) returns (k: nat)
    requires InOrder(ws)
    ensures k <= |ws| && Insert(w, ws) == ws[..k] + [w] + ws[k..]
    ensures forall i | k <= i < |ws| :: !Before(ws[i], w)
  {
    k := |ws|;
    if ws != [] {
      var n := |ws| - 1;
      if Before(w, ws[n]) {
        k := InsertSplits(w, ws[..n]);
        BeforeAsymmetric(w, ws[n]);
        SplitSlices(ws, w, k);
      }
    }
  }

  lemma WantedExtends(input: CascadeInput, w: WidgetDef)
    requires w.id !in Ids(input.widgets)
    ensures forall id | id in Wanted(input) ::
      id in Wanted(input.(widgets := input.widgets + [w]))
      && Wanted(input.(widgets := input.widgets + [w]))[id] == Wanted(input)[id]
  {
    var ws := input.widgets;
    assert (ws + [w])[..|ws|] == ws;
    assert Seed(ws + [w]) == Seed(ws)[w.id := w.default];
    forall id | id in Seed(ws) ensures id != w.id {
      var v :| v in ws && v.id == id;
      var i :| 0 <= i < |ws| && ws[i] == v;
      assert Ids(ws)[i] == id;
    }
  }

  /** Two orders with the same front, and level maps that agree there, settle the front alike. */
  lemma {:induction false} FrontSettlesAlike(b: Budget, o: seq<WidgetDef>, p: seq<WidgetDef>, l: Levels, m: Levels,
                                             j: nat)
    requires DistinctIds(o) && DistinctIds(p) && j < |o| && j < |p| && o[..j + 1] == p[..j + 1]
    requires SameLevels(o, l, m)
    ensures LevelOf(Place(b, o, l).levels, o[j].id) == LevelOf(Place(b, p, m).levels, o[j].id)
  {
    assert o[j] == o[..j + 1][j] == p[j] && o[..j] == o[..j + 1][..j] == p[..j];
    PlacementIsLocal(b, o[..j], l, m);
    FirstFit(b, o, l, j);
    FirstFit(b, p, m, j);
  }

  lemma InsertKeepsFront(w: WidgetDef, ws: seq<WidgetDef>, j: nat)
    requires InOrder(ws) && j < |ws| && Before(ws[j], w)
    ensures j < |Insert(w, ws)| && Insert(w, ws)[..j + 1] == ws[..j + 1]
  {
    var k := InsertSplits(w, ws);
    assert j < k;
  }

  lemma OverlayLevel(levels: Levels, overrides: Levels, id: string)
    ensures LevelOf(Overlay(levels, overrides), id)
      == if id in levels && id in overrides then overrides[id] else LevelOf(levels, id)
  {
  }

  /** A new widget never changes the level of a widget ahead of it in priority order, wherever it is
      listed and whatever rules, profile or overrides are in force. */
  lemma {:induction false} AddedWidgetYields(input: CascadeInput, w: WidgetDef, widgets: seq<WidgetDef>, i: nat)
    requires DistinctIds(input.widgets) && w.id !in Ids(input.widgets)
    requires multiset(widgets) == multiset(input.widgets + [w])
    requires i < |input.widgets| && Before(input.widgets[i], w)
    ensures var id := input.widgets[i].id;
      LevelOf(Resolve(input.(widgets := widgets)).prominences, id) == LevelOf(Resolve(input).prominences, id)
  {
    var last := input.(widgets := input.widgets + [w]);
    AppendDistinct(input.widgets, w);
    LayoutIgnoresOrder(last, widgets, input.rules);
    assert last.(widgets := widgets, rules := input.rules) == input.(widgets := widgets);
    LastWidgetYields(input, w, i);
  }

  lemma {:induction false} LastWidgetYields(input: CascadeInput, w: WidgetDef, i: nat)
    requires DistinctIds(input.widgets) && w.id !in Ids(input.widgets)
    requires i < |input.widgets| && Before(input.widgets[i], w)
    ensures var id := input.widgets[i].id;
      LevelOf(Resolve(input.(widgets := input.widgets + [w])).prominences, id)
        == LevelOf(Resolve(input).prominences, id)
  {
    var more, ws := input.(widgets := input.widgets + [w]), input.widgets;
    var order := ByPriority(ws);
    assert (ws + [w])[..|ws|] == ws;
    assert ByPriority(ws + [w]) == Insert(w, order);
    var j := IndexOf(order, ws, i);
    InsertKeepsFront(w, order, j);
    AddedAgrees(input, w);
    AppendDistinct(ws, w);
    OrderIsDistinct(ws);
    OrderIsDistinct(ws + [w]);
    FrontSettlesAlike(input.budget, order, Insert(w, order), Wanted(input), Wanted(more), j);
    PlacedKeys(input);
    PlacedKeys(more);
    assert ws[i] in ws && ws[i] in more.widgets;
    OverlayLevel(Placed(input).levels, input.userOverrides, ws[i].id);
    OverlayLevel(Placed(more).levels, input.userOverrides, ws[i].id);
  }

  lemma AddedAgrees(input: CascadeInput, w: WidgetDef)
    requires w.id !in Ids(input.widgets)
    ensures SameLevels(ByPriority(input.widgets), Wanted(input), Wanted(input.(widgets := input.widgets + [w])))
  {
    WantedExtends(input, w);
    OrderKnown(input);
  }

  lemma AppendDistinct(ws: seq<WidgetDef>, w: WidgetDef)
    requires DistinctIds(ws) && w.id !in Ids(ws)
    ensures DistinctIds(ws + [w])
  {
    forall i | 0 <= i < |ws| ensures ws[i].id != w.id { assert Ids(ws)[i] == ws[i].id; }
  }

  lemma OrderKnown(input: CascadeInput)
    ensures forall i | 0 <= i < |ByPriority(input.widgets)| :: ByPriority(input.widgets)[i].id in Wanted(input)
  {
    var order := ByPriority(input.widgets);
    forall i | 0 <= i < |order| ensures order[i].id in Wanted(input) {
      var a := IndexOf(input.widgets, order, i);
      assert input.widgets[a] in input.widgets;
    }
  }
}
