/** When a wider bar is better for every single widget. */
module CascadeWidening {
  import opened Prelude
  import opened Prominences
  import opened Cascade
  import opened CascadeSpace

  /** The level widget `id` is placed at under budget `b`. */
  function PlacedLevel(input: CascadeInput, b: Budget, id: string): Prominence {
    LevelOf(Placed(input.(budget := b)).levels, id)
  }

  /** Widening a bar never costs any widget a level, whatever the widths, the gap and the two bars. */
  ghost predicate WideningNeverHurts(input: CascadeInput) {
    forall b: Budget, wider: u32, w | b.available <= wider && w in input.widgets ::
      PlacedLevel(input, b.(available := wider), w.id).Rank() >= PlacedLevel(input, b, w.id).Rank()
  }

  lemma PlacedBy(input: CascadeInput, b: Budget, id: string)
    ensures PlacedLevel(input, b, id) == LevelOf(Place(b, ByPriority(input.widgets), Wanted(input)).levels, id)
  {
    assert Wanted(input.(budget := b)) == Wanted(input);
  }

  ghost predicate AtMostOneWanted(input: CascadeInput) {
    forall v, w | v in input.widgets && w in input.widgets
                  && Shown(Wanted(input), v.id) && Shown(Wanted(input), w.id) :: v.id == w.id
  }

  lemma OrderIndex(ws: seq<WidgetDef>, w: WidgetDef) returns (i: nat)
    requires w in ws
    ensures i < |ByPriority(ws)| && ByPriority(ws)[i] == w
  {
    assert w in multiset(ws);
    assert w in multiset(ByPriority(ws));
    i :| 0 <= i < |ByPriority(ws)| && ByPriority(ws)[i] == w;
  }

  // ---------------------------------------------------------------- one widget competes with nobody

  lemma {:induction false} NobodyBefore(b: Budget, order: seq<WidgetDef>, levels: Levels)
    requires DistinctIds(order) && forall i | 0 <= i < |order| :: !Shown(levels, order[i].id)
    ensures Place(b, order, levels).running == 0 && Place(b, order, levels).shown == 0
  {
    if order != [] {
      var n := |order| - 1;
      NobodyBefore(b, order[..n], levels);
      PlacementKeepsOthers(b, order[..n], levels, order[n].id);
    }
  }

  lemma LoneWidgetGains(b: Budget, wider: u32, order: seq<WidgetDef>, levels: Levels, i: nat)
    requires DistinctIds(order) && b.available <= wider && i < |order|
    requires Shown(levels, order[i].id) ==> forall k | 0 <= k < i :: !Shown(levels, order[k].id)
    ensures LevelOf(Place(b.(available := wider), order, levels).levels, order[i].id).Rank()
         >= LevelOf(Place(b, order, levels).levels, order[i].id).Rank()
  {
    var c := b.(available := wider);
    FirstFit(b, order, levels, i);
    FirstFit(c, order, levels, i);
    if Shown(levels, order[i].id) {
      NobodyBefore(b, order[..i], levels);
      NobodyBefore(c, order[..i], levels);
      WiderSettlesHigher(b, wider, 0, 0, order[i].id, LevelOf(levels, order[i].id));
    }
  }

  lemma OneWantedGains(input: CascadeInput, b: Budget, wider: u32, w: WidgetDef)
    requires DistinctIds(input.widgets) && AtMostOneWanted(input) && b.available <= wider && w in input.widgets
    ensures PlacedLevel(input, b.(available := wider), w.id).Rank() >= PlacedLevel(input, b, w.id).Rank()
  {
    var order := ByPriority(input.widgets);
    OrderIsDistinct(input.widgets);
    var i := OrderIndex(input.widgets, w);
    forall k | 0 <= k < i && Shown(Wanted(input), order[k].id) ensures !Shown(Wanted(input), w.id) {
      var a := IndexOf(input.widgets, order, k);
      assert input.widgets[a] in input.widgets && order[k].id != order[i].id;
    }
    LoneWidgetGains(b, wider, order, Wanted(input), i);
    PlacedBy(input, b, w.id);
    PlacedBy(input, b.(available := wider), w.id);
  }

  // ---------------------------------------------------------------- two widgets compete

  /** Two pixels for `first`, one for `second`, and more than either bar for the others. */
  function Rivals(first: string, second: string): (string, Prominence) -> u32 {
    (id, p) => if id == first then 2 else if id == second then 1 else 3
  }

  lemma RivalPrefix(b: Budget, order: seq<WidgetDef>, levels: Levels, n: nat)
    requires DistinctIds(order) && n < |order| && b.gap == 0
    requires forall p: Prominence, q: Prominence :: b.width(order[n].id, p) == b.width(order[n].id, q)
    ensures var running, w := Place(b, order[..n], levels).running, b.width(order[n].id, Hidden);
      Place(b, order[..n + 1], levels).running
        == if Shown(levels, order[n].id) && SatAdd32(running, w) <= b.available then SatAdd32(running, w) else running
  {
    assert order[..n + 1][..n] == order[..n] && order[..n + 1][n] == order[n];
    RivalTurn(b, order[..n], levels, order[n]);
  }

  /** Before its turn comes, the second rival finds the narrow bar empty ... */
  lemma {:induction false} NarrowIsEmpty(order: seq<WidgetDef>, levels: Levels, first: string, second: string, k: nat)
    requires DistinctIds(order) && k <= |order| && first != second && forall n | 0 <= n < k :: order[n].id != second
    ensures Place(Budget(1, 0, Rivals(first, second)), order[..k], levels).running == 0
  {
    if k > 0 {
      NarrowIsEmpty(order, levels, first, second, k - 1);
      RivalPrefix(Budget(1, 0, Rivals(first, second)), order, levels, k - 1);
    }
  }

  /** ... and the wide one full. */
  lemma {:induction false} WideIsFull(order: seq<WidgetDef>, levels: Levels, i: nat, second: string, k: nat)
    requires DistinctIds(order) && i < |order| && k <= |order| && Shown(levels, order[i].id)
    requires order[i].id != second && forall n | 0 <= n < k :: order[n].id != second
    ensures Place(Budget(2, 0, Rivals(order[i].id, second)), order[..k], levels).running == if i < k then 2 else 0
  {
    if k > 0 {
      WideIsFull(order, levels, i, second, k - 1);
      RivalPrefix(Budget(2, 0, Rivals(order[i].id, second)), order, levels, k - 1);
    }
  }

  /** A widget with one width at all levels is shown as wanted, or not at all. */
  lemma RivalTurn(b: Budget, before: seq<WidgetDef>, levels: Levels, w: WidgetDef)
    requires forall i | 0 <= i < |before| :: before[i].id != w.id
    requires forall p: Prominence, q: Prominence :: b.width(w.id, p) == b.width(w.id, q)
    ensures var at, next := Place(b, before, levels), PlaceOne(b, Place(b, before, levels), w);
      var wanted := LevelOf(levels, w.id);
      if Shown(levels, w.id) && Fits(b, at.running, at.shown, w.id, wanted) then
        next.running == Extended(b, at.running, at.shown, w.id, wanted) && next.shown == at.shown + 1
        && LevelOf(next.levels, w.id) == wanted
      else
        next.running == at.running && next.shown == at.shown && LevelOf(next.levels, w.id) == Hidden
  {
    PlacementKeepsOthers(b, before, levels, w.id);
    PlaceOneSettles(b, Place(b, before, levels), w);
  }

  /** The level at one's turn is the final one. */
  lemma TurnIsFinal(b: Budget, order: seq<WidgetDef>, levels: Levels, j: nat)
    requires DistinctIds(order) && j < |order|
    ensures LevelOf(Place(b, order, levels).levels, order[j].id)
         == LevelOf(PlaceOne(b, Place(b, order[..j], levels), order[j]).levels, order[j].id)
  {
    FirstFit(b, order, levels, j);
    PlacementKeepsOthers(b, order[..j], levels, order[j].id);
    PlaceOneSettles(b, Place(b, order[..j], levels), order[j]);
  }

  lemma SecondRivalShown(order: seq<WidgetDef>, levels: Levels, i: nat, j: nat, b: Budget)
    requires DistinctIds(order) && i < j < |order| && b == Budget(1, 0, Rivals(order[i].id, order[j].id))
    requires Shown(levels, order[j].id)
    ensures LevelOf(Place(b, order, levels).levels, order[j].id) == LevelOf(levels, order[j].id)
  {
    NarrowIsEmpty(order, levels, order[i].id, order[j].id, j);
    RivalTurn(b, order[..j], levels, order[j]);
    TurnIsFinal(b, order, levels, j);
  }

  lemma SecondRivalHidden(order: seq<WidgetDef>, levels: Levels, i: nat, j: nat, b: Budget)
    requires DistinctIds(order) && i < j < |order| && b == Budget(2, 0, Rivals(order[i].id, order[j].id))
    requires Shown(levels, order[i].id)
    ensures LevelOf(Place(b, order, levels).levels, order[j].id) == Hidden
  {
    WideIsFull(order, levels, i, order[j].id, j);
    RivalTurn(b, order[..j], levels, order[j]);
    TurnIsFinal(b, order, levels, j);
  }

  /** On a bar of one pixel the second rival is shown, on one of two pixels it gives way to the first. */
  lemma SecondRivalLoses(b: Budget, order: seq<WidgetDef>, levels: Levels, i: nat, j: nat)
    requires DistinctIds(order) && i < j < |order| && b == Budget(1, 0, Rivals(order[i].id, order[j].id))
    requires Shown(levels, order[i].id) && Shown(levels, order[j].id)
    ensures LevelOf(Place(b.(available := 2), order, levels).levels, order[j].id).Rank()
         < LevelOf(Place(b, order, levels).levels, order[j].id).Rank()
  {
    SecondRivalShown(order, levels, i, j, b);
    SecondRivalHidden(order, levels, i, j, b.(available := 2));
  }

  lemma RivalsCompete(input: CascadeInput, i: nat, j: nat, b: Budget)
    requires DistinctIds(ByPriority(input.widgets)) && i < j < |ByPriority(input.widgets)|
    requires b == Budget(1, 0, Rivals(ByPriority(input.widgets)[i].id, ByPriority(input.widgets)[j].id))
    requires Shown(Wanted(input), ByPriority(input.widgets)[i].id)
      && Shown(Wanted(input), ByPriority(input.widgets)[j].id)
    ensures var id := ByPriority(input.widgets)[j].id;
      PlacedLevel(input, b.(available := 2), id).Rank() < PlacedLevel(input, b, id).Rank()
  {
    var order := ByPriority(input.widgets);
    SecondRivalLoses(b, order, Wanted(input), i, j);
    PlacedBy(input, b, order[j].id);
    PlacedBy(input, b.(available := 2), order[j].id);
  }

  lemma RivalsInOrder(input: CascadeInput, v: WidgetDef, w: WidgetDef) returns (b: Budget)
    requires DistinctIds(input.widgets) && v in input.widgets && w in input.widgets && Before(v, w)
    requires Shown(Wanted(input), v.id) && Shown(Wanted(input), w.id)
    ensures b.available <= 2 && PlacedLevel(input, b.(available := 2), w.id).Rank() < PlacedLevel(input, b, w.id).Rank()
  {
    var i := OrderIndex(input.widgets, v);
    var j := OrderIndex(input.widgets, w);
    BeforeAsymmetric(v, w);
    OrderIsDistinct(input.widgets);
    b := Budget(1, 0, Rivals(v.id, w.id));
    RivalsCompete(input, i, j, b);
  }

  lemma TwoWantedLose(input: CascadeInput, v: WidgetDef, w: WidgetDef)
    requires DistinctIds(input.widgets) && v in input.widgets && w in input.widgets && v.id != w.id
    requires Shown(Wanted(input), v.id) && Shown(Wanted(input), w.id)
    ensures !WideningNeverHurts(input)
  {
    BeforeConnected(v, w);
    if Before(v, w) {
      var b := RivalsInOrder(input, v, w);
    } else {
      var b := RivalsInOrder(input, w, v);
    }
  }

  // ---------------------------------------------------------------- exactly when

  /** Widening is better for every widget, for all bars and widths, exactly when at most one widget is
      wanted on the bar at all: any two can be made to compete. */
  lemma {:induction false} WideningNeverHurtsIff(input: CascadeInput)
    requires DistinctIds(input.widgets)
    ensures WideningNeverHurts(input) <==> AtMostOneWanted(input)
  {
    if AtMostOneWanted(input) {
      forall b: Budget, wider: u32, w | b.available <= wider && w in input.widgets
        ensures PlacedLevel(input, b.(available := wider), w.id).Rank() >= PlacedLevel(input, b, w.id).Rank()
      {
        OneWantedGains(input, b, wider, w);
      }
    } else {
      var v, w :| v in input.widgets && w in input.widgets
                  && Shown(Wanted(input), v.id) && Shown(Wanted(input), w.id) && v.id != w.id;
      TwoWantedLose(input, v, w);
    }
  }

  /** The level `id` ends at once the user's overrides are applied. */
  function FinalLevel(input: CascadeInput, b: Budget, id: string): Prominence {
    LevelOf(Resolve(input.(budget := b)).prominences, id)
  }

  lemma FinalBy(input: CascadeInput, b: Budget, w: WidgetDef)
    requires w in input.widgets
    ensures FinalLevel(input, b, w.id)
         == if w.id in input.userOverrides then input.userOverrides[w.id] else PlacedLevel(input, b, w.id)
  {
    PlacedKeys(input.(budget := b));
  }

  ghost predicate WideningNeverHurtsLayout(input: CascadeInput) {
    forall b: Budget, wider: u32, w | b.available <= wider && w in input.widgets ::
      FinalLevel(input, b.(available := wider), w.id).Rank() >= FinalLevel(input, b, w.id).Rank()
  }

  /** Of the widgets wanted on the bar, all but the first in priority order have a user override. */
  ghost predicate AllButFirstPinned(input: CascadeInput) {
    forall v, w | v in input.widgets && w in input.widgets && Before(v, w)
                  && Shown(Wanted(input), v.id) && Shown(Wanted(input), w.id) :: w.id in input.userOverrides
  }

  lemma UnpinnedGains(input: CascadeInput, b: Budget, wider: u32, w: WidgetDef)
    requires DistinctIds(input.widgets) && AllButFirstPinned(input) && b.available <= wider
    requires w in input.widgets && w.id !in input.userOverrides
    ensures PlacedLevel(input, b.(available := wider), w.id).Rank() >= PlacedLevel(input, b, w.id).Rank()
  {
    var order := ByPriority(input.widgets);
    OrderIsDistinct(input.widgets);
    var i := OrderIndex(input.widgets, w);
    forall k | 0 <= k < i && Shown(Wanted(input), order[k].id) ensures !Shown(Wanted(input), w.id) {
      var a := IndexOf(input.widgets, order, k);
      assert input.widgets[a] in input.widgets && order[k].id != order[i].id;
      BeforeConnected(order[k], order[i]);
    }
    LoneWidgetGains(b, wider, order, Wanted(input), i);
    PlacedBy(input, b, w.id);
    PlacedBy(input, b.(available := wider), w.id);
  }

  /** With the overrides applied: exactly when all wanted widgets but the first are overridden. */
  lemma {:induction false} WideningNeverHurtsLayoutIff(input: CascadeInput)
    requires DistinctIds(input.widgets)
    ensures WideningNeverHurtsLayout(input) <==> AllButFirstPinned(input)
  {
    if AllButFirstPinned(input) {
      forall b: Budget, wider: u32, w | b.available <= wider && w in input.widgets
        ensures FinalLevel(input, b.(available := wider), w.id).Rank() >= FinalLevel(input, b, w.id).Rank()
      {
        PinnedGains(input, b, wider, w);
      }
    } else {
      var v, w :| v in input.widgets && w in input.widgets && Before(v, w) && w.id !in input.userOverrides
                  && Shown(Wanted(input), v.id) && Shown(Wanted(input), w.id);
      UnpinnedLoses(input, v, w);
    }
  }

  lemma PinnedGains(input: CascadeInput, b: Budget, wider: u32, w: WidgetDef)
    requires DistinctIds(input.widgets) && AllButFirstPinned(input) && b.available <= wider && w in input.widgets
    ensures FinalLevel(input, b.(available := wider), w.id).Rank() >= FinalLevel(input, b, w.id).Rank()
  {
    FinalBy(input, b, w);
    FinalBy(input, b.(available := wider), w);
    if w.id !in input.userOverrides { UnpinnedGains(input, b, wider, w); }
  }

  lemma UnpinnedLoses(input: CascadeInput, v: WidgetDef, w: WidgetDef)
    requires DistinctIds(input.widgets) && v in input.widgets && w in input.widgets && Before(v, w)
    requires Shown(Wanted(input), v.id) && Shown(Wanted(input), w.id) && w.id !in input.userOverrides
    ensures !WideningNeverHurtsLayout(input)
  {
    var b := RivalsInOrder(input, v, w);
    FinalBy(input, b, w);
    FinalBy(input, b.(available := 2), w);
  }

  // ---------------------------------------------------------------- the layout in dictionary order

  /** The levels of the final layout, highest priority first. */
  function FinalRanks(input: CascadeInput, b: Budget): seq<nat> {
    Ranks(ByPriority(input.widgets), Resolve(input.(budget := b)).prominences)
  }

  ghost predicate WideningNeverWorsens(input: CascadeInput) {
    forall b: Budget, wider: u32 | b.available <= wider ::
      LexAtLeast(FinalRanks(input, b.(available := wider)), FinalRanks(input, b))
  }

  /** Of the widgets wanted on the bar, none with a user override stands before one without. */
  ghost predicate PinnedLast(input: CascadeInput) {
    forall v, w | v in input.widgets && w in input.widgets && Before(v, w) && v.id in input.userOverrides
                  && Shown(Wanted(input), v.id) && Shown(Wanted(input), w.id) :: w.id in input.userOverrides
  }

  lemma FinalRankAt(input: CascadeInput, b: Budget, i: nat)
    requires i < |ByPriority(input.widgets)|
    ensures var w := ByPriority(input.widgets)[i];
      FinalRanks(input, b)[i]
        == (if w.id in input.userOverrides then input.userOverrides[w.id] else PlacedLevel(input, b, w.id)).Rank()
  {
    var a := IndexOf(input.widgets, ByPriority(input.widgets), i);
    assert input.widgets[a] in input.widgets;
    FinalBy(input, b, input.widgets[a]);
  }

  lemma PlacedRankAt(input: CascadeInput, b: Budget, i: nat)
    requires DistinctIds(input.widgets) && i < |ByPriority(input.widgets)|
    ensures var w := ByPriority(input.widgets)[i];
      PlacedRanks(input.(budget := b))[i] == PlacedLevel(input, b, w.id).Rank()
      && PlacedLevel(input, b, w.id).Rank() <= LevelOf(Wanted(input), w.id).Rank()
  {
    OrderIsDistinct(input.widgets);
    PlacedBy(input, b, ByPriority(input.widgets)[i].id);
    FirstFit(b, ByPriority(input.widgets), Wanted(input), i);
  }

  function Pins(input: CascadeInput): seq<bool> {
    var order := ByPriority(input.widgets);
    seq(|order|, i requires 0 <= i < |order| => order[i].id in input.userOverrides)
  }

  function Wants(input: CascadeInput): seq<bool> {
    var order := ByPriority(input.widgets);
    seq(|order|, i requires 0 <= i < |order| => Shown(Wanted(input), order[i].id))
  }

  /** `x` and `y` are `p` and `q` with the pinned entries made equal. */
  ghost predicate PinnedOver(pins: seq<bool>, p: seq<nat>, q: seq<nat>, x: seq<nat>, y: seq<nat>) {
    && |pins| == |p| == |q| == |x| == |y|
    && forall i | 0 <= i < |p| :: if pins[i] then x[i] == y[i] else x[i] == p[i] && y[i] == q[i]
  }

  /** Only wanted entries differ from 0. */
  ghost predicate OnlyWanted(wants: seq<bool>, p: seq<nat>) {
    |wants| == |p| && forall i | 0 <= i < |p| && !wants[i] :: p[i] == 0
  }

  /** No pinned wanted entry stands before a wanted one that is not pinned. */
  ghost predicate PinsLast(pins: seq<bool>, wants: seq<bool>) {
    |pins| == |wants| && forall k, i | 0 <= k < i < |pins| && pins[k] && wants[k] && wants[i] :: pins[i]
  }

  lemma PinsKeepOrder(pins: seq<bool>, wants: seq<bool>, p: seq<nat>, q: seq<nat>, x: seq<nat>, y: seq<nat>)
    requires PinnedOver(pins, p, q, x, y) && OnlyWanted(wants, p) && OnlyWanted(wants, q) && PinsLast(pins, wants)
    requires LexAtLeast(p, q)
    ensures LexAtLeast(x, y)
  {
    if p == q {
      assert x == y;
    } else {
      var k :| 0 <= k < |p| && FirstDifference(p, q, k) && p[k] > q[k];
      forall i | 0 <= i < k ensures x[i] == y[i] { assert p[..k][i] == q[..k][i]; }
      if pins[k] {
        assert x == y;
      } else {
        assert FirstDifference(x, y, k);
      }
    }
  }

  lemma PinsAreLast(input: CascadeInput)
    requires DistinctIds(input.widgets) && PinnedLast(input)
    ensures PinsLast(Pins(input), Wants(input))
  {
    var order := ByPriority(input.widgets);
    OrderIsDistinct(input.widgets);
    forall k, i | 0 <= k < i < |order| && Pins(input)[k] && Wants(input)[k] && Wants(input)[i] ensures Pins(input)[i] {
      var x := IndexOf(input.widgets, order, k);
      var y := IndexOf(input.widgets, order, i);
      assert input.widgets[x] in input.widgets && input.widgets[y] in input.widgets;
      BeforeConnected(order[k], order[i]);
    }
  }

  lemma FinalIsPinned(input: CascadeInput, b: Budget, c: Budget)
    requires DistinctIds(input.widgets)
    ensures PinnedOver(Pins(input), PlacedRanks(input.(budget := c)), PlacedRanks(input.(budget := b)),
                       FinalRanks(input, c), FinalRanks(input, b))
  {
    forall i: nat | i < |ByPriority(input.widgets)|
      ensures if Pins(input)[i] then FinalRanks(input, c)[i] == FinalRanks(input, b)[i]
        else FinalRanks(input, c)[i] == PlacedRanks(input.(budget := c))[i]
             && FinalRanks(input, b)[i] == PlacedRanks(input.(budget := b))[i]
    {
      FinalRankAt(input, b, i);
      FinalRankAt(input, c, i);
      PlacedRankAt(input, b, i);
      PlacedRankAt(input, c, i);
    }
  }

  lemma PlacedAreWanted(input: CascadeInput, b: Budget)
    requires DistinctIds(input.widgets)
    ensures OnlyWanted(Wants(input), PlacedRanks(input.(budget := b)))
  {
    forall i: nat | i < |ByPriority(input.widgets)| && !Wants(input)[i]
      ensures PlacedRanks(input.(budget := b))[i] == 0
    {
      PlacedRankAt(input, b, i);
    }
  }

  lemma PinnedLastImproves(input: CascadeInput, b: Budget, wider: u32)
    requires DistinctIds(input.widgets) && PinnedLast(input) && b.available <= wider
    ensures LexAtLeast(FinalRanks(input, b.(available := wider)), FinalRanks(input, b))
  {
    var c := b.(available := wider);
    WiderIsLexicographicallyBetter(input.(budget := b), wider);
    assert input.(budget := b).(budget := c) == input.(budget := c);
    FinalIsPinned(input, b, c);
    PlacedAreWanted(input, b);
    PlacedAreWanted(input, c);
    PinsAreLast(input);
    PinsKeepOrder(Pins(input), Wants(input), PlacedRanks(input.(budget := c)), PlacedRanks(input.(budget := b)),
      FinalRanks(input, c), FinalRanks(input, b));
  }

  /** Everybody but the rivals is too wide for both bars. */
  lemma OthersHidden(order: seq<WidgetDef>, levels: Levels, b: Budget, first: string, second: string, k: nat)
    requires DistinctIds(order) && k < |order| && order[k].id != first && order[k].id != second
    requires b.available <= 2 && b.gap == 0 && b.width == Rivals(first, second)
    ensures LevelOf(Place(b, order, levels).levels, order[k].id) == Hidden
  {
    RivalTurn(b, order[..k], levels, order[k]);
    TurnIsFinal(b, order, levels, k);
  }

  lemma OnlyOneLoses(a: seq<nat>, c: seq<nat>, j: nat)
    requires |a| == |c| && j < |a| && a[j] < c[j] && forall i | 0 <= i < |a| && i != j :: a[i] == c[i]
    ensures !LexAtLeast(a, c)
  {
    forall k | 0 <= k < |a| && FirstDifference(a, c, k) ensures k == j {}
  }

  lemma PinInFrontWorsens(input: CascadeInput, v: WidgetDef, w: WidgetDef)
    requires DistinctIds(input.widgets) && v in input.widgets && w in input.widgets && Before(v, w)
    requires Shown(Wanted(input), v.id) && Shown(Wanted(input), w.id)
    requires v.id in input.userOverrides && w.id !in input.userOverrides
    ensures !WideningNeverWorsens(input)
  {
    var i := OrderIndex(input.widgets, v);
    var j := OrderIndex(input.widgets, w);
    BeforeAsymmetric(v, w);
    OrderIsDistinct(input.widgets);
    var b := Budget(1, 0, Rivals(v.id, w.id));
    RivalsWorsen(input, i, j, b, b.(available := 2));
  }

  lemma RivalsWorsen(input: CascadeInput, i: nat, j: nat, b: Budget, c: Budget)
    requires DistinctIds(ByPriority(input.widgets)) && i < j < |ByPriority(input.widgets)|
    requires Shown(Wanted(input), ByPriority(input.widgets)[i].id)
      && Shown(Wanted(input), ByPriority(input.widgets)[j].id)
    requires ByPriority(input.widgets)[i].id in input.userOverrides
    requires ByPriority(input.widgets)[j].id !in input.userOverrides
    requires b == Budget(1, 0, Rivals(ByPriority(input.widgets)[i].id, ByPriority(input.widgets)[j].id))
    requires c == b.(available := 2)
    ensures !LexAtLeast(FinalRanks(input, c), FinalRanks(input, b))
  {
    RivalDrops(input, i, j, b, c);
    forall k: nat | k < |ByPriority(input.widgets)| && k != j
      ensures FinalRanks(input, b)[k] == FinalRanks(input, c)[k]
    {
      OthersSame(input, i, j, k, b, c);
    }
    OnlyOneLoses(FinalRanks(input, c), FinalRanks(input, b), j);
  }

  lemma RivalDrops(input: CascadeInput, i: nat, j: nat, b: Budget, c: Budget)
    requires DistinctIds(ByPriority(input.widgets)) && i < j < |ByPriority(input.widgets)|
    requires Shown(Wanted(input), ByPriority(input.widgets)[i].id)
      && Shown(Wanted(input), ByPriority(input.widgets)[j].id)
    requires ByPriority(input.widgets)[j].id !in input.userOverrides
    requires b == Budget(1, 0, Rivals(ByPriority(input.widgets)[i].id, ByPriority(input.widgets)[j].id))
    requires c == b.(available := 2)
    ensures FinalRanks(input, c)[j] < FinalRanks(input, b)[j]
  {
    RivalsCompete(input, i, j, b);
    FinalRankAt(input, b, j);
    FinalRankAt(input, c, j);
  }

  lemma OthersSame(input: CascadeInput, i: nat, j: nat, k: nat, b: Budget, c: Budget)
    requires DistinctIds(ByPriority(input.widgets)) && i < j < |ByPriority(input.widgets)|
    requires k < |ByPriority(input.widgets)| && k != j && ByPriority(input.widgets)[i].id in input.userOverrides
    requires b == Budget(1, 0, Rivals(ByPriority(input.widgets)[i].id, ByPriority(input.widgets)[j].id))
    requires c == b.(available := 2)
    ensures FinalRanks(input, b)[k] == FinalRanks(input, c)[k]
  {
    var order := ByPriority(input.widgets);
    FinalRankAt(input, b, k);
    FinalRankAt(input, c, k);
    if k != i {
      OthersHidden(order, Wanted(input), b, order[i].id, order[j].id, k);
      OthersHidden(order, Wanted(input), c, order[i].id, order[j].id, k);
      PlacedBy(input, b, order[k].id);
      PlacedBy(input, c, order[k].id);
    }
  }

  /** With the overrides applied, widening improves the layout in dictionary order, for all bars and widths,
      exactly when no overridden wanted widget stands before one without an override. */
  lemma {:induction false} WideningNeverWorsensIff(input: CascadeInput)
    requires DistinctIds(input.widgets)
    ensures WideningNeverWorsens(input) <==> PinnedLast(input)
  {
    if PinnedLast(input) {
      forall b: Budget, wider: u32 | b.available <= wider
        ensures LexAtLeast(FinalRanks(input, b.(available := wider)), FinalRanks(input, b))
      {
        PinnedLastImproves(input, b, wider);
      }
    } else {
      var v, w :| v in input.widgets && w in input.widgets && Before(v, w) && v.id in input.userOverrides
                  && Shown(Wanted(input), v.id) && Shown(Wanted(input), w.id) && w.id !in input.userOverrides;
      PinInFrontWorsens(input, v, w);
    }
  }
}
