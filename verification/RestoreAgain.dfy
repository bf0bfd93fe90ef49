/** Restoring a second time, after the moves of the first. */
module RestoreAgain {
  import opened Prelude
  import opened SwayTree
  import opened Restore
  import opened RestoreMatching

  /** The live windows once the moves are carried out, listed in the same order. */
  function Moved(live: seq<LiveWindow>, moves: seq<MoveAction>): seq<LiveWindow> {
    seq(|live|, i requires 0 <= i < |live| =>
      live[i].(workspace := SpaceAfter(moves, live[i].conId, live[i].workspace)))
  }

  // ---------------------------------------------------------------- drifted titles

  function Relocated(live: seq<LiveWindow>, i: nat, ws: string): seq<LiveWindow>
    requires i < |live|
  {
    live[i := live[i].(workspace := ws)]
  }

  /** Relocating one window takes it out of the groups it was in and puts it in those it comes to. */
  lemma {:induction false} RelocateCounts(g: Group, live: seq<LiveWindow>, consumed: set<int>, i: nat, ws: string)
    requires i < |live|
    ensures var w := live[i]; var there := w.conId !in consumed;
      CountFree(g, Relocated(live, i, ws), consumed) + (if there && g.Has(w.appId, w.workspace) then 1 else 0)
        == CountFree(g, live, consumed) + (if there && g.Has(w.appId, ws) then 1 else 0)
  {
    var n := |live| - 1;
    if i < n {
      RelocateCounts(g, live[..n], consumed, i, ws);
      assert Relocated(live, i, ws)[..n] == Relocated(live[..n], i, ws);
    } else {
      assert Relocated(live, i, ws)[..n] == live[..n];
    }
  }

  /** Planning one more window relocates the window it is given. */
  lemma MovedStep(at: Progress, saved: WindowSnapshot, live: seq<LiveWindow>, i: nat)
    requires DistinctConIds(live) && Best(saved, live, at.consumed) == Some(i)
    requires forall m | 0 <= m < |at.plan.moves| :: at.plan.moves[m].conId in at.consumed
    ensures i < |live|
    ensures Moved(live, PlanOne(at, saved, live).plan.moves)
      == Relocated(Moved(live, at.plan.moves), i, saved.workspace)
  {
    forall j | 0 <= j < |live|
      ensures Moved(live, PlanOne(at, saved, live).plan.moves)[j]
        == Relocated(Moved(live, at.plan.moves), i, saved.workspace)[j]
    {
      PlanOneSpace(at, saved, live, j);
    }
  }

  /** Every app has at least as many live windows as were saved. */
  ghost predicate EnoughPerApp(windows: seq<WindowSnapshot>, live: seq<LiveWindow>) {
    forall app :: CountSaved(Group(app, None), windows) <= CountLive(Group(app, None), live)
  }

  /** Then every saved window is given one. */
  lemma AlwaysAMatch(windows: seq<WindowSnapshot>, focused: Option<string>, live: seq<LiveWindow>, n: nat)
    requires DistinctConIds(live) && EnoughPerApp(windows, live) && n < |windows|
    ensures Best(windows[n], live, PlanAll(windows[..n], focused, live).consumed).Some?
  {
    var g, at := Group(windows[n].appId, None), PlanAll(windows[..n], focused, live);
    AppAccount(windows[..n], focused, live, windows[n].appId);
    CountSavedGrows(g, windows, n);
    assert CountSaved(g, windows) <= CountLive(g, live);
    var i := FreeExists(g, live, at.consumed);
    assert Usable(windows[n], at.consumed, live[i]);
  }

  /** The windows given so far stand where they were saved; the others are still free. */
  ghost predicate Seated(g: Group, windows: seq<WindowSnapshot>, live: seq<LiveWindow>, consumed: set<int>) {
    CountSaved(g, windows) + CountFree(g, live, consumed) == CountLive(g, live)
  }

  lemma SeatOne(g: Group, windows: seq<WindowSnapshot>, saved: WindowSnapshot, live: seq<LiveWindow>,
                consumed: set<int>, i: nat)
    requires DistinctConIds(live) && i < |live| && live[i].appId == saved.appId && live[i].conId !in consumed
    requires Seated(g, windows, live, consumed)
    ensures Seated(g, windows + [saved], Relocated(live, i, saved.workspace), consumed + {live[i].conId})
  {
    assert (windows + [saved])[..|windows|] == windows;
    RelocateCounts(g, live, consumed + {live[i].conId}, i, saved.workspace);
    RelocateCounts(g, live, {}, i, saved.workspace);
    TakeOne(g, live, consumed, i);
  }

  lemma MovedIsDistinct(live: seq<LiveWindow>, moves: seq<MoveAction>)
    requires DistinctConIds(live)
    ensures DistinctConIds(Moved(live, moves))
  {
  }

  lemma NothingMoved(live: seq<LiveWindow>)
    ensures Moved(live, []) == live
  {
  }

  lemma {:induction false} AllSeated(windows: seq<WindowSnapshot>, focused: Option<string>, live: seq<LiveWindow>,
                                     n: nat, g: Group)
    requires DistinctConIds(live) && EnoughPerApp(windows, live) && n <= |windows|
    ensures var at := PlanAll(windows[..n], focused, live);
      Seated(g, windows[..n], Moved(live, at.plan.moves), at.consumed)
  {
    if n == 0 {
      NothingMoved(live);
    } else {
      var k := n - 1;
      AllSeated(windows, focused, live, k, g);
      AlwaysAMatch(windows, focused, live, k);
      MovesAreTaken(windows[..k], focused, live);
      assert windows[..n][..k] == windows[..k] && windows[..n] == windows[..k] + [windows[k]];
      var at := PlanAll(windows[..k], focused, live);
      var i := Best(windows[k], live, at.consumed).value;
      MovedStep(at, windows[k], live, i);
      MovedIsDistinct(live, at.plan.moves);
      SeatOne(g, windows[..k], windows[k], Moved(live, at.plan.moves), at.consumed, i);
    }
  }

  /** The order windows are listed in does not change how many there are in a group. */
  lemma {:induction false} CountRelisted(g: Group, a: seq<LiveWindow>, b: seq<LiveWindow>)
    requires multiset(a) == multiset(b)
    ensures CountLive(g, a) == CountLive(g, b)
  {
    if a == [] {
      assert b == [] by { assert |multiset(b)| == 0; }
    } else {
      var n := |a| - 1;
      assert a[n] in multiset(b);
      var i :| 0 <= i < |b| && b[i] == a[n];
      WithoutOne(a, n);
      WithoutOne(b, i);
      assert a[..n] + a[n + 1..] == a[..n];
      CountRelisted(g, a[..n], b[..i] + b[i + 1..]);
      CountWithout(g, b, i);
    }
  }

  lemma {:induction false} CountWithout(g: Group, b: seq<LiveWindow>, i: nat)
    requires i < |b|
    ensures CountLive(g, b) == CountLive(g, b[..i] + b[i + 1..]) + if g.Has(b[i].appId, b[i].workspace) then 1 else 0
  {
    var n := |b| - 1;
    if i < n {
      CountWithout(g, b[..n], i);
      assert (b[..i] + b[i + 1..])[..n - 1] == b[..n][..i] + b[..n][i + 1..];
    } else {
      assert b[..i] + b[i + 1..] == b[..n];
    }
  }

  lemma RelistedIsDistinct(a: seq<LiveWindow>, b: seq<LiveWindow>)
    requires DistinctConIds(a) && multiset(a) == multiset(b)
    ensures DistinctConIds(b)
  {
    forall i, j | 0 <= i < j < |b| ensures b[i].conId != b[j].conId {
      assert b[i] in multiset(a) && b[j] in multiset(a);
      var k :| 0 <= k < |a| && a[k] == b[i];
      var l :| 0 <= l < |a| && a[l] == b[j];
      if k == l {
        CountTwice(b, i, j);
        forall m | 0 <= m < |a| && m != k ensures a[m] != a[k] { assert a[m].conId != a[k].conId; }
        CountOnce(a, k);
      }
    }
  }

  lemma RelistedDrifted(windows: seq<WindowSnapshot>, live: seq<LiveWindow>, moves: seq<MoveAction>,
                        listed: seq<LiveWindow>)
    requires TitlesDrifted(windows, live) && multiset(listed) == multiset(Moved(live, moves))
    ensures TitlesDrifted(windows, listed)
  {
    forall k, i | 0 <= k < |windows| && 0 <= i < |listed| && windows[k].appId == listed[i].appId
      ensures windows[k].title != listed[i].title
    {
      assert listed[i] in multiset(Moved(live, moves));
      var j :| 0 <= j < |live| && Moved(live, moves)[j] == listed[i];
      assert live[j].appId == listed[i].appId && live[j].title == listed[i].title;
    }
  }

  /** When no title survived and every app has enough windows, one restore settles the desktop: planning
      again after its moves does nothing, in whatever order the windows are listed by then. */
  lemma {:induction false} DriftedRestoreSettles(windows: seq<WindowSnapshot>, focused: Option<string>,
                                                 live: seq<LiveWindow>, listed: seq<LiveWindow>)
    requires DistinctConIds(live) && TitlesDrifted(windows, live) && EnoughPerApp(windows, live)
    requires multiset(listed) == multiset(Moved(live, PlanAll(windows, focused, live).plan.moves))
    ensures PlanAll(windows, focused, listed).plan == RestorePlan([], [], 0, focused)
  {
    var moves := PlanAll(windows, focused, live).plan.moves;
    assert windows[..|windows|] == windows;
    forall app, ws ensures CountSaved(Group(app, Some(ws)), windows) <= CountLive(Group(app, Some(ws)), listed) {
      AllSeated(windows, focused, live, |windows|, Group(app, Some(ws)));
      CountRelisted(Group(app, Some(ws)), Moved(live, moves), listed);
    }
    MovedIsDistinct(live, moves);
    RelistedIsDistinct(Moved(live, moves), listed);
    RelistedDrifted(windows, live, moves, listed);
    DriftedDesktopIsLeftAlone(windows, focused, listed);
  }

  lemma BestByTitle(saved: WindowSnapshot, live: seq<LiveWindow>, consumed: set<int>, i: nat)
    requires IsFirst(w => SameTitle(saved, consumed, w), live, Some(i))
    ensures Best(saved, live, consumed) == Some(i)
  {
  }
}
