/** The restore planner: a greedy one-to-one matching of saved windows to live ones. */
module Restore {
  import opened Prelude
  import opened SwayTree

  datatype MoveAction = MoveAction(conId: int, targetWorkspace: string, identity: string)

  datatype LaunchAction = LaunchAction(cmdline: seq<string>, targetWorkspace: string, identity: string)

  datatype RestorePlan = RestorePlan(
    moves: seq<MoveAction>, launches: seq<LaunchAction>, skipped: u32, focusedWorkspace: Option<string>)

  function IdentityOf(w: WindowSnapshot): string {
    if w.title == "" then w.appId else w.appId + " — " + w.title
  }

  // ---------------------------------------------------------------- picking a window

  /** An unused window of the right app. */
  predicate Usable(saved: WindowSnapshot, consumed: set<int>, w: LiveWindow) {
    w.conId !in consumed && w.appId == saved.appId
  }

  predicate SameTitle(saved: WindowSnapshot, consumed: set<int>, w: LiveWindow) {
    Usable(saved, consumed, w) && w.title == saved.title
  }

  predicate SameSpace(saved: WindowSnapshot, consumed: set<int>, w: LiveWindow) {
    Usable(saved, consumed, w) && w.workspace == saved.workspace
  }

  /** `i` is the first window that satisfies the test, if any does. */
  ghost predicate IsFirst(test: LiveWindow -> bool, live: seq<LiveWindow>, i: Option<nat>) {
    match i
    case None => forall j | 0 <= j < |live| :: !test(live[j])
    case Some(k) => k < |live| && test(live[k]) && forall j | 0 <= j < k :: !test(live[j])
  }

  function First(test: LiveWindow -> bool, live: seq<LiveWindow>): (i: Option<nat>)
    ensures IsFirst(test, live, i)
  {
    if live == [] then None
    else
      var n := |live| - 1;
      var front := First(test, live[..n]);
      if front.Some? then front else if test(live[n]) then Some(n) else None
  }

  /** Same title wins, then same workspace, then any window of the app; first in tree order each time. */
  function Best(saved: WindowSnapshot, live: seq<LiveWindow>, consumed: set<int>): (i: Option<nat>)
    ensures i.Some? ==> i.value < |live| && Usable(saved, consumed, live[i.value])
    ensures i.None? ==> forall j | 0 <= j < |live| :: !Usable(saved, consumed, live[j])
  {
    var exact := First(w => SameTitle(saved, consumed, w), live);
    if exact.Some? then exact
    else
      var space := First(w => SameSpace(saved, consumed, w), live);
      if space.Some? then space else First(w => Usable(saved, consumed, w), live)
  }

  lemma FirstUnique(test: LiveWindow -> bool, live: seq<LiveWindow>, i: Option<nat>, j: Option<nat>)
    requires IsFirst(test, live, i) && IsFirst(test, live, j)
    ensures i == j
  {
  }

  method FindBestMatch(saved: WindowSnapshot, live: seq<LiveWindow>, consumed: set<int>) returns (best: Option<nat>)
    ensures best == Best(saved, live, consumed)
  {
    var exact: Option<nat>, space: Option<nat>, any: Option<nat> := None, None, None;
    ghost var title, same, use :=
      w => SameTitle(saved, consumed, w), w => SameSpace(saved, consumed, w), w => Usable(saved, consumed, w);
    var i := 0;
    while i < |live|
      invariant i <= |live| && exact == None
      invariant IsFirst(title, live[..i], None)
      invariant IsFirst(same, live[..i], space)
      invariant IsFirst(use, live[..i], any)
    {
      var w := live[i];
      ghost var before := live[..i];
      assert live[..i + 1] == before + [w];
      if w.conId !in consumed && w.appId == saved.appId {
        if w.title == saved.title {
          exact := Some(i);
          break;
        }
        if space.None? && w.workspace == saved.workspace { space := Some(i); }
        if any.None? { any := Some(i); }
      }
      i := i + 1;
    }
    if exact.Some? {
      assert IsFirst(title, live, exact) by { PrefixNone(title, live, i); }
      FirstUnique(title, live, exact, First(w => SameTitle(saved, consumed, w), live));
      return exact;
    }
    assert live[..i] == live;
    FirstUnique(title, live, None, First(w => SameTitle(saved, consumed, w), live));
    FirstUnique(same, live, space, First(w => SameSpace(saved, consumed, w), live));
    FirstUnique(use, live, any, First(w => Usable(saved, consumed, w), live));
    best := if space.Some? then space else any;
  }

  lemma PrefixNone(test: LiveWindow -> bool, live: seq<LiveWindow>, i: nat)
    requires i < |live| && IsFirst(test, live[..i], None) && test(live[i])
    ensures IsFirst(test, live, Some(i))
  {
  }

  // ---------------------------------------------------------------- the plan

  /** What planning has decided so far: each saved window's match, the ids taken, and the actions. */
  datatype Progress = Progress(matches: seq<Option<nat>>, consumed: set<int>, plan: RestorePlan)

  function PlanOne(at: Progress, saved: WindowSnapshot, live: seq<LiveWindow>): Progress {
    var m := Best(saved, live, at.consumed);
    var matches := at.matches + [m];
    if m.Some? then
      var w := live[m.value];
      Progress(matches, at.consumed + {w.conId},
        if w.workspace == saved.workspace then at.plan
        else at.plan.(moves := at.plan.moves + [MoveAction(w.conId, saved.workspace, IdentityOf(saved))]))
    else if saved.cmdline.Some? && saved.cmdline.value != [] then
      Progress(matches, at.consumed,
        at.plan.(launches := at.plan.launches
          + [LaunchAction(saved.cmdline.value, saved.workspace, IdentityOf(saved))]))
    else Progress(matches, at.consumed, at.plan.(skipped := SatAdd32(at.plan.skipped, 1)))
  }

  function PlanAll(windows: seq<WindowSnapshot>, focused: Option<string>, live: seq<LiveWindow>): (at: Progress)
    ensures |at.matches| == |windows|
  {
    if windows == [] then Progress([], {}, RestorePlan([], [], 0, focused))
    else PlanOne(PlanAll(windows[..|windows| - 1], focused, live), windows[|windows| - 1], live)
  }

  function PlanOf(snapshot: ContextSnapshot, live: seq<LiveWindow>): RestorePlan {
    PlanAll(snapshot.windows, snapshot.focusedWorkspace, live).plan
  }

  method PlanRestore(snapshot: ContextSnapshot, live: seq<LiveWindow>) returns (plan: RestorePlan)
    ensures plan == PlanOf(snapshot, live)
  {
    plan := RestorePlan([], [], 0, snapshot.focusedWorkspace);
    var consumed: set<int> := {};
    var windows := snapshot.windows;
    for i := 0 to |windows|
      invariant var at := PlanAll(windows[..i], snapshot.focusedWorkspace, live);
        plan == at.plan && consumed == at.consumed
    {
      var saved := windows[i];
      assert windows[..i + 1][..i] == windows[..i];
      var m := FindBestMatch(saved, live, consumed);
      if m.Some? {
        var w := live[m.value];
        consumed := consumed + {w.conId};
        if w.workspace != saved.workspace {
          plan := plan.(moves := plan.moves + [MoveAction(w.conId, saved.workspace, IdentityOf(saved))]);
        }
      } else if saved.cmdline.Some? && saved.cmdline.value != [] {
        plan := plan.(launches := plan.launches
          + [LaunchAction(saved.cmdline.value, saved.workspace, IdentityOf(saved))]);
      } else {
        plan := plan.(skipped := SatAdd32(plan.skipped, 1));
      }
    }
    assert windows[..|windows|] == windows;
  }
}
