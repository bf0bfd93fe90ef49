/** The planner as a sequence of matches, and where its moves leave the windows. */
module RestoreRuns {
  import opened Prelude
  import opened SwayTree
  import opened Restore
  import opened RestoreMatching
  import opened RestoreAgain

  // ---------------------------------------------------------------- a plan as its matches

  /** The ids taken by the first `n` matches. */
  function Taken(live: seq<LiveWindow>, matches: seq<Option<nat>>, n: nat): set<int>
    requires n <= |matches|
  {
    if n == 0 then {}
    else
      var m := matches[n - 1];
      Taken(live, matches, n - 1) + if m.Some? && m.value < |live| then {live[m.value].conId} else {}
  }

  /** Saved window `j` was given its best match among what the earlier ones left. */
  ghost predicate RunAt(windows: seq<WindowSnapshot>, live: seq<LiveWindow>, matches: seq<Option<nat>>, j: nat)
    requires j < |matches| == |windows|
  {
    matches[j] == Best(windows[j], live, Taken(live, matches, j))
  }

  /** `matches` is what the planner gives the saved windows, one after the other. */
  ghost predicate IsRun(windows: seq<WindowSnapshot>, live: seq<LiveWindow>, matches: seq<Option<nat>>) {
    && |matches| == |windows|
    && forall j: nat | j < |windows| :: RunAt(windows, live, matches, j)
  }

  /** The first `n` matched windows are on their saved workspaces already. */
  ghost predicate Quiet(windows: seq<WindowSnapshot>, live: seq<LiveWindow>, matches: seq<Option<nat>>, n: nat)
    requires n <= |matches| == |windows|
  {
    forall j | 0 <= j < n && matches[j].Some? && matches[j].value < |live| ::
      live[matches[j].value].workspace == windows[j].workspace
  }

  lemma {:induction false} TakenFront(live: seq<LiveWindow>, matches: seq<Option<nat>>, more: seq<Option<nat>>, n: nat)
    requires n <= |matches| <= |more| && more[..|matches|] == matches
    ensures Taken(live, matches, n) == Taken(live, more, n)
  {
    if n > 0 {
      TakenFront(live, matches, more, n - 1);
      assert more[..|matches|][n - 1] == more[n - 1];
    }
  }

  lemma {:induction false} TakenGrows(live: seq<LiveWindow>, matches: seq<Option<nat>>, k: nat, n: nat)
    requires k <= n <= |matches|
    ensures Taken(live, matches, k) <= Taken(live, matches, n)
  {
    if k < n { TakenGrows(live, matches, k, n - 1); }
  }

  lemma {:induction false} TakenHas(live: seq<LiveWindow>, matches: seq<Option<nat>>, n: nat, j: nat)
    requires j < n <= |matches| && matches[j].Some? && matches[j].value < |live|
    ensures live[matches[j].value].conId in Taken(live, matches, n)
  {
    if j < n - 1 { TakenHas(live, matches, n - 1, j); }
  }

  lemma TakenPrefixes(live: seq<LiveWindow>, front: seq<Option<nat>>, m: Option<nat>)
    ensures forall j | 0 <= j <= |front| :: Taken(live, front + [m], j) == Taken(live, front, j)
  {
    forall j | 0 <= j <= |front| ensures Taken(live, front + [m], j) == Taken(live, front, j) {
      TakenFront(live, front, front + [m], j);
    }
  }

  lemma RunGrows(windows: seq<WindowSnapshot>, live: seq<LiveWindow>, front: seq<Option<nat>>, m: Option<nat>)
    requires |windows| == |front| + 1 && IsRun(windows[..|front|], live, front)
    requires m == Best(windows[|front|], live, Taken(live, front, |front|))
    ensures IsRun(windows, live, front + [m])
  {
    TakenPrefixes(live, front, m);
    forall j: nat | j < |windows| ensures RunAt(windows, live, front + [m], j) {
      if j < |front| { assert RunAt(windows[..|front|], live, front, j); }
    }
  }

  lemma QuietGrows(windows: seq<WindowSnapshot>, live: seq<LiveWindow>, front: seq<Option<nat>>, m: Option<nat>)
    requires |windows| == |front| + 1
    ensures Quiet(windows, live, front + [m], |windows|) <==>
      && Quiet(windows[..|front|], live, front, |front|)
      && (m.Some? && m.value < |live| ==> live[m.value].workspace == windows[|front|].workspace)
  {
    var n, all := |front|, front + [m];
    if Quiet(windows, live, all, n + 1) {
      forall j | 0 <= j < n && front[j].Some? && front[j].value < |live|
        ensures live[front[j].value].workspace == windows[..n][j].workspace
      {
        assert all[j] == front[j];
      }
      assert all[n] == m;
    }
  }

  lemma {:induction false} PlanIsRun(windows: seq<WindowSnapshot>, focused: Option<string>, live: seq<LiveWindow>)
    ensures Runs(windows, live, PlanAll(windows, focused, live))
  {
    if windows != [] {
      var n := |windows| - 1;
      PlanIsRun(windows[..n], focused, live);
      PlanPrefix(windows, focused, live);
      RunsOn(windows, live, PlanAll(windows[..n], focused, live));
    }
  }

  /** The progress of a plan is that of a run, and it moves nothing exactly when the run is quiet. */
  ghost predicate Runs(windows: seq<WindowSnapshot>, live: seq<LiveWindow>, at: Progress) {
    && IsRun(windows, live, at.matches)
    && at.consumed == Taken(live, at.matches, |windows|)
    && (at.plan.moves == [] <==> Quiet(windows, live, at.matches, |windows|))
  }

  lemma RunsOn(windows: seq<WindowSnapshot>, live: seq<LiveWindow>, before: Progress)
    requires windows != [] && Runs(windows[..|windows| - 1], live, before)
    ensures Runs(windows, live, PlanOne(before, windows[|windows| - 1], live))
  {
    var m := Best(windows[|windows| - 1], live, before.consumed);
    RunGrows(windows, live, before.matches, m);
    TakenPrefixes(live, before.matches, m);
    QuietGrows(windows, live, before.matches, m);
  }

  /** `moved` is `live` with every matched window on its saved workspace and the others unmoved. */
  ghost predicate Home(windows: seq<WindowSnapshot>, live: seq<LiveWindow>, matches: seq<Option<nat>>,
                       moved: seq<LiveWindow>)
    requires |matches| == |windows|
  {
    && |moved| == |live|
    && (forall i | 0 <= i < |live| ::
          moved[i].conId == live[i].conId && moved[i].appId == live[i].appId && moved[i].title == live[i].title)
    && (forall j, i | 0 <= j < |windows| && matches[j] == Some(i) && i < |live| ::
      moved[i].workspace == windows[j].workspace)
    && (forall i | 0 <= i < |live| && live[i].conId !in Taken(live, matches, |matches|) ::
      moved[i].workspace == live[i].workspace)
  }

  lemma MovedIsHome(windows: seq<WindowSnapshot>, focused: Option<string>, live: seq<LiveWindow>)
    requires DistinctConIds(live)
    ensures var at := PlanAll(windows, focused, live); Home(windows, live, at.matches, Moved(live, at.plan.moves))
  {
    var at := PlanAll(windows, focused, live);
    PlanIsRun(windows, focused, live);
    forall j, i: nat | 0 <= j < |windows| && at.matches[j] == Some(i) && i < |live|
      ensures Moved(live, at.plan.moves)[i].workspace == windows[j].workspace
    {
      assert Gives(at, j, i);
      MovesReachSavedWorkspaces(windows, focused, live, j, i);
    }
    forall i | 0 <= i < |live| && live[i].conId !in Taken(live, at.matches, |at.matches|)
      ensures Moved(live, at.plan.moves)[i].workspace == live[i].workspace
    {
      UnmatchedStay(windows, focused, live, i);
    }
  }

  // ---------------------------------------------------------------- what a match says

  lemma BestByTitleIff(saved: WindowSnapshot, live: seq<LiveWindow>, consumed: set<int>)
    ensures var m := Best(saved, live, consumed);
      if exists i | 0 <= i < |live| :: SameTitle(saved, consumed, live[i]) then
        m.Some? && SameTitle(saved, consumed, live[m.value])
        && forall i | 0 <= i < m.value :: !SameTitle(saved, consumed, live[i])
      else m.Some? ==> live[m.value].title != saved.title
  {
  }

  lemma BestBySpaceIff(saved: WindowSnapshot, live: seq<LiveWindow>, consumed: set<int>)
    requires forall i | 0 <= i < |live| :: !SameTitle(saved, consumed, live[i])
    ensures var m := Best(saved, live, consumed);
      (exists i | 0 <= i < |live| :: SameSpace(saved, consumed, live[i])) ==>
        m.Some? && SameSpace(saved, consumed, live[m.value])
        && forall i | 0 <= i < m.value :: !SameSpace(saved, consumed, live[i])
  {
  }

  // ---------------------------------------------------------------- runs are what they must be

  lemma TakenSame(live: seq<LiveWindow>, a: seq<Option<nat>>, b: seq<Option<nat>>, n: nat)
    requires n <= |a| && n <= |b| && a[..n] == b[..n]
    ensures Taken(live, a, n) == Taken(live, b, n)
  {
    TakenFront(live, a[..n], a, n);
    TakenFront(live, a[..n], b, n);
  }

  lemma {:induction false} RunUnique(windows: seq<WindowSnapshot>, live: seq<LiveWindow>,
                                     a: seq<Option<nat>>, b: seq<Option<nat>>, n: nat)
    requires n <= |windows| == |a| == |b|
    requires forall j: nat | j < n :: RunAt(windows, live, a, j) && RunAt(windows, live, b, j)
    ensures a[..n] == b[..n]
  {
    if n > 0 {
      RunUnique(windows, live, a, b, n - 1);
      TakenSame(live, a, b, n - 1);
      assert RunAt(windows, live, a, n - 1) && RunAt(windows, live, b, n - 1);
      assert a[..n] == a[..n - 1] + [a[n - 1]] && b[..n] == b[..n - 1] + [b[n - 1]];
    }
  }
}
