/** What a restore plan orders: for whom, where to, and in which order. */
module RestoreActions {
  import opened Prelude
  import opened SwayTree
  import opened Restore
  import opened RestoreMatching

  type Choice = nat -> bool

  /** The numbers below `n` that pass, in order. */
  function Passing(test: Choice, n: nat): seq<nat> {
    if n == 0 then [] else Passing(test, n - 1) + if test(n - 1) then [n - 1] else []
  }

  lemma {:induction false} PassingIs(test: Choice, n: nat)
    ensures forall k: nat :: k in Passing(test, n) <==> k < n && test(k)
    ensures forall i, j | 0 <= i < j < |Passing(test, n)| :: Passing(test, n)[i] < Passing(test, n)[j]
  {
    if n > 0 {
      PassingIs(test, n - 1);
      var front := Passing(test, n - 1);
      forall i | 0 <= i < |front| ensures front[i] < n - 1 { assert front[i] in front; }
    }
  }

  lemma {:induction false} SamePassing(p: Choice, q: Choice, n: nat)
    requires forall k: nat | k < n :: p(k) == q(k)
    ensures Passing(p, n) == Passing(q, n)
  {
    if n > 0 { SamePassing(p, q, n - 1); }
  }

  /** Saved window `k` found no window but has a command to launch. */
  predicate ToLaunch(windows: seq<WindowSnapshot>, matches: seq<Option<nat>>, k: nat) {
    && k < |windows| && k < |matches| && matches[k].None?
    && windows[k].cmdline.Some? && windows[k].cmdline.value != []
  }

  /** Saved window `k` found a window that is on another workspace. */
  predicate ToMove(windows: seq<WindowSnapshot>, live: seq<LiveWindow>, matches: seq<Option<nat>>, k: nat) {
    && k < |windows| && k < |matches| && matches[k].Some? && matches[k].value < |live|
    && live[matches[k].value].workspace != windows[k].workspace
  }

  function LaunchChoice(windows: seq<WindowSnapshot>, matches: seq<Option<nat>>): Choice {
    (k: nat) => ToLaunch(windows, matches, k)
  }

  function MoveChoice(windows: seq<WindowSnapshot>, live: seq<LiveWindow>, matches: seq<Option<nat>>): Choice {
    (k: nat) => ToMove(windows, live, matches, k)
  }

  /** The launches are those of the saved windows `at`, one after the other. */
  ghost predicate Launches(windows: seq<WindowSnapshot>, launches: seq<LaunchAction>, at: seq<nat>) {
    && |launches| == |at|
    && forall i | 0 <= i < |at| ::
         && at[i] < |windows| && windows[at[i]].cmdline == Some(launches[i].cmdline)
         && launches[i].targetWorkspace == windows[at[i]].workspace
         && launches[i].identity == IdentityOf(windows[at[i]])
  }

  /** The moves bring the windows found for `at` to the workspaces they were saved on. */
  ghost predicate Moves(windows: seq<WindowSnapshot>, live: seq<LiveWindow>, matches: seq<Option<nat>>,
                        moves: seq<MoveAction>, at: seq<nat>) {
    && |moves| == |at|
    && forall i | 0 <= i < |at| ::
         && at[i] < |windows| && at[i] < |matches| && matches[at[i]].Some? && matches[at[i]].value < |live|
         && moves[i].conId == live[matches[at[i]].value].conId
         && moves[i].targetWorkspace == windows[at[i]].workspace
         && moves[i].identity == IdentityOf(windows[at[i]])
  }

  lemma LaunchesGrow(windows: seq<WindowSnapshot>, launches: seq<LaunchAction>, at: seq<nat>, w: WindowSnapshot)
    requires Launches(windows, launches, at)
    ensures Launches(windows + [w], launches, at)
  {
  }

  lemma MovesGrow(windows: seq<WindowSnapshot>, live: seq<LiveWindow>, matches: seq<Option<nat>>,
                  moves: seq<MoveAction>, at: seq<nat>, w: WindowSnapshot, m: Option<nat>)
    requires Moves(windows, live, matches, moves, at)
    ensures Moves(windows + [w], live, matches + [m], moves, at)
  {
  }

  /** In order, the plan launches exactly the saved windows that found no window and have a command, each
      with its command line on its workspace, and moves exactly the windows found on another workspace. */
  lemma {:induction false} PlanOrders(windows: seq<WindowSnapshot>, focused: Option<string>, live: seq<LiveWindow>)
    ensures Ordered(windows, focused, live, PlanAll(windows, focused, live))
  {
    if windows != [] {
      var n := |windows| - 1;
      PlanOrders(windows[..n], focused, live);
      PlanPrefix(windows, focused, live);
      assert windows == windows[..n] + [windows[n]];
      OrderOne(windows[..n], focused, live, PlanAll(windows[..n], focused, live), windows[n]);
    }
  }

  ghost predicate Ordered(windows: seq<WindowSnapshot>, focused: Option<string>, live: seq<LiveWindow>, at: Progress) {
    && |at.matches| == |windows| && at.plan.focusedWorkspace == focused
    && Launches(windows, at.plan.launches, Passing(LaunchChoice(windows, at.matches), |windows|))
    && Moves(windows, live, at.matches, at.plan.moves, Passing(MoveChoice(windows, live, at.matches), |windows|))
  }

  lemma OrderOne(windows: seq<WindowSnapshot>, focused: Option<string>, live: seq<LiveWindow>, at: Progress,
                 w: WindowSnapshot)
    requires Ordered(windows, focused, live, at)
    ensures Ordered(windows + [w], focused, live, PlanOne(at, w, live))
  {
    LaunchOne(windows, live, at, w);
    MoveOne(windows, live, at, w);
  }

  lemma LaunchOne(windows: seq<WindowSnapshot>, live: seq<LiveWindow>, at: Progress, w: WindowSnapshot)
    requires |at.matches| == |windows|
    requires Launches(windows, at.plan.launches, Passing(LaunchChoice(windows, at.matches), |windows|))
    ensures var next := PlanOne(at, w, live);
      Launches(windows + [w], next.plan.launches, Passing(LaunchChoice(windows + [w], next.matches), |windows| + 1))
  {
    var n, m := |windows|, Best(w, live, at.consumed);
    var more, matches := windows + [w], at.matches + [m];
    forall k: nat | k < n ensures LaunchChoice(windows, at.matches)(k) == LaunchChoice(more, matches)(k) {
      assert more[k] == windows[k] && matches[k] == at.matches[k];
    }
    SamePassing(LaunchChoice(windows, at.matches), LaunchChoice(more, matches), n);
    LaunchesGrow(windows, at.plan.launches, Passing(LaunchChoice(more, matches), n), w);
  }

  lemma MoveOne(windows: seq<WindowSnapshot>, live: seq<LiveWindow>, at: Progress, w: WindowSnapshot)
    requires |at.matches| == |windows|
    requires Moves(windows, live, at.matches, at.plan.moves, Passing(MoveChoice(windows, live, at.matches), |windows|))
    ensures var next := PlanOne(at, w, live);
      Moves(windows + [w], live, next.matches, next.plan.moves,
            Passing(MoveChoice(windows + [w], live, next.matches), |windows| + 1))
  {
    var n, more, matches := |windows|, windows + [w], at.matches + [Best(w, live, at.consumed)];
    MovesBefore(windows, live, at.matches, at.plan.moves, w, matches[n]);
    if ToMove(more, live, matches, n) {
      MovesPush(more, live, matches, at.plan.moves, Passing(MoveChoice(more, live, matches), n), n);
    }
  }

  lemma MovesBefore(windows: seq<WindowSnapshot>, live: seq<LiveWindow>, front: seq<Option<nat>>,
                    moves: seq<MoveAction>, w: WindowSnapshot, m: Option<nat>)
    requires |front| == |windows|
    requires Moves(windows, live, front, moves, Passing(MoveChoice(windows, live, front), |windows|))
    ensures Moves(windows + [w], live, front + [m], moves,
                  Passing(MoveChoice(windows + [w], live, front + [m]), |windows|))
  {
    var n, more, matches := |windows|, windows + [w], front + [m];
    forall k: nat | k < n ensures MoveChoice(windows, live, front)(k) == MoveChoice(more, live, matches)(k) {
      assert more[k] == windows[k] && matches[k] == front[k];
    }
    SamePassing(MoveChoice(windows, live, front), MoveChoice(more, live, matches), n);
    MovesGrow(windows, live, front, moves, Passing(MoveChoice(more, live, matches), n), w, m);
  }

  lemma MovesPush(windows: seq<WindowSnapshot>, live: seq<LiveWindow>, matches: seq<Option<nat>>,
                  moves: seq<MoveAction>, at: seq<nat>, k: nat)
    requires Moves(windows, live, matches, moves, at) && ToMove(windows, live, matches, k)
    ensures var w := windows[k];
      Moves(windows, live, matches, moves + [MoveAction(live[matches[k].value].conId, w.workspace, IdentityOf(w))],
            at + [k])
  {
  }

  /** What a window is called starts with its app and ends with its title. */
  lemma {:induction false} IdentityShows(w: WindowSnapshot)
    ensures w.appId <= IdentityOf(w)
    ensures w.title == "" <==> IdentityOf(w) == w.appId
    ensures |w.title| <= |IdentityOf(w)| && IdentityOf(w)[|IdentityOf(w)| - |w.title|..] == w.title
  {
    if w.title == "" {
      assert IdentityOf(w)[|IdentityOf(w)|..] == [];
    } else {
      assert IdentityOf(w) == w.appId + (" — " + w.title);
    }
  }
}
