/** What the restore planner's matching guarantees. */
module RestoreMatching {
  import opened Prelude
  import opened SwayTree
  import opened Restore

  // ---------------------------------------------------------------- a freshly captured desktop

  function FirstIds(live: seq<LiveWindow>, n: nat): set<int>
    requires n <= |live|
  {
    set i | 0 <= i < n :: live[i].conId
  }

  lemma BestIsNext(saved: WindowSnapshot, live: seq<LiveWindow>, n: nat)
    requires DistinctConIds(live) && n < |live|
    requires saved.appId == live[n].appId && saved.title == live[n].title
    ensures Best(saved, live, FirstIds(live, n)) == Some(n)
  {
  }

  lemma {:induction false} PlanForAgreeing(windows: seq<WindowSnapshot>, focused: Option<string>, live: seq<LiveWindow>)
    requires |windows| <= |live| && Agree(windows, live[..|windows|]) && DistinctConIds(live)
    ensures var at := PlanAll(windows, focused, live);
      at.consumed == FirstIds(live, |windows|) && at.plan == RestorePlan([], [], 0, focused)
  {
    if windows != [] {
      var n := |windows| - 1;
      assert windows[n].workspace == live[n].workspace && windows[n].appId == live[n].appId
        && windows[n].title == live[n].title by {
        assert live[..n + 1][n] == live[n];
      }
      assert Agree(windows[..n], live[..n]) by {
        forall i | 0 <= i < n ensures live[..n][i] == live[..n + 1][i] {}
      }
      PlanForAgreeing(windows[..n], focused, live);
      BestIsNext(windows[n], live, n);
      assert FirstIds(live, n + 1) == FirstIds(live, n) + {live[n].conId};
    }
  }

  /** Restoring the desktop that was just captured does nothing, for every tree whose nodes have
      distinct ids. */
  lemma {:induction false} RestoringTheCapturedDesktopIsANoOp(name: string, tree: Node, read: CmdlineReader)
    requires DistinctNodeIds(tree)
    ensures var snapshot := ContextSnapshot(name, Focused(tree, None), Captured(tree, None, read));
      PlanOf(snapshot, Live(tree, None)) == RestorePlan([], [], 0, Focused(tree, None))
  {
    var live := Live(tree, None);
    WalksAgree(tree, None, read);
    LiveIdsDistinct(tree);
    assert live[..|live|] == live;
    PlanForAgreeing(Captured(tree, None, read), Focused(tree, None), live);
  }

  // ---------------------------------------------------------------- one to one, same app

  /** Saved window `k` was given live window `i`. */
  ghost predicate Gives(at: Progress, k: nat, i: nat) {
    k < |at.matches| && at.matches[k] == Some(i)
  }

  lemma PlanPrefix(windows: seq<WindowSnapshot>, focused: Option<string>, live: seq<LiveWindow>)
    requires windows != []
    ensures var n := |windows| - 1;
      var before, at := PlanAll(windows[..n], focused, live), PlanAll(windows, focused, live);
      at == PlanOne(before, windows[n], live) && |before.matches| == n
      && at.matches == before.matches + [Best(windows[n], live, before.consumed)]
  {
  }

  /** The ids taken are those of the windows given, each to a saved window of its own app. */
  lemma {:induction false} MatchesAreTaken(windows: seq<WindowSnapshot>, focused: Option<string>, live: seq<LiveWindow>)
    ensures var at := PlanAll(windows, focused, live);
      forall k: nat, i: nat | Gives(at, k, i) ::
        i < |live| && live[i].conId in at.consumed && live[i].appId == windows[k].appId
  {
    if windows != [] {
      var n := |windows| - 1;
      MatchesAreTaken(windows[..n], focused, live);
      PlanPrefix(windows, focused, live);
      var before, at := PlanAll(windows[..n], focused, live), PlanAll(windows, focused, live);
      forall k: nat, i: nat | Gives(at, k, i)
        ensures i < |live| && live[i].conId in at.consumed && live[i].appId == windows[k].appId
      {
        if k < n { assert Gives(before, k, i) && windows[..n][k] == windows[k]; }
      }
    }
  }

  /** No live window is given twice. */
  lemma {:induction false} MatchingIsInjective(windows: seq<WindowSnapshot>, focused: Option<string>,
                                               live: seq<LiveWindow>)
    ensures var at := PlanAll(windows, focused, live);
      forall k: nat, l: nat, i: nat, j: nat | Gives(at, k, i) && Gives(at, l, j) && k != l ::
        i < |live| && j < |live| && live[i].conId != live[j].conId
  {
    MatchesAreTaken(windows, focused, live);
    if windows != [] {
      var n := |windows| - 1;
      MatchingIsInjective(windows[..n], focused, live);
      MatchesAreTaken(windows[..n], focused, live);
      PlanPrefix(windows, focused, live);
      var before, at := PlanAll(windows[..n], focused, live), PlanAll(windows, focused, live);
      forall k: nat, l: nat, i: nat, j: nat | Gives(at, k, i) && Gives(at, l, j) && k < l
        ensures live[i].conId != live[j].conId
      {
        assert Gives(before, k, i);
        if l < n { assert Gives(before, l, j); }
      }
    }
  }

  // ---------------------------------------------------------------- maximal per app, and where windows suffice

  /** The windows a count is about: those of one app, or of one app on one workspace. */
  datatype Group = Group(app: string, workspace: Option<string>) {
    predicate Has(app: string, workspace: string) {
      app == this.app && (this.workspace.None? || this.workspace.value == workspace)
    }
  }

  function CountSaved(g: Group, windows: seq<WindowSnapshot>): nat {
    if windows == [] then 0
    else
      var w := windows[|windows| - 1];
      CountSaved(g, windows[..|windows| - 1]) + if g.Has(w.appId, w.workspace) then 1 else 0
  }

  /** Live windows of the group that are not taken. */
  function CountFree(g: Group, live: seq<LiveWindow>, consumed: set<int>): nat {
    if live == [] then 0
    else
      var w := live[|live| - 1];
      CountFree(g, live[..|live| - 1], consumed) + if g.Has(w.appId, w.workspace) && w.conId !in consumed then 1 else 0
  }

  function CountLive(g: Group, live: seq<LiveWindow>): nat {
    CountFree(g, live, {})
  }

  /** Saved windows of an app that were given a live one. */
  function CountMatched(app: string, windows: seq<WindowSnapshot>, matches: seq<Option<nat>>): nat
    requires |matches| == |windows|
  {
    if windows == [] then 0
    else
      var n := |windows| - 1;
      CountMatched(app, windows[..n], matches[..n]) + if windows[n].appId == app && matches[n].Some? then 1 else 0
  }

  lemma {:induction false} FreeExists(g: Group, live: seq<LiveWindow>, consumed: set<int>) returns (i: nat)
    requires CountFree(g, live, consumed) > 0
    ensures i < |live| && g.Has(live[i].appId, live[i].workspace) && live[i].conId !in consumed
  {
    var n := |live| - 1;
    if g.Has(live[n].appId, live[n].workspace) && live[n].conId !in consumed {
      i := n;
    } else {
      i := FreeExists(g, live[..n], consumed);
    }
  }

  /** Taking a window that is not there changes no count. */
  lemma {:induction false} TakeOther(g: Group, live: seq<LiveWindow>, consumed: set<int>, id: int)
    requires forall i | 0 <= i < |live| :: live[i].conId != id
    ensures CountFree(g, live, consumed + {id}) == CountFree(g, live, consumed)
  {
    if live != [] { TakeOther(g, live[..|live| - 1], consumed, id); }
  }

  /** Taking a free window lowers the counts of its groups by one and no other. */
  lemma {:induction false} TakeOne(g: Group, live: seq<LiveWindow>, consumed: set<int>, i: nat)
    requires DistinctConIds(live) && i < |live| && live[i].conId !in consumed
    ensures CountFree(g, live, consumed + {live[i].conId}) + (if g.Has(live[i].appId, live[i].workspace) then 1 else 0)
         == CountFree(g, live, consumed)
  {
    var n := |live| - 1;
    if i == n {
      TakeOther(g, live[..n], consumed, live[n].conId);
    } else {
      TakeOne(g, live[..n], consumed, i);
      assert live[i].conId != live[n].conId;
    }
  }

  /** The matched and the free windows of an app make up its live windows, and a saved window is left out
      only when none is free. */
  lemma {:induction false} AppAccount(windows: seq<WindowSnapshot>, focused: Option<string>, live: seq<LiveWindow>,
                                      app: string)
    requires DistinctConIds(live)
    ensures var at, g := PlanAll(windows, focused, live), Group(app, None);
      && CountMatched(app, windows, at.matches) + CountFree(g, live, at.consumed) == CountLive(g, live)
      && CountMatched(app, windows, at.matches) <= CountSaved(g, windows)
      && (CountFree(g, live, at.consumed) > 0 ==> CountMatched(app, windows, at.matches) == CountSaved(g, windows))
  {
    if windows != [] {
      var n, g := |windows| - 1, Group(app, None);
      var before, at := PlanAll(windows[..n], focused, live), PlanAll(windows, focused, live);
      AppAccount(windows[..n], focused, live, app);
      PlanPrefix(windows, focused, live);
      assert at.matches[..n] == before.matches;
      var m := Best(windows[n], live, before.consumed);
      if m.Some? {
        TakeOne(g, live, before.consumed, m.value);
      } else if windows[n].appId == app && CountFree(g, live, before.consumed) > 0 {
        var i := FreeExists(g, live, before.consumed);
        assert Usable(windows[n], before.consumed, live[i]);
      }
    }
  }

  /** The matching is as large as it can be: per app, the smaller of saved and live. */
  lemma {:induction false} MatchingIsMaximal(windows: seq<WindowSnapshot>, focused: Option<string>,
                                             live: seq<LiveWindow>, app: string)
    requires DistinctConIds(live)
    ensures var saved, there := CountSaved(Group(app, None), windows), CountLive(Group(app, None), live);
      CountMatched(app, windows, PlanAll(windows, focused, live).matches) == if saved < there then saved else there
  {
    AppAccount(windows, focused, live, app);
  }

  // ---------------------------------------------------------------- accounting

  /** Saved windows matched to a window already on their workspace. */
  function InPlace(windows: seq<WindowSnapshot>, matches: seq<Option<nat>>, live: seq<LiveWindow>): nat
    requires |matches| == |windows|
  {
    if windows == [] then 0
    else
      var n := |windows| - 1;
      InPlace(windows[..n], matches[..n], live)
        + if matches[n].Some? && matches[n].value < |live| && live[matches[n].value].workspace == windows[n].workspace
          then 1 else 0
  }

  /** Saved windows without a match and without a command to launch. */
  function Hopeless(windows: seq<WindowSnapshot>, matches: seq<Option<nat>>): nat
    requires |matches| == |windows|
  {
    if windows == [] then 0
    else
      var n := |windows| - 1;
      var cmdline := windows[n].cmdline;
      Hopeless(windows[..n], matches[..n]) + if matches[n].None? && (cmdline.None? || cmdline.value == []) then 1 else 0
  }

  /** Every saved window is moved, left in place, launched or skipped, and the skip count is the number of
      the last as far as a `u32` holds it. */
  lemma {:induction false} EveryWindowIsAccountedFor(windows: seq<WindowSnapshot>, focused: Option<string>,
                                                     live: seq<LiveWindow>)
    ensures var at := PlanAll(windows, focused, live);
      var skipped := Hopeless(windows, at.matches);
      && |windows| == |at.plan.moves| + InPlace(windows, at.matches, live) + |at.plan.launches| + skipped
      && at.plan.skipped == if skipped <= U32_MAX then skipped else U32_MAX
  {
    if windows != [] {
      var n := |windows| - 1;
      EveryWindowIsAccountedFor(windows[..n], focused, live);
      PlanPrefix(windows, focused, live);
      var before, at := PlanAll(windows[..n], focused, live), PlanAll(windows, focused, live);
      assert at.matches[..n] == before.matches;
      AccountOne(before, windows[n], live);
    }
  }

  /** What planning one more window adds to moves, launches and skips. */
  lemma AccountOne(at: Progress, saved: WindowSnapshot, live: seq<LiveWindow>)
    ensures var m, next := Best(saved, live, at.consumed), PlanOne(at, saved, live);
      var home := m.Some? && live[m.value].workspace == saved.workspace;
      var hopeless := m.None? && (saved.cmdline.None? || saved.cmdline.value == []);
      && |next.plan.moves| + |next.plan.launches| + (if home then 1 else 0) + (if hopeless then 1 else 0)
           == |at.plan.moves| + |at.plan.launches| + 1
      && next.plan.skipped == if hopeless then SatAdd32(at.plan.skipped, 1) else at.plan.skipped
  {
  }

  // ---------------------------------------------------------------- after the moves

  /** The workspace the moves send window `id` to; without a move it stays on `ws`. */
  function SpaceAfter(moves: seq<MoveAction>, id: int, ws: string): string {
    if moves == [] then ws
    else if moves[|moves| - 1].conId == id then moves[|moves| - 1].targetWorkspace
    else SpaceAfter(moves[..|moves| - 1], id, ws)
  }

  lemma {:induction false} UnmovedStays(moves: seq<MoveAction>, id: int, ws: string)
    requires forall m | 0 <= m < |moves| :: moves[m].conId != id
    ensures SpaceAfter(moves, id, ws) == ws
  {
    if moves != [] { UnmovedStays(moves[..|moves| - 1], id, ws); }
  }

  lemma MoveAppends(moves: seq<MoveAction>, m: MoveAction, id: int, ws: string)
    ensures SpaceAfter(moves + [m], id, ws) == if m.conId == id then m.targetWorkspace else SpaceAfter(moves, id, ws)
  {
  }

  /** Only taken windows are moved. */
  lemma {:induction false} MovesAreTaken(windows: seq<WindowSnapshot>, focused: Option<string>, live: seq<LiveWindow>)
    ensures var at := PlanAll(windows, focused, live);
      forall m | 0 <= m < |at.plan.moves| :: at.plan.moves[m].conId in at.consumed
  {
    if windows != [] {
      MovesAreTaken(windows[..|windows| - 1], focused, live);
      PlanPrefix(windows, focused, live);
    }
  }

  lemma PlanOneSpace(at: Progress, saved: WindowSnapshot, live: seq<LiveWindow>, i: nat)
    requires i < |live|
    requires forall m | 0 <= m < |at.plan.moves| :: at.plan.moves[m].conId in at.consumed
    ensures var best := Best(saved, live, at.consumed);
      var after := SpaceAfter(PlanOne(at, saved, live).plan.moves, live[i].conId, live[i].workspace);
      if best == Some(i) then after == saved.workspace
      else if best.Some? && live[best.value].conId == live[i].conId then true
      else after == SpaceAfter(at.plan.moves, live[i].conId, live[i].workspace)
  {
    var best := Best(saved, live, at.consumed);
    if best.Some? {
      var w := live[best.value];
      MoveAppends(at.plan.moves, MoveAction(w.conId, saved.workspace, IdentityOf(saved)), live[i].conId,
        live[i].workspace);
      if best == Some(i) { UnmovedStays(at.plan.moves, live[i].conId, live[i].workspace); }
    }
  }

  /** Applying the moves puts every matched window on the workspace it was saved on. */
  lemma {:induction false} MovesReachSavedWorkspaces(windows: seq<WindowSnapshot>, focused: Option<string>,
                                                     live: seq<LiveWindow>, k: nat, i: nat)
    requires DistinctConIds(live) && Gives(PlanAll(windows, focused, live), k, i)
    ensures i < |live|
    ensures SpaceAfter(PlanAll(windows, focused, live).plan.moves, live[i].conId, live[i].workspace)
      == windows[k].workspace
  {
    var n := |windows| - 1;
    var before := PlanAll(windows[..n], focused, live);
    MatchesAreTaken(windows, focused, live);
    MatchesAreTaken(windows[..n], focused, live);
    MovesAreTaken(windows[..n], focused, live);
    PlanPrefix(windows, focused, live);
    PlanOneSpace(before, windows[n], live, i);
    if k < n {
      assert Gives(before, k, i);
      MovesReachSavedWorkspaces(windows[..n], focused, live, k, i);
    }
  }

  /** Windows that were not matched stay where they are. */
  lemma {:induction false} UnmatchedStay(windows: seq<WindowSnapshot>, focused: Option<string>, live: seq<LiveWindow>,
                                         i: nat)
    requires i < |live| && live[i].conId !in PlanAll(windows, focused, live).consumed
    ensures SpaceAfter(PlanAll(windows, focused, live).plan.moves, live[i].conId, live[i].workspace)
      == live[i].workspace
  {
    MovesAreTaken(windows, focused, live);
    UnmovedStays(PlanAll(windows, focused, live).plan.moves, live[i].conId, live[i].workspace);
  }

  // ---------------------------------------------------------------- drifted titles

  ghost predicate TitlesDrifted(windows: seq<WindowSnapshot>, live: seq<LiveWindow>) {
    forall k, i | 0 <= k < |windows| && 0 <= i < |live| && windows[k].appId == live[i].appId ::
      windows[k].title != live[i].title
  }

  /** Every workspace has at least as many live windows of every app as were saved there. */
  ghost predicate EnoughEverywhere(windows: seq<WindowSnapshot>, live: seq<LiveWindow>) {
    forall app, ws :: CountSaved(Group(app, Some(ws)), windows) <= CountLive(Group(app, Some(ws)), live)
  }

  lemma {:induction false} CountSavedGrows(g: Group, windows: seq<WindowSnapshot>, n: nat)
    requires n < |windows|
    ensures CountSaved(g, windows[..n]) + (if g.Has(windows[n].appId, windows[n].workspace) then 1 else 0)
      <= CountSaved(g, windows)
  {
    if n < |windows| - 1 {
      CountSavedGrows(g, windows[..|windows| - 1], n);
      assert windows[..|windows| - 1][..n] == windows[..n];
    } else {
      assert windows[..n] == windows[..|windows| - 1];
    }
  }

  lemma DriftedBest(saved: WindowSnapshot, live: seq<LiveWindow>, consumed: set<int>)
    requires forall i | 0 <= i < |live| && saved.appId == live[i].appId :: saved.title != live[i].title
    requires CountFree(Group(saved.appId, Some(saved.workspace)), live, consumed) > 0
    ensures var m := Best(saved, live, consumed);
      m.Some? && live[m.value].workspace == saved.workspace && live[m.value].appId == saved.appId
  {
  }

  lemma {:induction false} DriftedPrefix(windows: seq<WindowSnapshot>, focused: Option<string>, live: seq<LiveWindow>,
                                         n: nat)
    requires DistinctConIds(live) && TitlesDrifted(windows, live) && EnoughEverywhere(windows, live) && n <= |windows|
    ensures var at := PlanAll(windows[..n], focused, live);
      && at.plan == RestorePlan([], [], 0, focused)
      && forall app, ws ::
           CountSaved(Group(app, Some(ws)), windows[..n]) + CountFree(Group(app, Some(ws)), live, at.consumed)
           == CountLive(Group(app, Some(ws)), live)
  {
    if n > 0 {
      var k := n - 1;
      DriftedPrefix(windows, focused, live, k);
      var before, saved := PlanAll(windows[..k], focused, live), windows[k];
      assert windows[..n][..k] == windows[..k] && windows[..n][k] == saved;
      var g := Group(saved.appId, Some(saved.workspace));
      CountSavedGrows(g, windows, k);
      assert CountSaved(g, windows) <= CountLive(g, live);
      DriftedBest(saved, live, before.consumed);
      var m := Best(saved, live, before.consumed).value;
      assert PlanAll(windows[..n], focused, live) == PlanOne(before, saved, live);
      forall app, ws
        ensures var taken := before.consumed + {live[m].conId};
          CountSaved(Group(app, Some(ws)), windows[..n]) + CountFree(Group(app, Some(ws)), live, taken)
          == CountLive(Group(app, Some(ws)), live)
      {
        TakeOne(Group(app, Some(ws)), live, before.consumed, m);
      }
    }
  }

  /** When no title survived but every workspace still has enough windows of each app, nothing moves. */
  lemma {:induction false} DriftedDesktopIsLeftAlone(windows: seq<WindowSnapshot>, focused: Option<string>,
                                                     live: seq<LiveWindow>)
    requires DistinctConIds(live) && TitlesDrifted(windows, live) && EnoughEverywhere(windows, live)
    ensures PlanAll(windows, focused, live).plan == RestorePlan([], [], 0, focused)
  {
    DriftedPrefix(windows, focused, live, |windows|);
    assert windows[..|windows|] == windows;
  }
}
