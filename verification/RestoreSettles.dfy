/** Exactly when a second restore moves nothing, with the tree read anew before each. */
module RestoreSettles {
  import opened Prelude
  import opened SwayTree
  import opened Restore
  import opened RestoreMatching
  import opened RestoreAgain
  import opened RestoreRuns
  import opened RestoreSteady
  import opened Desks
  import opened RestoreRestless
  import opened RestoreScenes
  import opened RestoreSplit

  /** What a restore moves on a tree. */
  function MovesOn(windows: seq<WindowSnapshot>, focused: Option<string>, tree: Node): seq<MoveAction> {
    PlanAll(windows, focused, Live(tree, None)).plan.moves
  }

  /** Once restored, a desktop with nothing extra is not disturbed again. */
  ghost predicate SettlesAtOnce(windows: seq<WindowSnapshot>, focused: Option<string>) {
    forall first, second | Restored(windows, focused, first, second) && NothingExtra(windows, Live(first, None)) ::
      MovesOn(windows, focused, second) == []
  }

  /** A saved list settles every desktop with nothing extra in one restore exactly when every title of an app
      is saved on one workspace, and between two windows of an app saved on one workspace all windows of that
      app are on it. */
  lemma {:induction false} SecondRestoreMovesNothingIff(windows: seq<WindowSnapshot>, focused: Option<string>)
    requires OffScratchpad(windows)
    ensures SettlesAtOnce(windows, focused) <==> TitlesTogether(windows) && SeatsTogether(windows)
  {
    if !TitlesTogether(windows) {
      var first, second := TornIsRestless(windows, focused);
    } else if !SeatsTogether(windows) {
      var first, second := SplitIsRestless(windows, focused);
    } else {
      forall first, second | Restored(windows, focused, first, second) && NothingExtra(windows, Live(first, None))
        ensures MovesOn(windows, focused, second) == []
      {
        LiveIdsDistinct(first);
        SecondRestoreIsQuiet(windows, focused, Live(first, None), Live(second, None));
      }
    }
  }

  /** With windows to spare no saved list settles every desktop, but the empty one. */
  lemma {:induction false} AnyListCanBeRestless(windows: seq<WindowSnapshot>, focused: Option<string>)
    requires OffScratchpad(windows)
    ensures (forall first, second | Restored(windows, focused, first, second) ::
      MovesOn(windows, focused, second) == [])
      <==> windows == []
  {
    if windows != [] {
      var first, second := SpareIsRestless(windows, focused);
    }
  }

  // ---------------------------------------------------------------- captured lists

  /** The windows of each workspace stand together. */
  ghost predicate SpaceBySpace(windows: seq<WindowSnapshot>) {
    forall i, m, l | 0 <= i < m < l < |windows| && windows[i].workspace == windows[l].workspace ::
      windows[m].workspace == windows[i].workspace
  }

  ghost predicate AllIn(windows: seq<WindowSnapshot>, spaces: seq<string>) {
    forall i | 0 <= i < |windows| :: windows[i].workspace in spaces
  }

  lemma {:induction false} InsideOne(n: Node, ws: string, read: CmdlineReader)
    requires Spaces(n) == [] && ws != SCRATCHPAD
    ensures AllIn(Captured(n, Some(ws), read), [ws])
    decreases n, 1
  {
    InsideAll(n.nodes, ws, read);
    InsideAll(n.floatingNodes, ws, read);
  }

  lemma {:induction false} InsideAll(ns: seq<Node>, ws: string, read: CmdlineReader)
    requires SpacesAll(ns) == [] && ws != SCRATCHPAD
    ensures AllIn(CapturedAll(ns, Some(ws), read), [ws])
    decreases ns, 0
  {
    if ns != [] {
      InsideOne(ns[0], ws, read);
      InsideAll(ns[1..], ws, read);
    }
  }

  lemma JoinSpaces(a: seq<WindowSnapshot>, b: seq<WindowSnapshot>, s: seq<string>, t: seq<string>)
    requires SpaceBySpace(a) && SpaceBySpace(b) && AllIn(a, s) && AllIn(b, t) && Once(s + t)
    ensures SpaceBySpace(a + b) && AllIn(a + b, s + t)
  {
    forall i, j | 0 <= i < |a| && 0 <= j < |b| ensures a[i].workspace != b[j].workspace {
      var ws := a[i].workspace;
      assert ws in multiset(s) && multiset(s + t)[ws] <= 1;
      assert b[j].workspace in multiset(t);
    }
  }

  lemma OnceParts(s: seq<string>, t: seq<string>)
    requires Once(s + t)
    ensures Once(s) && Once(t)
  {
    forall x ensures multiset(s)[x] <= 1 && multiset(t)[x] <= 1 { assert multiset(s + t)[x] <= 1; }
  }

  /** A captured tree is listed workspace by workspace, without the scratchpad. */
  lemma {:induction false} CapturedInOrder(n: Node, read: CmdlineReader)
    requires Flat(n) && Once(Spaces(n))
    ensures SpaceBySpace(Captured(n, None, read)) && AllIn(Captured(n, None, read), Spaces(n))
    ensures OffScratchpad(Captured(n, None, read))
    decreases n, 1
  {
    if n.nodeType == Workspace {
      OneInOrder(n, read);
    } else {
      var s, t := SpacesAll(n.nodes), SpacesAll(n.floatingNodes);
      assert Spaces(n) == s + t;
      OnceParts(s, t);
      AllInOrder(n.nodes, read);
      AllInOrder(n.floatingNodes, read);
      JoinSpaces(CapturedAll(n.nodes, None, read), CapturedAll(n.floatingNodes, None, read), s, t);
    }
  }

  lemma OneInOrder(n: Node, read: CmdlineReader)
    requires n.nodeType == Workspace && Flat(n)
    ensures SpaceBySpace(Captured(n, None, read)) && AllIn(Captured(n, None, read), Spaces(n))
    ensures OffScratchpad(Captured(n, None, read))
  {
    if !Skipped(n) {
      var ws := TextOr(n.name, "");
      InsideAll(n.nodes, ws, read);
      InsideAll(n.floatingNodes, ws, read);
      assert AllIn(Captured(n, None, read), [ws]) && Spaces(n) == [ws];
    }
  }

  lemma {:induction false} AllInOrder(ns: seq<Node>, read: CmdlineReader)
    requires FlatAll(ns) && Once(SpacesAll(ns))
    ensures SpaceBySpace(CapturedAll(ns, None, read)) && AllIn(CapturedAll(ns, None, read), SpacesAll(ns))
    ensures OffScratchpad(CapturedAll(ns, None, read))
    decreases ns, 0
  {
    if ns != [] {
      OnceParts(Spaces(ns[0]), SpacesAll(ns[1..]));
      CapturedInOrder(ns[0], read);
      AllInOrder(ns[1..], read);
      JoinSpaces(Captured(ns[0], None, read), CapturedAll(ns[1..], None, read), Spaces(ns[0]), SpacesAll(ns[1..]));
    }
  }

  /** A captured snapshot settles every desktop with nothing extra in one restore exactly when no title of an
      app was open on two workspaces. */
  lemma {:induction false} CapturedListSettlesIff(tree: Node, read: CmdlineReader, focused: Option<string>)
    requires Sound(tree)
    ensures var windows := Captured(tree, None, read);
      SettlesAtOnce(windows, focused) <==> TitlesTogether(windows)
  {
    CapturedInOrder(tree, read);
    SecondRestoreMovesNothingIff(Captured(tree, None, read), focused);
  }

  // ---------------------------------------------------------------- an example

  lemma {:induction false} TwoSpaces(a: LiveWindow, b: LiveWindow)
    requires Placed([a, b]) && a.workspace != b.workspace
    ensures Live(DeskOf([a, b]), None) == [a, b]
  {
    TwoDistinct(a.workspace, b.workspace);
    assert SpacesIn([a, b]) == [a.workspace, b.workspace];
    DeskOfLists([a, b]);
    TwoListed(a, b);
  }

  lemma TwoDistinct(s: string, t: string)
    requires s != t
    ensures Distinct([s, t]) == [s, t]
  {
    assert [s, t][..1] == [s] && [s][..0] == [];
    assert Distinct([s]) == [s];
  }

  lemma TwoListed(a: LiveWindow, b: LiveWindow)
    requires a.workspace != b.workspace
    ensures Listing([a.workspace, b.workspace], [a, b]) == [a, b]
  {
    assert [a, b][1..] == [b] && [b][1..] == [];
    assert OnSpace([b], a.workspace) == [] && OnSpace([b], b.workspace) == [b];
    assert [a.workspace, b.workspace][1..] == [b.workspace] && [b.workspace][1..] == [];
    assert Listing([b.workspace], [a, b]) == [b];
  }

  lemma OnePlan(saved: WindowSnapshot, focused: Option<string>, live: seq<LiveWindow>)
    requires live != [] && SameTitle(saved, {}, live[0]) && live[0].workspace != saved.workspace
    ensures PlanAll([saved], focused, live).plan.moves
         == [MoveAction(live[0].conId, saved.workspace, IdentityOf(saved))]
  {
    assert [saved][..0] == [];
    BestByTitle(saved, live, {}, 0);
  }

  /** One window was saved, and two of its title are open elsewhere. The first restore brings home the one
      listed first; the other is listed first by then, and a second restore moves it too. */
  lemma {:induction false} RestoringTwiceCanMoveAgain(saved: WindowSnapshot, focused: Option<string>, a: LiveWindow,
                                                      b: LiveWindow)
    requires Placed([a, b]) && SameTitle(saved, {}, a) && SameTitle(saved, {}, b) && saved.workspace != SCRATCHPAD
    requires a.workspace != b.workspace && a.workspace != saved.workspace && b.workspace != saved.workspace
    ensures var first, second := DeskOf([a, b]), DeskOf([b, a.(workspace := saved.workspace)]);
      && Restored([saved], focused, first, second)
      && MovesOn([saved], focused, first) == [MoveAction(a.conId, saved.workspace, IdentityOf(saved))]
      && MovesOn([saved], focused, second) == [MoveAction(b.conId, saved.workspace, IdentityOf(saved))]
  {
    var home := a.(workspace := saved.workspace);
    assert [a, b][0].conId != [a, b][1].conId && [a, b][0] in [a, b] && [a, b][1] in [a, b];
    assert Placed([b, home]);
    TwoSpaces(a, b);
    TwoSpaces(b, home);
    OnePlan(saved, focused, [a, b]);
    OnePlan(saved, focused, [b, home]);
    DeskOfIsSound([a, b]);
    DeskOfIsSound([b, home]);
    OneMoved(a, b, MoveAction(a.conId, saved.workspace, IdentityOf(saved)));
  }

  lemma OneMoved(a: LiveWindow, b: LiveWindow, m: MoveAction)
    requires a.conId == m.conId != b.conId
    ensures multiset(Moved([a, b], [m])) == multiset([b, a.(workspace := m.targetWorkspace)])
  {
    MoveAppends([], m, a.conId, a.workspace);
    MoveAppends([], m, b.conId, b.workspace);
    assert [] + [m] == [m];
    assert Moved([a, b], [m]) == [a.(workspace := m.targetWorkspace), b];
  }
}
