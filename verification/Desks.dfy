/** Sway trees built for a desktop, workspace by workspace, and the trees sway can report. */
module Desks {
  import opened Prelude
  import opened SwayTree
  import opened Restore
  import opened RestoreAgain

  // ---------------------------------------------------------------- trees sway reports

  /** The names of all workspace nodes, in tree order. */
  function Spaces(n: Node): seq<string>
    decreases n, 1
  {
    (if n.nodeType == Workspace then [TextOr(n.name, "")] else []) + SpacesAll(n.nodes) + SpacesAll(n.floatingNodes)
  }

  function SpacesAll(ns: seq<Node>): seq<string>
    decreases ns, 0
  {
    if ns == [] then [] else Spaces(ns[0]) + SpacesAll(ns[1..])
  }

  /** No workspace lies inside another one. */
  predicate Flat(n: Node)
    decreases n, 1
  {
    if n.nodeType == Workspace then SpacesAll(n.nodes) == [] && SpacesAll(n.floatingNodes) == []
    else FlatAll(n.nodes) && FlatAll(n.floatingNodes)
  }

  predicate FlatAll(ns: seq<Node>)
    decreases ns, 0
  {
    ns == [] || (Flat(ns[0]) && FlatAll(ns[1..]))
  }

  ghost predicate Once(xs: seq<string>) {
    forall x :: multiset(xs)[x] <= 1
  }

  /** Distinct node ids, distinct workspace names, no workspace inside another. */
  ghost predicate Sound(tree: Node) {
    DistinctNodeIds(tree) && Once(Spaces(tree)) && Flat(tree)
  }

  // ---------------------------------------------------------------- a desk

  function OnSpace(windows: seq<LiveWindow>, ws: string): seq<LiveWindow> {
    if windows == [] then []
    else (if windows[0].workspace == ws then [windows[0]] else []) + OnSpace(windows[1..], ws)
  }

  function Leaf(w: LiveWindow): Node {
    Node(w.conId, Some(w.title), Con, Some(w.appId), None, None, false, [], [])
  }

  function Leaves(windows: seq<LiveWindow>): seq<Node> {
    if windows == [] then [] else [Leaf(windows[0])] + Leaves(windows[1..])
  }

  /** The workspaces, each with its windows in order. */
  function SpaceNodes(spaces: seq<string>, windows: seq<LiveWindow>): seq<Node> {
    if spaces == [] then []
    else
      [Node(-2 - |spaces|, Some(spaces[0]), Workspace, None, None, None, false, Leaves(OnSpace(windows, spaces[0])),
        [])]
      + SpaceNodes(spaces[1..], windows)
  }

  function Desk(spaces: seq<string>, windows: seq<LiveWindow>): Node {
    var output := Node(-2, Some("eDP-1"), Output, None, None, None, false, SpaceNodes(spaces, windows), []);
    Node(-1, Some("root"), Root, None, None, None, false, [output], [])
  }

  /** The order in which the windows of a desk are listed. */
  function Listing(spaces: seq<string>, windows: seq<LiveWindow>): seq<LiveWindow> {
    if spaces == [] then [] else OnSpace(windows, spaces[0]) + Listing(spaces[1..], windows)
  }

  lemma {:induction false} LeavesLive(windows: seq<LiveWindow>, ws: string)
    requires forall w | w in windows :: w.workspace == ws
    ensures LiveAll(Leaves(windows), Some(ws)) == windows
  {
    if windows != [] {
      LeavesLive(windows[1..], ws);
      assert LiveHere(Leaf(windows[0]), Some(ws)) == [windows[0]];
      assert Live(Leaf(windows[0]), Some(ws)) == [windows[0]];
    }
  }

  lemma {:induction false} OnSpaceAll(windows: seq<LiveWindow>, ws: string)
    ensures forall w :: w in OnSpace(windows, ws) <==> w in windows && w.workspace == ws
  {
    if windows != [] { OnSpaceAll(windows[1..], ws); }
  }

  lemma {:induction false} SpacesLive(spaces: seq<string>, windows: seq<LiveWindow>)
    requires SCRATCHPAD !in spaces
    ensures LiveAll(SpaceNodes(spaces, windows), None) == Listing(spaces, windows)
  {
    if spaces != [] {
      var node := SpaceNodes(spaces, windows)[0];
      SpacesLive(spaces[1..], windows);
      OnSpaceAll(windows, spaces[0]);
      LeavesLive(OnSpace(windows, spaces[0]), spaces[0]);
      assert LiveHere(node, None) == [] && LiveAll(node.floatingNodes, Some(spaces[0])) == [];
      assert Live(node, None) == OnSpace(windows, spaces[0]);
    }
  }

  /** A desk is listed workspace by workspace. */
  lemma DeskLists(spaces: seq<string>, windows: seq<LiveWindow>)
    requires SCRATCHPAD !in spaces
    ensures Live(Desk(spaces, windows), None) == Listing(spaces, windows)
  {
    var desk := Desk(spaces, windows);
    var output := desk.nodes[0];
    SpacesLive(spaces, windows);
    assert LiveHere(output, None) == [] && LiveAll(output.floatingNodes, None) == [];
    assert Live(output, None) == Listing(spaces, windows);
    assert desk.nodes[1..] == [] && LiveAll(desk.nodes[1..], None) == [];
    assert LiveAll(desk.nodes, None) == Live(output, None) + [];
    assert LiveHere(desk, None) == [] && LiveAll(desk.floatingNodes, None) == [];
  }

  // ---------------------------------------------------------------- desks are sound

  lemma {:induction false} LeavesIds(windows: seq<LiveWindow>)
    ensures IdsAll(Leaves(windows)) == ConIds(windows)
    ensures SpacesAll(Leaves(windows)) == []
  {
    if windows != [] {
      LeavesIds(windows[1..]);
      assert Ids(Leaf(windows[0])) == [windows[0].conId] && Spaces(Leaf(windows[0])) == [];
      assert ConIds(windows) == [windows[0].conId] + ConIds(windows[1..]);
    }
  }

  lemma {:induction false} SpaceNodesSound(spaces: seq<string>, windows: seq<LiveWindow>)
    ensures SpacesAll(SpaceNodes(spaces, windows)) == spaces && FlatAll(SpaceNodes(spaces, windows))
  {
    if spaces != [] {
      SpaceNodesSound(spaces[1..], windows);
      LeavesIds(OnSpace(windows, spaces[0]));
      assert Spaces(SpaceNodes(spaces, windows)[0]) == [spaces[0]];
      assert spaces == [spaces[0]] + spaces[1..];
    }
  }

  /** How often `n` workspace nodes carry the id `x`. */
  function SpaceId(n: nat, x: int): nat {
    if -2 - n <= x < -2 then 1 else 0
  }

  function CountId(ids: seq<int>, x: int): nat {
    multiset(ids)[x]
  }

  lemma CountIdJoin(a: seq<int>, b: seq<int>, x: int)
    ensures CountId(a + b, x) == CountId(a, x) + CountId(b, x)
  {
  }

  lemma OneSpaceId(id: int, here: seq<LiveWindow>, name: string, x: int)
    ensures CountId(Ids(Node(id, Some(name), Workspace, None, None, None, false, Leaves(here), [])), x)
         == (if x == id then 1 else 0) + CountId(ConIds(here), x)
  {
    LeavesIds(here);
    var node := Node(id, Some(name), Workspace, None, None, None, false, Leaves(here), []);
    assert Ids(node) == [id] + ConIds(here);
    CountIdJoin([id], ConIds(here), x);
  }

  lemma {:induction false} SpaceNodeIds(spaces: seq<string>, windows: seq<LiveWindow>, x: int)
    ensures CountId(IdsAll(SpaceNodes(spaces, windows)), x)
         == SpaceId(|spaces|, x) + CountId(ConIds(Listing(spaces, windows)), x)
  {
    if spaces != [] {
      var nodes, here, rest := SpaceNodes(spaces, windows), OnSpace(windows, spaces[0]), Listing(spaces[1..], windows);
      SpaceNodeIds(spaces[1..], windows, x);
      OneSpaceId(-2 - |spaces|, here, spaces[0], x);
      ConIdsJoin(here, rest);
      CountIdJoin(ConIds(here), ConIds(rest), x);
      CountIdJoin(Ids(nodes[0]), IdsAll(nodes[1..]), x);
      assert nodes[1..] == SpaceNodes(spaces[1..], windows);
    }
  }

  lemma {:induction false} OnSpaceCount(windows: seq<LiveWindow>, ws: string, w: LiveWindow)
    ensures multiset(OnSpace(windows, ws))[w] == if w.workspace == ws then multiset(windows)[w] else 0
  {
    if windows != [] {
      OnSpaceCount(windows[1..], ws, w);
      assert windows == [windows[0]] + windows[1..];
    }
  }

  lemma {:induction false} ListingCount(spaces: seq<string>, windows: seq<LiveWindow>, w: LiveWindow)
    requires Once(spaces)
    ensures multiset(Listing(spaces, windows))[w] == if w.workspace in spaces then multiset(windows)[w] else 0
  {
    if spaces != [] {
      OnceTail(spaces);
      ListingCount(spaces[1..], windows, w);
      OnSpaceCount(windows, spaces[0], w);
    }
  }

  lemma OnceTail(xs: seq<string>)
    requires xs != [] && Once(xs)
    ensures Once(xs[1..]) && xs[0] !in xs[1..]
  {
    assert xs == [xs[0]] + xs[1..];
    assert multiset(xs)[xs[0]] <= 1;
    forall x ensures multiset(xs[1..])[x] <= 1 { assert multiset(xs)[x] <= 1; }
  }

  // ---------------------------------------------------------------- the desk of some windows

  /** Each workspace once, in order of appearance. */
  function Distinct(spaces: seq<string>): (d: seq<string>)
    ensures forall s :: s in d <==> s in spaces
  {
    if spaces == [] then []
    else
      var last := spaces[|spaces| - 1];
      assert spaces == spaces[..|spaces| - 1] + [last];
      var d := Distinct(spaces[..|spaces| - 1]);
      if last in d then d else d + [last]
  }

  function SpacesIn(windows: seq<LiveWindow>): seq<string> {
    seq(|windows|, i requires 0 <= i < |windows| => windows[i].workspace)
  }

  function DeskOf(windows: seq<LiveWindow>): Node {
    Desk(Distinct(SpacesIn(windows)), windows)
  }

  lemma {:induction false} DistinctOnce(spaces: seq<string>)
    ensures Once(Distinct(spaces))
    ensures spaces != [] ==> Distinct(spaces) != [] && Distinct(spaces)[0] == spaces[0]
  {
    if spaces != [] { DistinctOnce(spaces[..|spaces| - 1]); }
  }

  /** Windows somebody can have on his desk: distinct ids, none on the scratchpad. */
  ghost predicate Placed(windows: seq<LiveWindow>) {
    && DistinctConIds(windows)
    && forall w | w in windows :: w.conId >= 0 && w.workspace != SCRATCHPAD
  }

  lemma DeskOfLists(windows: seq<LiveWindow>)
    requires Placed(windows)
    ensures Live(DeskOf(windows), None) == Listing(Distinct(SpacesIn(windows)), windows)
    ensures multiset(Live(DeskOf(windows), None)) == multiset(windows)
  {
    var spaces := Distinct(SpacesIn(windows));
    DistinctOnce(SpacesIn(windows));
    DeskLists(spaces, windows);
    forall w ensures multiset(Listing(spaces, windows))[w] == multiset(windows)[w] {
      ListingCount(spaces, windows, w);
      if w in windows {
        var i :| 0 <= i < |windows| && windows[i] == w;
        assert SpacesIn(windows)[i] == w.workspace;
      }
    }
  }

  lemma DistinctIdsOnce(live: seq<LiveWindow>, x: int)
    requires DistinctConIds(live)
    ensures CountId(ConIds(live), x) <= 1
  {
    var ids := ConIds(live);
    if x in ids {
      var i :| 0 <= i < |ids| && ids[i] == x;
      CountOnce(ids, i);
    }
  }

  lemma DeskOfIsSound(windows: seq<LiveWindow>)
    requires Placed(windows)
    ensures Sound(DeskOf(windows))
  {
    var spaces := Distinct(SpacesIn(windows));
    DistinctOnce(SpacesIn(windows));
    DeskOfLists(windows);
    RelistedIsDistinct(windows, Listing(spaces, windows));
    DeskSpaces(spaces, windows);
    NoLowIds(windows, Listing(spaces, windows));
    DeskIdsOnce(spaces, windows);
  }

  lemma DeskIdsOnce(spaces: seq<string>, windows: seq<LiveWindow>)
    requires DistinctConIds(Listing(spaces, windows)) && NoLow(Listing(spaces, windows))
    ensures DistinctNodeIds(Desk(spaces, windows))
  {
    forall x ensures multiset(Ids(Desk(spaces, windows)))[x] <= 1 { DeskIdOnce(spaces, windows, x); }
  }

  lemma DeskIdOnce(spaces: seq<string>, windows: seq<LiveWindow>, x: int)
    requires DistinctConIds(Listing(spaces, windows)) && NoLow(Listing(spaces, windows))
    ensures CountId(Ids(Desk(spaces, windows)), x) <= 1
  {
    DeskIds(spaces, windows, x);
    SpaceNodeIds(spaces, windows, x);
    DistinctIdsOnce(Listing(spaces, windows), x);
  }

  lemma DeskSpaces(spaces: seq<string>, windows: seq<LiveWindow>)
    ensures Spaces(Desk(spaces, windows)) == spaces && Flat(Desk(spaces, windows))
  {
    var desk := Desk(spaces, windows);
    SpaceNodesSound(spaces, windows);
    assert Spaces(desk.nodes[0]) == spaces && desk.nodes[1..] == [];
  }

  lemma DeskIds(spaces: seq<string>, windows: seq<LiveWindow>, x: int)
    ensures CountId(Ids(Desk(spaces, windows)), x)
         == (if x == -1 || x == -2 then 1 else 0) + CountId(IdsAll(SpaceNodes(spaces, windows)), x)
  {
    var desk, ids := Desk(spaces, windows), IdsAll(SpaceNodes(spaces, windows));
    assert Ids(desk.nodes[0]) == [-2] + ids && desk.nodes[1..] == [];
    assert Ids(desk) == [-1] + ([-2] + ids);
    CountIdJoin([-2], ids, x);
    CountIdJoin([-1], [-2] + ids, x);
  }

  ghost predicate NoLow(listing: seq<LiveWindow>) {
    forall i | 0 <= i < |listing| :: listing[i].conId >= 0
  }

  lemma NoLowIds(windows: seq<LiveWindow>, listing: seq<LiveWindow>)
    requires Placed(windows) && multiset(listing) == multiset(windows)
    ensures NoLow(listing)
  {
    forall i | 0 <= i < |listing| ensures listing[i].conId >= 0 {
      assert listing[i] in multiset(listing);
    }
  }

  // ---------------------------------------------------------------- the first window that passes

  type Test = LiveWindow -> bool

  function FirstWindow(test: Test, live: seq<LiveWindow>): Option<LiveWindow> {
    if live == [] then None else if test(live[0]) then Some(live[0]) else FirstWindow(test, live[1..])
  }

  lemma {:induction false} FirstWindowJoin(test: Test, a: seq<LiveWindow>, b: seq<LiveWindow>)
    ensures FirstWindow(test, a + b) == if FirstWindow(test, a).Some? then FirstWindow(test, a)
      else FirstWindow(test, b)
  {
    if a == [] {
      assert a + b == b;
    } else {
      FirstWindowJoin(test, a[1..], b);
      assert (a + b)[1..] == a[1..] + b;
    }
  }

  lemma {:induction false} FirstWindowAt(test: Test, live: seq<LiveWindow>, i: nat)
    requires i < |live| && test(live[i]) && forall j | 0 <= j < i :: !test(live[j])
    ensures FirstWindow(test, live) == Some(live[i])
  {
    if i > 0 { FirstWindowAt(test, live[1..], i - 1); }
  }

  lemma {:induction false} FirstWindowNone(test: Test, live: seq<LiveWindow>)
    requires forall w | w in live :: !test(w)
    ensures FirstWindow(test, live) == None
  {
    if live != [] { FirstWindowNone(test, live[1..]); }
  }

  lemma {:induction false} FirstOnSpace(test: Test, windows: seq<LiveWindow>, ws: string)
    requires forall w | w in windows && test(w) :: w.workspace == ws
    ensures FirstWindow(test, OnSpace(windows, ws)) == FirstWindow(test, windows)
  {
    if windows != [] {
      var w, rest := windows[0], windows[1..];
      FirstOnSpace(test, rest, ws);
      FirstWindowJoin(test, if w.workspace == ws then [w] else [], OnSpace(rest, ws));
      assert w in windows;
    }
  }

  lemma {:induction false} FirstInListing(test: Test, spaces: seq<string>, windows: seq<LiveWindow>, ws: string)
    requires forall w | w in windows && test(w) :: w.workspace == ws
    ensures FirstWindow(test, Listing(spaces, windows)) == if ws in spaces then FirstWindow(test, windows) else None
  {
    if spaces != [] {
      FirstInListing(test, spaces[1..], windows, ws);
      FirstWindowJoin(test, OnSpace(windows, spaces[0]), Listing(spaces[1..], windows));
      OnSpaceAll(windows, spaces[0]);
      if spaces[0] == ws {
        FirstOnSpace(test, windows, ws);
      } else {
        FirstWindowNone(test, OnSpace(windows, spaces[0]));
      }
    }
  }

  /** If all windows that pass are on one workspace, the desk lists first the one that comes first. */
  lemma FirstOnDesk(test: Test, windows: seq<LiveWindow>, ws: string)
    requires Placed(windows) && forall w | w in windows && test(w) :: w.workspace == ws
    ensures FirstWindow(test, Live(DeskOf(windows), None)) == FirstWindow(test, windows)
  {
    DeskOfLists(windows);
    FirstInListing(test, Distinct(SpacesIn(windows)), windows, ws);
    if ws !in SpacesIn(windows) {
      forall w | w in windows ensures !test(w) {
        var i :| 0 <= i < |windows| && windows[i] == w;
        assert SpacesIn(windows)[i] == w.workspace;
      }
      FirstWindowNone(test, windows);
    }
  }

  /** The first window heads the list of its desk. */
  lemma HeadOfDesk(windows: seq<LiveWindow>)
    requires Placed(windows) && windows != []
    ensures Live(DeskOf(windows), None) != [] && Live(DeskOf(windows), None)[0] == windows[0]
  {
    DeskOfLists(windows);
    DistinctOnce(SpacesIn(windows));
  }
}
