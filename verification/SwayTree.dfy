/** Capturing the desktop from a sway tree, and flattening a live tree for the restore planner. */
module SwayTree {
  import opened Prelude

  datatype NodeType = Root | Output | Workspace | Con | FloatingCon | Dockarea

  datatype Node = Node(
    id: int,
    name: Option<string>,
    nodeType: NodeType,
    appId: Option<string>,
    windowClass: Option<string>,
    pid: Option<int>,
    focused: bool,
    nodes: seq<Node>,
    floatingNodes: seq<Node>)

  datatype WindowSnapshot = WindowSnapshot(
    workspace: string, appId: string, title: string, cmdline: Option<seq<string>>, floating: bool)

  datatype ContextSnapshot = ContextSnapshot(name: string, focusedWorkspace: Option<string>,
                                             windows: seq<WindowSnapshot>)

  datatype LiveWindow = LiveWindow(conId: int, workspace: string, appId: string, title: string)

  const SCRATCHPAD := "__i3_scratch"

  type CmdlineReader = int -> Option<seq<string>>

  function TextOr<T>(t: Option<T>, default: T): T {
    if t.Some? then t.value else default
  }

  // ---------------------------------------------------------------- one node

  /** App id and title of a window node: the Wayland app id, else the XWayland class. */
  function WindowFromNodeForRestore(n: Node): Option<(string, string)> {
    var app := if n.appId.Some? then n.appId else n.windowClass;
    if app.None? then None else Some((app.value, TextOr(n.name, "")))
  }

  function WindowFromNode(n: Node, workspace: string, read: CmdlineReader): Option<WindowSnapshot> {
    var app := if n.appId.Some? then n.appId else n.windowClass;
    if app.None? then None
    else
      var cmdline := if n.pid.Some? then read(n.pid.value) else None;
      Some(WindowSnapshot(workspace, app.value, TextOr(n.name, ""), cmdline, n.nodeType == FloatingCon))
  }

  /** The workspace in force below a node; None inside the scratchpad subtree is decided by `Skipped`. */
  function Below(n: Node, ws: Option<string>): Option<string> {
    if n.nodeType == Workspace then Some(TextOr(n.name, "")) else ws
  }

  predicate Skipped(n: Node) {
    n.nodeType == Workspace && TextOr(n.name, "") == SCRATCHPAD
  }

  // ---------------------------------------------------------------- what the walks collect

  function CapturedHere(n: Node, ws: Option<string>, read: CmdlineReader): seq<WindowSnapshot> {
    if n.nodeType == Workspace || ws.None? then []
    else
      var w := WindowFromNode(n, ws.value, read);
      if w.Some? then [w.value] else []
  }

  function Captured(n: Node, ws: Option<string>, read: CmdlineReader): seq<WindowSnapshot>
    decreases n, 1
  {
    if Skipped(n) then []
    else
      CapturedHere(n, ws, read)
      + (CapturedAll(n.nodes, Below(n, ws), read) + CapturedAll(n.floatingNodes, Below(n, ws), read))
  }

  function CapturedAll(ns: seq<Node>, ws: Option<string>, read: CmdlineReader): seq<WindowSnapshot>
    decreases ns, 0
  {
    if ns == [] then [] else Captured(ns[0], ws, read) + CapturedAll(ns[1..], ws, read)
  }

  function LiveHere(n: Node, ws: Option<string>): seq<LiveWindow> {
    if n.nodeType == Workspace || ws.None? then []
    else
      var w := WindowFromNodeForRestore(n);
      if w.Some? then [LiveWindow(n.id, ws.value, w.value.0, w.value.1)] else []
  }

  function Live(n: Node, ws: Option<string>): seq<LiveWindow>
    decreases n, 1
  {
    if Skipped(n) then []
    else LiveHere(n, ws) + (LiveAll(n.nodes, Below(n, ws)) + LiveAll(n.floatingNodes, Below(n, ws)))
  }

  function LiveAll(ns: seq<Node>, ws: Option<string>): seq<LiveWindow>
    decreases ns, 0
  {
    if ns == [] then [] else Live(ns[0], ws) + LiveAll(ns[1..], ws)
  }

  function FirstSome<T>(a: Option<T>, b: Option<T>): Option<T> {
    if a.Some? then a else b
  }

  /** The workspace around the first focused node, in tree order. */
  function Focused(n: Node, ws: Option<string>): Option<string>
    decreases n, 1
  {
    if Skipped(n) then None
    else
      var here := if n.focused then Below(n, ws) else None;
      FirstSome(FirstSome(here, FocusedAll(n.nodes, Below(n, ws))), FocusedAll(n.floatingNodes, Below(n, ws)))
  }

  function FocusedAll(ns: seq<Node>, ws: Option<string>): Option<string>
    decreases ns, 0
  {
    if ns == [] then None else FirstSome(Focused(ns[0], ws), FocusedAll(ns[1..], ws))
  }

  // ---------------------------------------------------------------- the walks

  method CaptureWalk(n: Node, ws: Option<string>, windows: seq<WindowSnapshot>, focused: Option<string>,
                     read: CmdlineReader)
    returns (out: seq<WindowSnapshot>, focus: Option<string>)
    ensures out == windows + Captured(n, ws, read)
    ensures focus == FirstSome(focused, Focused(n, ws))
    decreases n, 1
  {
    out, focus := windows, focused;
    var active := ws;
    if n.nodeType == Workspace {
      var name := TextOr(n.name, "");
      if name == SCRATCHPAD { return; }
      active := Some(name);
    } else if active.Some? {
      var w := WindowFromNode(n, active.value, read);
      if w.Some? { out := out + [w.value]; }
    }
    if n.focused && focus.None? && active.Some? {
      focus := active;
    }
    assert out == windows + CapturedHere(n, ws, read);
    AppendThrice(windows, CapturedHere(n, ws, read), CapturedAll(n.nodes, active, read),
      CapturedAll(n.floatingNodes, active, read));
    out, focus := CaptureWalkAll(n.nodes, active, out, focus, read);
    out, focus := CaptureWalkAll(n.floatingNodes, active, out, focus, read);
  }

  method CaptureWalkAll(ns: seq<Node>, ws: Option<string>, windows: seq<WindowSnapshot>, focused: Option<string>,
                        read: CmdlineReader)
    returns (out: seq<WindowSnapshot>, focus: Option<string>)
    ensures out == windows + CapturedAll(ns, ws, read)
    ensures focus == FirstSome(focused, FocusedAll(ns, ws))
    decreases ns, 0
  {
    out, focus := windows, focused;
    for i := 0 to |ns|
      invariant out + CapturedAll(ns[i..], ws, read) == windows + CapturedAll(ns, ws, read)
      invariant FirstSome(focus, FocusedAll(ns[i..], ws)) == FirstSome(focused, FocusedAll(ns, ws))
    {
      assert ns[i..][0] == ns[i] && ns[i..][1..] == ns[i + 1..];
      out, focus := CaptureWalk(ns[i], ws, out, focus, read);
    }
  }

  method CaptureFromTree(name: string, tree: Node, read: CmdlineReader) returns (snapshot: ContextSnapshot)
    ensures snapshot == ContextSnapshot(name, Focused(tree, None), Captured(tree, None, read))
  {
    var windows, focus := CaptureWalk(tree, None, [], None, read);
    snapshot := ContextSnapshot(name, focus, windows);
  }

  method LiveWalk(n: Node, ws: Option<string>, windows: seq<LiveWindow>) returns (out: seq<LiveWindow>)
    ensures out == windows + Live(n, ws)
    decreases n, 1
  {
    out := windows;
    var active := ws;
    if n.nodeType == Workspace {
      var name := TextOr(n.name, "");
      if name == SCRATCHPAD { return; }
      active := Some(name);
    } else if active.Some? {
      var w := WindowFromNodeForRestore(n);
      if w.Some? { out := out + [LiveWindow(n.id, active.value, w.value.0, w.value.1)]; }
    }
    assert out == windows + LiveHere(n, ws);
    AppendThrice(windows, LiveHere(n, ws), LiveAll(n.nodes, active), LiveAll(n.floatingNodes, active));
    out := LiveWalkAll(n.nodes, active, out);
    out := LiveWalkAll(n.floatingNodes, active, out);
  }

  method LiveWalkAll(ns: seq<Node>, ws: Option<string>, windows: seq<LiveWindow>) returns (out: seq<LiveWindow>)
    ensures out == windows + LiveAll(ns, ws)
    decreases ns, 0
  {
    out := windows;
    for i := 0 to |ns|
      invariant out + LiveAll(ns[i..], ws) == windows + LiveAll(ns, ws)
    {
      assert ns[i..][0] == ns[i] && ns[i..][1..] == ns[i + 1..];
      out := LiveWalk(ns[i], ws, out);
    }
  }

  method FlattenLiveWindows(tree: Node) returns (live: seq<LiveWindow>)
    ensures live == Live(tree, None)
  {
    live := LiveWalk(tree, None, []);
  }

  // ---------------------------------------------------------------- the two walks agree

  /** The walks found the same windows, in the same order, on the same workspaces. */
  ghost predicate Agree(saved: seq<WindowSnapshot>, live: seq<LiveWindow>) {
    && |saved| == |live|
    && forall i | 0 <= i < |saved| ::
         saved[i].workspace == live[i].workspace && saved[i].appId == live[i].appId && saved[i].title == live[i].title
  }

  lemma AgreeJoin(a: seq<WindowSnapshot>, b: seq<WindowSnapshot>, c: seq<LiveWindow>, d: seq<LiveWindow>)
    requires Agree(a, c) && Agree(b, d)
    ensures Agree(a + b, c + d)
  {
  }

  lemma {:induction false} WalksAgree(n: Node, ws: Option<string>, read: CmdlineReader)
    ensures Agree(Captured(n, ws, read), Live(n, ws))
    decreases n, 1
  {
    if !Skipped(n) {
      var b := Below(n, ws);
      AllWalksAgree(n.nodes, b, read);
      AllWalksAgree(n.floatingNodes, b, read);
      AgreeJoin(CapturedAll(n.nodes, b, read), CapturedAll(n.floatingNodes, b, read), LiveAll(n.nodes, b),
        LiveAll(n.floatingNodes, b));
      AgreeJoin(CapturedHere(n, ws, read), CapturedAll(n.nodes, b, read) + CapturedAll(n.floatingNodes, b, read),
                LiveHere(n, ws), LiveAll(n.nodes, b) + LiveAll(n.floatingNodes, b));
    }
  }

  lemma {:induction false} AllWalksAgree(ns: seq<Node>, ws: Option<string>, read: CmdlineReader)
    ensures Agree(CapturedAll(ns, ws, read), LiveAll(ns, ws))
    decreases ns, 0
  {
    if ns != [] {
      WalksAgree(ns[0], ws, read);
      AllWalksAgree(ns[1..], ws, read);
      AgreeJoin(Captured(ns[0], ws, read), CapturedAll(ns[1..], ws, read), Live(ns[0], ws), LiveAll(ns[1..], ws));
    }
  }

  // ---------------------------------------------------------------- node ids

  /** All node ids of a tree, in tree order. */
  function Ids(n: Node): seq<int>
    decreases n, 1
  {
    [n.id] + IdsAll(n.nodes) + IdsAll(n.floatingNodes)
  }

  function IdsAll(ns: seq<Node>): seq<int>
    decreases ns, 0
  {
    if ns == [] then [] else Ids(ns[0]) + IdsAll(ns[1..])
  }

  function ConIds(live: seq<LiveWindow>): seq<int> {
    seq(|live|, i requires 0 <= i < |live| => live[i].conId)
  }

  lemma ConIdsJoin(a: seq<LiveWindow>, b: seq<LiveWindow>)
    ensures ConIds(a + b) == ConIds(a) + ConIds(b)
  {
  }

  /** No live window is counted under an id more often than nodes carry that id. */
  lemma {:induction false} LiveIds(n: Node, ws: Option<string>)
    ensures multiset(ConIds(Live(n, ws))) <= multiset(Ids(n))
    decreases n, 1
  {
    if !Skipped(n) {
      var b := Below(n, ws);
      AllLiveIds(n.nodes, b);
      AllLiveIds(n.floatingNodes, b);
      ConIdsJoin(LiveAll(n.nodes, b), LiveAll(n.floatingNodes, b));
      ConIdsJoin(LiveHere(n, ws), LiveAll(n.nodes, b) + LiveAll(n.floatingNodes, b));
      assert multiset(ConIds(LiveHere(n, ws))) <= multiset([n.id]);
    }
  }

  lemma {:induction false} AllLiveIds(ns: seq<Node>, ws: Option<string>)
    ensures multiset(ConIds(LiveAll(ns, ws))) <= multiset(IdsAll(ns))
    decreases ns, 0
  {
    if ns != [] {
      LiveIds(ns[0], ws);
      AllLiveIds(ns[1..], ws);
      ConIdsJoin(Live(ns[0], ws), LiveAll(ns[1..], ws));
    }
  }

  ghost predicate DistinctNodeIds(tree: Node) {
    forall x :: multiset(Ids(tree))[x] <= 1
  }

  ghost predicate DistinctConIds(live: seq<LiveWindow>) {
    forall i, j | 0 <= i < j < |live| :: live[i].conId != live[j].conId
  }

  lemma {:induction false} LiveIdsDistinct(tree: Node)
    requires DistinctNodeIds(tree)
    ensures DistinctConIds(Live(tree, None))
  {
    var live := Live(tree, None);
    var ids := ConIds(live);
    LiveIds(tree, None);
    forall i, j | 0 <= i < j < |live| ensures live[i].conId != live[j].conId {
      assert multiset(Ids(tree))[ids[j]] <= 1;
      if ids[i] == ids[j] { CountTwice(ids, i, j); }
    }
  }
}
