/** The walks over a sway tree as lists: every node in tree order, with the workspace it stands on. */
module TreeListing {
  import opened Prelude
  import opened SwayTree

  /** A node and the workspace around it, itself included. */
  datatype Visit = Visit(node: Node, workspace: Option<string>)

  /** All nodes in tree order, tiled before floating; the scratchpad with all that is in it left out. */
  function Visits(n: Node, ws: Option<string>): seq<Visit>
    decreases n, 1
  {
    if n.nodeType == Workspace && n.name == Some("__i3_scratch") then []
    else
      var here := if n.nodeType == Workspace then Some(if n.name.Some? then n.name.value else "") else ws;
      [Visit(n, here)] + (VisitsAll(n.nodes, here) + VisitsAll(n.floatingNodes, here))
  }

  function VisitsAll(ns: seq<Node>, ws: Option<string>): seq<Visit>
    decreases ns, 0
  {
    if ns == [] then [] else Visits(ns[0], ws) + VisitsAll(ns[1..], ws)
  }

  /** A node below a workspace that names its application. */
  predicate IsWindow(v: Visit) {
    v.node.nodeType != Workspace && v.workspace.Some? && (v.node.appId.Some? || v.node.windowClass.Some?)
  }

  /** `w` is the snapshot of the window at `v`. */
  predicate SnapshotOf(v: Visit, w: WindowSnapshot, read: CmdlineReader) {
    && v.workspace == Some(w.workspace)
    && (if v.node.appId.Some? then v.node.appId == Some(w.appId) else v.node.windowClass == Some(w.appId))
    && (v.node.name == Some(w.title) || (v.node.name.None? && w.title == ""))
    && w.cmdline == (if v.node.pid.Some? then read(v.node.pid.value) else None)
    && (w.floating <==> v.node.nodeType == FloatingCon)
  }

  /** `w` is the live window at `v`. */
  predicate LiveAt(v: Visit, w: LiveWindow) {
    && v.node.id == w.conId && v.workspace == Some(w.workspace)
    && (if v.node.appId.Some? then v.node.appId == Some(w.appId) else v.node.windowClass == Some(w.appId))
    && (v.node.name == Some(w.title) || (v.node.name.None? && w.title == ""))
  }

  function Windows(vs: seq<Visit>): seq<Visit> {
    if vs == [] then [] else (if IsWindow(vs[0]) then [vs[0]] else []) + Windows(vs[1..])
  }

  lemma {:induction false} WindowsJoin(a: seq<Visit>, b: seq<Visit>)
    ensures Windows(a + b) == Windows(a) + Windows(b)
  {
    if a == [] {
      assert a + b == b;
    } else {
      var one := if IsWindow(a[0]) then [a[0]] else [];
      WindowsJoin(a[1..], b);
      assert (a + b)[1..] == a[1..] + b;
      assert one + (Windows(a[1..]) + Windows(b)) == one + Windows(a[1..]) + Windows(b);
    }
  }

  // ---------------------------------------------------------------- capture

  ghost predicate Snapshots(vs: seq<Visit>, ws: seq<WindowSnapshot>, read: CmdlineReader) {
    |vs| == |ws| && forall i | 0 <= i < |vs| :: SnapshotOf(vs[i], ws[i], read)
  }

  lemma SnapshotsJoin(a: seq<Visit>, b: seq<Visit>, x: seq<WindowSnapshot>, y: seq<WindowSnapshot>, read: CmdlineReader)
    requires Snapshots(Windows(a), x, read) && Snapshots(Windows(b), y, read)
    ensures Snapshots(Windows(a + b), x + y, read)
  {
    WindowsJoin(a, b);
  }

  lemma CapturedHereIs(n: Node, ws: Option<string>, read: CmdlineReader)
    ensures Snapshots(Windows([Visit(n, Below(n, ws))]), CapturedHere(n, ws, read), read)
  {
    assert [Visit(n, Below(n, ws))][1..] == [];
  }

  /** A capture lists the windows of the tree in order, each as it is: its workspace, its Wayland app id or
      else its class, its title, the command line of its process, and whether it floats. */
  lemma {:induction false} CaptureListsWindows(n: Node, ws: Option<string>, read: CmdlineReader)
    ensures Snapshots(Windows(Visits(n, ws)), Captured(n, ws, read), read)
    decreases n, 1
  {
    if !Skipped(n) {
      var here := Below(n, ws);
      CapturedHereIs(n, ws, read);
      AllCaptured(n.nodes, here, read);
      AllCaptured(n.floatingNodes, here, read);
      SnapshotsJoin(VisitsAll(n.nodes, here), VisitsAll(n.floatingNodes, here), CapturedAll(n.nodes, here, read),
        CapturedAll(n.floatingNodes, here, read), read);
      SnapshotsJoin([Visit(n, here)], VisitsAll(n.nodes, here) + VisitsAll(n.floatingNodes, here),
        CapturedHere(n, ws, read), CapturedAll(n.nodes, here, read) + CapturedAll(n.floatingNodes, here, read), read);
    }
  }

  lemma {:induction false} AllCaptured(ns: seq<Node>, ws: Option<string>, read: CmdlineReader)
    ensures Snapshots(Windows(VisitsAll(ns, ws)), CapturedAll(ns, ws, read), read)
    decreases ns, 0
  {
    if ns != [] {
      CaptureListsWindows(ns[0], ws, read);
      AllCaptured(ns[1..], ws, read);
      SnapshotsJoin(Visits(ns[0], ws), VisitsAll(ns[1..], ws), Captured(ns[0], ws, read),
        CapturedAll(ns[1..], ws, read), read);
    }
  }

  // ---------------------------------------------------------------- live windows

  ghost predicate Lives(vs: seq<Visit>, ws: seq<LiveWindow>) {
    |vs| == |ws| && forall i | 0 <= i < |vs| :: LiveAt(vs[i], ws[i])
  }

  lemma LivesJoin(a: seq<Visit>, b: seq<Visit>, x: seq<LiveWindow>, y: seq<LiveWindow>)
    requires Lives(Windows(a), x) && Lives(Windows(b), y)
    ensures Lives(Windows(a + b), x + y)
  {
    WindowsJoin(a, b);
  }

  lemma LiveHereIs(n: Node, ws: Option<string>)
    ensures Lives(Windows([Visit(n, Below(n, ws))]), LiveHere(n, ws))
  {
    assert [Visit(n, Below(n, ws))][1..] == [];
  }

  /** Flattening lists the same windows, each under its node's id. */
  lemma {:induction false} FlattenListsWindows(n: Node, ws: Option<string>)
    ensures Lives(Windows(Visits(n, ws)), Live(n, ws))
    decreases n, 1
  {
    if !Skipped(n) {
      var here := Below(n, ws);
      LiveHereIs(n, ws);
      AllLive(n.nodes, here);
      AllLive(n.floatingNodes, here);
      LivesJoin(VisitsAll(n.nodes, here), VisitsAll(n.floatingNodes, here), LiveAll(n.nodes, here),
        LiveAll(n.floatingNodes, here));
      LivesJoin([Visit(n, here)], VisitsAll(n.nodes, here) + VisitsAll(n.floatingNodes, here),
        LiveHere(n, ws), LiveAll(n.nodes, here) + LiveAll(n.floatingNodes, here));
    }
  }

  lemma {:induction false} AllLive(ns: seq<Node>, ws: Option<string>)
    ensures Lives(Windows(VisitsAll(ns, ws)), LiveAll(ns, ws))
    decreases ns, 0
  {
    if ns != [] {
      FlattenListsWindows(ns[0], ws);
      AllLive(ns[1..], ws);
      LivesJoin(Visits(ns[0], ws), VisitsAll(ns[1..], ws), Live(ns[0], ws), LiveAll(ns[1..], ws));
    }
  }

  // ---------------------------------------------------------------- focus

  /** The workspace around the first focused node that is on one. */
  function FirstFocused(vs: seq<Visit>): Option<string> {
    if vs == [] then None
    else if vs[0].node.focused && vs[0].workspace.Some? then vs[0].workspace
    else FirstFocused(vs[1..])
  }

  lemma {:induction false} FirstFocusedJoin(a: seq<Visit>, b: seq<Visit>)
    ensures FirstFocused(a + b) == if FirstFocused(a).Some? then FirstFocused(a) else FirstFocused(b)
  {
    if a == [] {
      assert a + b == b;
    } else {
      FirstFocusedJoin(a[1..], b);
      assert (a + b)[1..] == a[1..] + b;
    }
  }

  lemma {:induction false} FocusIsFirst(n: Node, ws: Option<string>)
    ensures Focused(n, ws) == FirstFocused(Visits(n, ws))
    decreases n, 1
  {
    if !Skipped(n) {
      var here := Below(n, ws);
      var one := [Visit(n, here)];
      AllFocused(n.nodes, here);
      AllFocused(n.floatingNodes, here);
      FirstFocusedJoin(VisitsAll(n.nodes, here), VisitsAll(n.floatingNodes, here));
      FirstFocusedJoin(one, VisitsAll(n.nodes, here) + VisitsAll(n.floatingNodes, here));
      assert one[1..] == [] && FirstFocused(one) == if n.focused then here else None;
    }
  }

  lemma {:induction false} AllFocused(ns: seq<Node>, ws: Option<string>)
    ensures FocusedAll(ns, ws) == FirstFocused(VisitsAll(ns, ws))
    decreases ns, 0
  {
    if ns != [] {
      FocusIsFirst(ns[0], ws);
      AllFocused(ns[1..], ws);
      FirstFocusedJoin(Visits(ns[0], ws), VisitsAll(ns[1..], ws));
    }
  }
}
