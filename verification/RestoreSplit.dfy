/** The windows of an app saved on one workspace, parted by one saved elsewhere: a desktop that restoring
    twice disturbs. */
module RestoreSplit {
  import opened Prelude
  import opened SwayTree
  import opened Restore
  import opened RestoreMatching
  import opened RestoreAgain
  import opened RestoreRuns
  import opened RestoreSteady
  import opened Desks
  import opened RestoreRestless
  import opened RestoreScenes

  // ---------------------------------------------------------------- the earliest split

  /** Saved windows `i` and `l` of an app share a workspace, and `m` between them is of that app elsewhere. */
  predicate Parts(windows: seq<WindowSnapshot>, i: nat, m: nat, l: nat) {
    && i < m < l < |windows| && SameSeat(windows[i], windows[l])
    && windows[m].appId == windows[i].appId && windows[m].workspace != windows[i].workspace
  }

  /** A split ends at `l`. */
  ghost predicate SplitEnds(windows: seq<WindowSnapshot>, l: nat) {
    exists i: nat, m: nat :: Parts(windows, i, m, l)
  }

  /** A split that ends at `l` starts at `i`. */
  ghost predicate SplitStarts(windows: seq<WindowSnapshot>, l: nat, i: nat) {
    exists m: nat :: Parts(windows, i, m, l)
  }

  lemma FirstEnd(windows: seq<WindowSnapshot>) returns (l: nat)
    requires !SeatsTogether(windows)
    ensures l < |windows| && SplitEnds(windows, l) && forall k | 0 <= k < l :: !SplitEnds(windows, k)
  {
    var i, m, b :| 0 <= i < m < b < |windows| && SameSeat(windows[i], windows[b])
                   && windows[m].appId == windows[i].appId && windows[m].workspace != windows[i].workspace;
    assert Parts(windows, i, m, b);
    l := 0;
    while !SplitEnds(windows, l)
      invariant l <= b && forall k | 0 <= k < l :: !SplitEnds(windows, k)
      decreases b - l
    {
      l := l + 1;
    }
  }

  lemma LastStart(windows: seq<WindowSnapshot>, l: nat) returns (i: nat)
    requires l < |windows| && SplitEnds(windows, l)
    ensures SplitStarts(windows, l, i) && forall k | i < k < l :: !SplitStarts(windows, l, k)
  {
    var a: nat, m: nat :| Parts(windows, a, m, l);
    assert SplitStarts(windows, l, a);
    i := l;
    while !SplitStarts(windows, l, i)
      invariant a <= i && forall k | i < k < l :: !SplitStarts(windows, l, k)
      decreases i - a
    {
      i := i - 1;
    }
  }

  /** `m` is the next window of the app after `i`, elsewhere; `l` the next one on the workspace of `i`;
      nobody before `m` carries its title. */
  ghost predicate Earliest(windows: seq<WindowSnapshot>, i: nat, m: nat, l: nat) {
    && Parts(windows, i, m, l)
    && (forall k | i < k < m :: windows[k].appId != windows[i].appId)
    && (forall k | i < k < l :: !SameSeat(windows[k], windows[i]))
    && (forall k | 0 <= k < m :: !SameName(windows[k], windows[m]))
  }

  lemma NextOfApp(windows: seq<WindowSnapshot>, i: nat, l: nat) returns (m: nat)
    requires i < l < |windows| && SameSeat(windows[i], windows[l])
    ensures i < m <= l && windows[m].appId == windows[i].appId
    ensures forall k | i < k < m :: windows[k].appId != windows[i].appId
  {
    m := i + 1;
    while windows[m].appId != windows[i].appId
      invariant i < m <= l && forall k | i < k < m :: windows[k].appId != windows[i].appId
      decreases l - m
    {
      m := m + 1;
    }
  }

  lemma EarliestSplit(windows: seq<WindowSnapshot>) returns (i: nat, m: nat, l: nat)
    requires TitlesTogether(windows) && !SeatsTogether(windows)
    ensures Earliest(windows, i, m, l)
  {
    l := FirstEnd(windows);
    i := LastStart(windows, l);
    var b: nat :| Parts(windows, i, b, l);
    m := NextOfApp(windows, i, l);
    assert m <= b;
    if windows[m].workspace == windows[i].workspace { assert Parts(windows, m, b, l) && SplitStarts(windows, l, m); }
    EarliestIsClean(windows, i, m, l);
  }

  lemma EarliestIsClean(windows: seq<WindowSnapshot>, i: nat, m: nat, l: nat)
    requires TitlesTogether(windows) && Parts(windows, i, m, l) && forall k | 0 <= k < l :: !SplitEnds(windows, k)
    requires forall k | i < k < m :: windows[k].appId != windows[i].appId
    ensures Earliest(windows, i, m, l)
  {
    forall k | i < k < l ensures !SameSeat(windows[k], windows[i]) {
      if SameSeat(windows[k], windows[i]) { assert Parts(windows, i, m, k) && SplitEnds(windows, k); }
    }
    forall k | 0 <= k < m ensures !SameName(windows[k], windows[m]) {
      if SameName(windows[k], windows[m]) { assert Parts(windows, k, i, m) && SplitEnds(windows, m); }
    }
  }

  // ---------------------------------------------------------------- the scene

  /** A crew up to number `l` under a title nobody saved, but number `i` carries the title of `m`. */
  function Strangers(windows: seq<WindowSnapshot>, i: nat, m: nat, l: nat): seq<LiveWindow>
    requires i < m < l < |windows|
  {
    seq(l + 1, k requires 0 <= k <= l =>
      LiveWindow(k, NewSpace(windows), windows[k].appId, if k == i then windows[m].title else NewTitle(windows)))
  }

  /** The crew on its workspaces, number `i` behind all others. */
  function FallBack(windows: seq<WindowSnapshot>, i: nat, m: nat, l: nat): seq<LiveWindow>
    requires i < m < l < |windows|
  {
    var settled := Settled(windows, Strangers(windows, i, m, l));
    settled[..i] + settled[i + 1..] + [settled[i]]
  }

  lemma FallIsRelisting(windows: seq<WindowSnapshot>, i: nat, m: nat, l: nat)
    requires i < m < l < |windows|
    ensures multiset(FallBack(windows, i, m, l)) == multiset(Settled(windows, Strangers(windows, i, m, l)))
  {
    Reordered(Settled(windows, Strangers(windows, i, m, l)), i);
  }

  lemma StrangersLineUp(windows: seq<WindowSnapshot>, i: nat, m: nat, l: nat)
    requires Earliest(windows, i, m, l)
    ensures LinesUp(windows, Strangers(windows, i, m, l))
  {
    var crew := Strangers(windows, i, m, l);
    NewNames(windows);
    forall k, p | 0 <= k <= p < |crew| ensures !Matches(windows[k], crew[p]) {
      if p == i { assert !SameName(windows[k], windows[m]); }
    }
  }

  lemma StrangersAreFew(windows: seq<WindowSnapshot>, i: nat, m: nat, l: nat)
    requires Earliest(windows, i, m, l)
    ensures NothingExtra(windows, Strangers(windows, i, m, l))
  {
    var crew := Strangers(windows, i, m, l);
    NewNames(windows);
    forall k | 0 <= k < |windows|
      ensures NoneExtra(OfApp(windows[k].appId), windows, crew)
      ensures NoneExtra(Named(windows[k].appId, windows[k].title), windows, crew)
    {
      var app, name := OfApp(windows[k].appId), Named(windows[k].appId, windows[k].title);
      Fewer(LiveOf(app, crew), SavedOf(app, windows));
      if SameName(windows[k], windows[m]) {
        assert m in SavedOf(name, windows);
        Fewer(LiveOf(name, crew), {i});
        Fewer({m}, SavedOf(name, windows));
      } else {
        assert LiveOf(name, crew) == {};
      }
    }
  }

  lemma Fewer(a: set<int>, b: set<int>)
    requires a <= b
    ensures |a| <= |b|
  {
    Pigeonhole(map x | x in a :: x, a, b);
  }

  // ---------------------------------------------------------------- the second restore

  /** Who has been given a window when `k` is served: his own, except that `i` was given that of `l`. */
  ghost predicate SwappedTill(taken: set<int>, i: nat, l: nat, k: nat) {
    forall x :: x in taken <==> (0 <= x < k && x != i) || (x == l && i < k)
  }

  /** Only number `i` carries a saved title, that of `m`. */
  lemma StrangerTitles(windows: seq<WindowSnapshot>, i: nat, m: nat, l: nat, k: nat, taken: set<int>)
    requires Earliest(windows, i, m, l) && k <= m
    ensures forall w | w in FallBack(windows, i, m, l) && SameTitle(windows[k], taken, w) :: k == m && w.conId == i
  {
    var settled := Settled(windows, Strangers(windows, i, m, l));
    NewNames(windows);
    FallIsRelisting(windows, i, m, l);
    SameWindows(FallBack(windows, i, m, l), settled);
    forall p | 0 <= p < |settled| && SameTitle(windows[k], taken, settled[p]) ensures k == m && p == i {
      assert p == i;
      assert SameName(windows[k], windows[m]);
    }
  }

  /** The place of number `x` at the back desk. */
  lemma FallenAt(windows: seq<WindowSnapshot>, i: nat, m: nat, l: nat, p: nat)
    requires i < m < l < |windows| && p <= l
    ensures var x := if p < i then p else if p < l then p + 1 else i;
      FallBack(windows, i, m, l)[p] == Settled(windows, Strangers(windows, i, m, l))[x]
  {
  }

  /** Before `m`, the first free window of the app on the workspace of `k` is his own, or that of `l` for `i`. */
  lemma NextOnSpace(windows: seq<WindowSnapshot>, i: nat, m: nat, l: nat, k: nat, taken: set<int>)
    requires Earliest(windows, i, m, l) && k < m && SwappedTill(taken, i, l, k)
    ensures FirstWindow(BySpace(windows[k], taken), FallBack(windows, i, m, l))
         == Some(Settled(windows, Strangers(windows, i, m, l))[if k == i then l else k])
  {
    var desk, test := FallBack(windows, i, m, l), BySpace(windows[k], taken);
    var at := if k < i then k else if k == i then l - 1 else k - 1;
    FallenAt(windows, i, m, l, at);
    forall p | 0 <= p < at ensures !test(desk[p]) {
      NotBefore(windows, i, m, l, k, taken, p);
    }
    FirstWindowAt(test, desk, at);
  }

  lemma NotBefore(windows: seq<WindowSnapshot>, i: nat, m: nat, l: nat, k: nat, taken: set<int>, p: nat)
    requires Earliest(windows, i, m, l) && k < m && SwappedTill(taken, i, l, k)
    requires p < if k < i then k else if k == i then l - 1 else k - 1
    ensures !SameSpace(windows[k], taken, FallBack(windows, i, m, l)[p])
  {
    FallenAt(windows, i, m, l, p);
  }

  lemma SwapStep(windows: seq<WindowSnapshot>, two: seq<Option<nat>>, i: nat, m: nat, l: nat, k: nat)
    requires OffScratchpad(windows) && Earliest(windows, i, m, l) && k < m
    requires IsRun(windows, Live(DeskOf(FallBack(windows, i, m, l)), None), two)
    requires SwappedTill(Taken(Live(DeskOf(FallBack(windows, i, m, l)), None), two, k), i, l, k)
    ensures SwappedTill(Taken(Live(DeskOf(FallBack(windows, i, m, l)), None), two, k + 1), i, l, k + 1)
  {
    var listed := Live(DeskOf(FallBack(windows, i, m, l)), None);
    SwapGets(windows, two, i, m, l, k);
    TakenByGetting(listed, two, k, Settled(windows, Strangers(windows, i, m, l))[if k == i then l else k]);
  }

  lemma SwapGets(windows: seq<WindowSnapshot>, two: seq<Option<nat>>, i: nat, m: nat, l: nat, k: nat)
    requires OffScratchpad(windows) && Earliest(windows, i, m, l) && k < m
    requires IsRun(windows, Live(DeskOf(FallBack(windows, i, m, l)), None), two)
    requires SwappedTill(Taken(Live(DeskOf(FallBack(windows, i, m, l)), None), two, k), i, l, k)
    ensures Gets(Live(DeskOf(FallBack(windows, i, m, l)), None), two, k,
                 Settled(windows, Strangers(windows, i, m, l))[if k == i then l else k])
  {
    var desk := FallBack(windows, i, m, l);
    var listed := Live(DeskOf(desk), None);
    var taken, w := Taken(listed, two, k), Settled(windows, Strangers(windows, i, m, l))[if k == i then l else k];
    StrangersLineUp(windows, i, m, l);
    FallIsRelisting(windows, i, m, l);
    SettledIsPlaced(windows, Strangers(windows, i, m, l), desk);
    DeskOfLists(desk);
    SameWindows(listed, desk);
    StrangerTitles(windows, i, m, l, k, taken);
    NextOnSpace(windows, i, m, l, k, taken);
    FirstOnDesk(BySpace(windows[k], taken), desk, windows[k].workspace);
    GetsBySpace(windows, listed, two, k, w);
  }

  lemma SwapTill(windows: seq<WindowSnapshot>, two: seq<Option<nat>>, i: nat, m: nat, l: nat)
    requires OffScratchpad(windows) && Earliest(windows, i, m, l)
    requires IsRun(windows, Live(DeskOf(FallBack(windows, i, m, l)), None), two)
    ensures SwappedTill(Taken(Live(DeskOf(FallBack(windows, i, m, l)), None), two, m), i, l, m)
  {
    for k := 0 to m
      invariant SwappedTill(Taken(Live(DeskOf(FallBack(windows, i, m, l)), None), two, k), i, l, k)
    {
      SwapStep(windows, two, i, m, l, k);
    }
  }

  lemma TitleComesBack(windows: seq<WindowSnapshot>, i: nat, m: nat, l: nat, taken: set<int>)
    requires Earliest(windows, i, m, l) && SwappedTill(taken, i, l, m)
    ensures FirstWindow(ByTitle(windows[m], taken), FallBack(windows, i, m, l))
         == Some(Settled(windows, Strangers(windows, i, m, l))[i])
  {
    var desk, test := FallBack(windows, i, m, l), ByTitle(windows[m], taken);
    StrangerTitles(windows, i, m, l, m, taken);
    FallenAt(windows, i, m, l, l);
    forall p | 0 <= p < l ensures !test(desk[p]) {
      FallenAt(windows, i, m, l, p);
      assert desk[p] in desk;
    }
    FirstWindowAt(test, desk, l);
  }

  lemma FallTaken(windows: seq<WindowSnapshot>, focused: Option<string>, i: nat, m: nat, l: nat)
    requires OffScratchpad(windows) && Earliest(windows, i, m, l)
    ensures PlanAll(windows, focused, Live(DeskOf(FallBack(windows, i, m, l)), None)).plan.moves != []
  {
    var desk := FallBack(windows, i, m, l);
    var listed := Live(DeskOf(desk), None);
    var two := PlanAll(windows, focused, listed).matches;
    var w := Settled(windows, Strangers(windows, i, m, l))[i];
    StrangersLineUp(windows, i, m, l);
    FallIsRelisting(windows, i, m, l);
    SettledIsPlaced(windows, Strangers(windows, i, m, l), desk);
    PlanIsRun(windows, focused, listed);
    SwapTill(windows, two, i, m, l);
    StrangerTitles(windows, i, m, l, m, Taken(listed, two, m));
    TitleComesBack(windows, i, m, l, Taken(listed, two, m));
    forall x | x in desk && ByTitle(windows[m], Taken(listed, two, m))(x) ensures x.workspace == windows[i].workspace {
      IdOnDesk(windows, i, m, l, x);
    }
    FirstOnDesk(ByTitle(windows[m], Taken(listed, two, m)), desk, windows[i].workspace);
    GetsByTitle(windows, listed, two, m, w);
    GettingMoves(windows, focused, listed, m, w);
  }

  lemma IdOnDesk(windows: seq<WindowSnapshot>, i: nat, m: nat, l: nat, x: LiveWindow)
    requires i < m < l < |windows| && x in FallBack(windows, i, m, l) && x.conId == i
    ensures x.workspace == windows[i].workspace
  {
    FallIsRelisting(windows, i, m, l);
    SameWindows(FallBack(windows, i, m, l), Settled(windows, Strangers(windows, i, m, l)));
  }

  /** Windows of an app on one workspace with one saved elsewhere between them: some desktop with nothing
      extra is disturbed. */
  lemma SplitIsRestless(windows: seq<WindowSnapshot>, focused: Option<string>) returns (first: Node, second: Node)
    requires OffScratchpad(windows) && TitlesTogether(windows) && !SeatsTogether(windows)
    ensures Restored(windows, focused, first, second) && NothingExtra(windows, Live(first, None))
    ensures PlanAll(windows, focused, Live(second, None)).plan.moves != []
  {
    var i, m, l := EarliestSplit(windows);
    var crew, desk := Strangers(windows, i, m, l), FallBack(windows, i, m, l);
    first, second := DeskOf(crew), DeskOf(desk);
    StrangersLineUp(windows, i, m, l);
    StrangersAreFew(windows, i, m, l);
    FallIsRelisting(windows, i, m, l);
    CrewIsListed(windows, crew);
    CrewIsRestored(windows, focused, crew, desk);
    FallTaken(windows, focused, i, m, l);
  }
}
