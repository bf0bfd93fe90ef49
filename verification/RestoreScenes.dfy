/** For every saved list that may need restoring twice, two trees on which it does. */
module RestoreScenes {
  import opened Prelude
  import opened SwayTree
  import opened Restore
  import opened RestoreMatching
  import opened RestoreAgain
  import opened RestoreRuns
  import opened RestoreSteady
  import opened Desks
  import opened RestoreRestless

  // ---------------------------------------------------------------- who is given what

  lemma FirstIsWindow(test: Test, live: seq<LiveWindow>)
    ensures var i := First(test, live);
      FirstWindow(test, live) == if i.Some? then Some(live[i.value]) else None
  {
    var i := First(test, live);
    if i.Some? {
      FirstWindowAt(test, live, i.value);
    } else {
      FirstWindowNone(test, live);
    }
  }

  function ByTitle(saved: WindowSnapshot, consumed: set<int>): Test {
    (w: LiveWindow) => SameTitle(saved, consumed, w)
  }

  function BySpace(saved: WindowSnapshot, consumed: set<int>): Test {
    (w: LiveWindow) => SameSpace(saved, consumed, w)
  }

  lemma BestIsByTitle(saved: WindowSnapshot, live: seq<LiveWindow>, consumed: set<int>)
    ensures var i := First(ByTitle(saved, consumed), live); i.Some? ==> Best(saved, live, consumed) == i
  {
    FirstUnique(ByTitle(saved, consumed), live, First(ByTitle(saved, consumed), live),
                First(w => SameTitle(saved, consumed, w), live));
  }

  lemma BestIsBySpace(saved: WindowSnapshot, live: seq<LiveWindow>, consumed: set<int>)
    requires First(ByTitle(saved, consumed), live).None?
    ensures var i := First(BySpace(saved, consumed), live); i.Some? ==> Best(saved, live, consumed) == i
  {
    FirstUnique(ByTitle(saved, consumed), live, None, First(w => SameTitle(saved, consumed, w), live));
    FirstUnique(BySpace(saved, consumed), live, First(BySpace(saved, consumed), live),
                First(w => SameSpace(saved, consumed, w), live));
  }

  /** Saved window `k` is given `w`. */
  ghost predicate Gets(listed: seq<LiveWindow>, two: seq<Option<nat>>, k: nat, w: LiveWindow)
    requires k < |two|
  {
    two[k].Some? && two[k].value < |listed| && listed[two[k].value] == w
  }

  lemma GetsByTitle(windows: seq<WindowSnapshot>, listed: seq<LiveWindow>, two: seq<Option<nat>>, k: nat, w: LiveWindow)
    requires IsRun(windows, listed, two) && k < |windows|
    requires FirstWindow(ByTitle(windows[k], Taken(listed, two, k)), listed) == Some(w)
    ensures Gets(listed, two, k, w)
  {
    var d := Taken(listed, two, k);
    assert RunAt(windows, listed, two, k);
    FirstIsWindow(ByTitle(windows[k], d), listed);
    BestIsByTitle(windows[k], listed, d);
  }

  lemma GetsBySpace(windows: seq<WindowSnapshot>, listed: seq<LiveWindow>, two: seq<Option<nat>>, k: nat, w: LiveWindow)
    requires IsRun(windows, listed, two) && k < |windows|
    requires forall x | x in listed :: !SameTitle(windows[k], Taken(listed, two, k), x)
    requires FirstWindow(BySpace(windows[k], Taken(listed, two, k)), listed) == Some(w)
    ensures Gets(listed, two, k, w)
  {
    var d := Taken(listed, two, k);
    assert RunAt(windows, listed, two, k);
    FirstWindowNone(ByTitle(windows[k], d), listed);
    FirstIsWindow(ByTitle(windows[k], d), listed);
    FirstIsWindow(BySpace(windows[k], d), listed);
    BestIsBySpace(windows[k], listed, d);
  }

  /** A window given from another workspace is moved. */
  lemma GettingMoves(windows: seq<WindowSnapshot>, focused: Option<string>, listed: seq<LiveWindow>, k: nat,
                     w: LiveWindow)
    requires k < |windows| && Gets(listed, PlanAll(windows, focused, listed).matches, k, w)
    requires w.workspace != windows[k].workspace
    ensures PlanAll(windows, focused, listed).plan.moves != []
  {
    PlanIsRun(windows, focused, listed);
    assert !Quiet(windows, listed, PlanAll(windows, focused, listed).matches, |windows|);
  }

  // ---------------------------------------------------------------- one window too many

  /** The crew of an exact copy, and one more of the first title. */
  function Spare(windows: seq<WindowSnapshot>): seq<LiveWindow>
    requires windows != []
  {
    seq(|windows| + 1, i requires 0 <= i <= |windows| =>
      var w := if i < |windows| then windows[i] else windows[0];
      LiveWindow(i, NewSpace(windows), w.appId, w.title))
  }

  /** Every saved list but the empty one is disturbed by some desktop that has a window too many. */
  lemma SpareIsRestless(windows: seq<WindowSnapshot>, focused: Option<string>) returns (first: Node, second: Node)
    requires windows != [] && OffScratchpad(windows)
    ensures Restored(windows, focused, first, second)
    ensures PlanAll(windows, focused, Live(second, None)).plan.moves != []
  {
    var crew, n := Spare(windows), |windows|;
    var settled := Settled(windows, crew);
    var desk := [settled[n]] + settled[..n];
    assert settled == settled[..n] + [settled[n]];
    CrewIsRestored(windows, focused, crew, desk);
    first, second := DeskOf(crew), DeskOf(desk);
    SettledIsPlaced(windows, crew, desk);
    HeadOfDesk(desk);
    var listed := Live(second, None);
    PlanIsRun(windows, focused, listed);
    var two := PlanAll(windows, focused, listed).matches;
    assert Taken(listed, two, 0) == {};
    assert ByTitle(windows[0], {})(desk[0]);
    GetsByTitle(windows, listed, two, 0, desk[0]);
    NewNames(windows);
    GettingMoves(windows, focused, listed, 0, desk[0]);
  }

  // ---------------------------------------------------------------- one title on two workspaces

  /** Saved window `i` has a later namesake on another workspace. */
  ghost predicate Torn(windows: seq<WindowSnapshot>, i: nat) {
    i < |windows| && exists j :: i < j < |windows| && SameName(windows[i], windows[j])
                                 && windows[i].workspace != windows[j].workspace
  }

  lemma FirstTorn(windows: seq<WindowSnapshot>) returns (i: nat, j: nat)
    requires !TitlesTogether(windows)
    ensures i < j < |windows| && SameName(windows[i], windows[j]) && windows[i].workspace != windows[j].workspace
    ensures forall k | 0 <= k < i :: !Torn(windows, k)
  {
    var a, b :| 0 <= a < |windows| && 0 <= b < |windows| && SameName(windows[a], windows[b])
                && windows[a].workspace != windows[b].workspace;
    assert Torn(windows, if a < b then a else b);
    i := 0;
    while !Torn(windows, i)
      invariant i <= if a < b then a else b
      invariant forall k | 0 <= k < i :: !Torn(windows, k)
      decreases |windows| - i
    {
      i := i + 1;
    }
    j :| i < j < |windows| && SameName(windows[i], windows[j]) && windows[i].workspace != windows[j].workspace;
  }

  function Copies(windows: seq<WindowSnapshot>): seq<LiveWindow> {
    seq(|windows|, i requires 0 <= i < |windows| =>
      LiveWindow(i, NewSpace(windows), windows[i].appId, windows[i].title))
  }

  /** The copies on their workspaces, number `j` ahead of all others. */
  function JumpAhead(windows: seq<WindowSnapshot>, j: nat): seq<LiveWindow>
    requires j < |windows|
  {
    var settled := Settled(windows, Copies(windows));
    [settled[j]] + settled[..j] + settled[j + 1..]
  }

  lemma JumpIsRelisting(windows: seq<WindowSnapshot>, j: nat)
    requires j < |windows|
    ensures multiset(JumpAhead(windows, j)) == multiset(Settled(windows, Copies(windows)))
  {
    Reordered(Settled(windows, Copies(windows)), j);
  }

  lemma Reordered(live: seq<LiveWindow>, j: nat)
    requires j < |live|
    ensures multiset([live[j]] + live[..j] + live[j + 1..]) == multiset(live)
    ensures multiset(live[..j] + live[j + 1..] + [live[j]]) == multiset(live)
  {
    assert live == live[..j] + [live[j]] + live[j + 1..];
  }

  lemma NamesakesStay(windows: seq<WindowSnapshot>, taken: set<int>, i: nat, j: nat, k: nat)
    requires k < i < j < |windows| && !Torn(windows, k) && UpTo(taken, k)
    ensures forall w | w in JumpAhead(windows, j) && SameTitle(windows[k], taken, w) ::
      w.workspace == windows[k].workspace
  {
    var settled := Settled(windows, Copies(windows));
    JumpIsRelisting(windows, j);
    SameWindows(JumpAhead(windows, j), settled);
    forall l | 0 <= l < |settled| && SameTitle(windows[k], taken, settled[l])
      ensures settled[l].workspace == windows[k].workspace
    {
      assert l >= k && SameName(windows[k], windows[l]);
    }
  }

  lemma OwnIsFirst(windows: seq<WindowSnapshot>, taken: set<int>, i: nat, j: nat, k: nat)
    requires k < i < j < |windows| && !Torn(windows, k) && UpTo(taken, k)
    requires SameName(windows[i], windows[j]) && windows[i].workspace != windows[j].workspace
    ensures FirstWindow(ByTitle(windows[k], taken), JumpAhead(windows, j)) == Some(Settled(windows, Copies(windows))[k])
  {
    var settled, desk, test := Settled(windows, Copies(windows)), JumpAhead(windows, j), ByTitle(windows[k], taken);
    assert SameName(windows[k], windows[j]) ==> SameName(windows[k], windows[i]);
    assert desk[0] == settled[j] && !test(desk[0]);
    forall p | 1 <= p < k + 1 ensures !test(desk[p]) { assert desk[p] == settled[p - 1]; }
    assert desk[k + 1] == settled[k];
    FirstWindowAt(test, desk, k + 1);
  }

  /** Up to the first torn title everybody gets his own window again. */
  lemma OwnAgain(windows: seq<WindowSnapshot>, two: seq<Option<nat>>, i: nat, j: nat, k: nat)
    requires OffScratchpad(windows) && k < i < j < |windows| && forall l | 0 <= l < i :: !Torn(windows, l)
    requires SameName(windows[i], windows[j]) && windows[i].workspace != windows[j].workspace
    requires IsRun(windows, Live(DeskOf(JumpAhead(windows, j)), None), two)
    requires UpTo(Taken(Live(DeskOf(JumpAhead(windows, j)), None), two, k), k)
    ensures Gets(Live(DeskOf(JumpAhead(windows, j)), None), two, k, Settled(windows, Copies(windows))[k])
  {
    var settled, desk, listed := Settled(windows, Copies(windows)), JumpAhead(windows, j),
      Live(DeskOf(JumpAhead(windows, j)), None);
    var test := ByTitle(windows[k], Taken(listed, two, k));
    CopiesLineUp(windows);
    JumpIsRelisting(windows, j);
    SettledIsPlaced(windows, Copies(windows), desk);
    NamesakesStay(windows, Taken(listed, two, k), i, j, k);
    OwnIsFirst(windows, Taken(listed, two, k), i, j, k);
    FirstOnDesk(test, desk, windows[k].workspace);
    GetsByTitle(windows, listed, two, k, settled[k]);
  }

  lemma OwnTaken(windows: seq<WindowSnapshot>, two: seq<Option<nat>>, i: nat, j: nat, k: nat, listed: seq<LiveWindow>)
    requires OffScratchpad(windows) && k < i < j < |windows| && forall l | 0 <= l < i :: !Torn(windows, l)
    requires SameName(windows[i], windows[j]) && windows[i].workspace != windows[j].workspace
    requires listed == Live(DeskOf(JumpAhead(windows, j)), None)
    requires IsRun(windows, listed, two) && UpTo(Taken(listed, two, k), k)
    ensures UpTo(Taken(listed, two, k + 1), k + 1)
  {
    OwnAgain(windows, two, i, j, k);
    TakenByGetting(listed, two, k, Settled(windows, Copies(windows))[k]);
  }

  lemma TakenByGetting(listed: seq<LiveWindow>, two: seq<Option<nat>>, k: nat, w: LiveWindow)
    requires k < |two| && Gets(listed, two, k, w)
    ensures Taken(listed, two, k + 1) == Taken(listed, two, k) + {w.conId}
  {
  }

  lemma OwnAgainTill(windows: seq<WindowSnapshot>, two: seq<Option<nat>>, i: nat, j: nat)
    requires OffScratchpad(windows) && i < j < |windows| && forall l | 0 <= l < i :: !Torn(windows, l)
    requires SameName(windows[i], windows[j]) && windows[i].workspace != windows[j].workspace
    requires IsRun(windows, Live(DeskOf(JumpAhead(windows, j)), None), two)
    ensures UpTo(Taken(Live(DeskOf(JumpAhead(windows, j)), None), two, i), i)
  {
    var listed := Live(DeskOf(JumpAhead(windows, j)), None);
    for k := 0 to i
      invariant UpTo(Taken(listed, two, k), k)
    {
      OwnTaken(windows, two, i, j, k, listed);
    }
  }

  lemma CopiesLineUp(windows: seq<WindowSnapshot>)
    ensures LinesUp(windows, Copies(windows)) && NothingExtra(windows, Copies(windows))
  {
    forall kind: Kind | !kind.Seated? ensures NoneExtra(kind, windows, Copies(windows)) {
      CopiesOf(kind, windows);
    }
  }

  lemma CopiesOf(kind: Kind, windows: seq<WindowSnapshot>)
    requires !kind.Seated?
    ensures NoneExtra(kind, windows, Copies(windows))
  {
    var ids, copies := LiveOf(kind, Copies(windows)), Copies(windows);
    forall x ensures x in ids <==> x in SavedOf(kind, windows) {
      if x in SavedOf(kind, windows) { assert copies[x].conId == x; }
    }
    assert ids == SavedOf(kind, windows);
  }

  /** A title of an app saved on two workspaces: some desktop with nothing extra is disturbed. */
  lemma TornIsRestless(windows: seq<WindowSnapshot>, focused: Option<string>) returns (first: Node, second: Node)
    requires OffScratchpad(windows) && !TitlesTogether(windows)
    ensures Restored(windows, focused, first, second) && NothingExtra(windows, Live(first, None))
    ensures PlanAll(windows, focused, Live(second, None)).plan.moves != []
  {
    var i, j := FirstTorn(windows);
    var crew, desk := Copies(windows), JumpAhead(windows, j);
    first, second := DeskOf(crew), DeskOf(desk);
    CopiesLineUp(windows);
    JumpIsRelisting(windows, j);
    CrewIsListed(windows, crew);
    CrewIsRestored(windows, focused, crew, desk);
    JumpTaken(windows, focused, i, j);
  }

  lemma JumpTaken(windows: seq<WindowSnapshot>, focused: Option<string>, i: nat, j: nat)
    requires OffScratchpad(windows) && i < j < |windows| && forall l | 0 <= l < i :: !Torn(windows, l)
    requires SameName(windows[i], windows[j]) && windows[i].workspace != windows[j].workspace
    ensures PlanAll(windows, focused, Live(DeskOf(JumpAhead(windows, j)), None)).plan.moves != []
  {
    var desk := JumpAhead(windows, j);
    var listed := Live(DeskOf(desk), None);
    var two := PlanAll(windows, focused, listed).matches;
    CopiesLineUp(windows);
    JumpIsRelisting(windows, j);
    SettledIsPlaced(windows, Copies(windows), desk);
    HeadOfDesk(desk);
    PlanIsRun(windows, focused, listed);
    OwnAgainTill(windows, two, i, j);
    assert ByTitle(windows[i], Taken(listed, two, i))(listed[0]);
    GetsByTitle(windows, listed, two, i, listed[0]);
    GettingMoves(windows, focused, listed, i, listed[0]);
  }
}
