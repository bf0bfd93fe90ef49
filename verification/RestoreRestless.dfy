/**
 Desktops that restoring twice disturbs. A crew of windows waits on one workspace nobody saved; the first
 restore gives every saved window the crew member of its own number; the second finds them on a desk where
 one of them has changed places.
 */
module RestoreRestless {
  import opened Prelude
  import opened SwayTree
  import opened Restore
  import opened RestoreMatching
  import opened RestoreAgain
  import opened RestoreRuns
  import opened RestoreSteady
  import opened Desks

  // ---------------------------------------------------------------- names nobody saved

  /** A text longer than all of `texts`. */
  function NewText(texts: seq<string>): string {
    if texts == [] then "x" else NewText(texts[..|texts| - 1]) + texts[|texts| - 1]
  }

  lemma {:induction false} NewTextIsLonger(texts: seq<string>, i: nat)
    requires i < |texts|
    ensures |NewText(texts)| > |texts[i]| && NewText(texts) != texts[i]
  {
    var n := |texts| - 1;
    NewTextGrows(texts[..n]);
    if i < n { NewTextIsLonger(texts[..n], i); }
  }

  lemma {:induction false} NewTextGrows(texts: seq<string>)
    ensures |NewText(texts)| > 0
  {
    if texts != [] { NewTextGrows(texts[..|texts| - 1]); }
  }

  function Workspaces(windows: seq<WindowSnapshot>): seq<string> {
    seq(|windows|, j requires 0 <= j < |windows| => windows[j].workspace)
  }

  function Titles(windows: seq<WindowSnapshot>): seq<string> {
    seq(|windows|, j requires 0 <= j < |windows| => windows[j].title)
  }

  function NewSpace(windows: seq<WindowSnapshot>): string {
    NewText(Workspaces(windows) + [SCRATCHPAD])
  }

  function NewTitle(windows: seq<WindowSnapshot>): string {
    NewText(Titles(windows))
  }

  lemma NewNames(windows: seq<WindowSnapshot>)
    ensures forall j | 0 <= j < |windows| ::
      windows[j].workspace != NewSpace(windows) && windows[j].title != NewTitle(windows)
    ensures NewSpace(windows) != SCRATCHPAD
  {
    var spaces := Workspaces(windows) + [SCRATCHPAD];
    NewTextIsLonger(spaces, |windows|);
    forall j | 0 <= j < |windows|
      ensures windows[j].workspace != NewSpace(windows) && windows[j].title != NewTitle(windows)
    {
      NewTextIsLonger(spaces, j);
      NewTextIsLonger(Titles(windows), j);
    }
  }

  // ---------------------------------------------------------------- the first restore

  predicate Matches(saved: WindowSnapshot, w: LiveWindow) {
    saved.appId == w.appId && saved.title == w.title
  }

  /** All wait on a new workspace; number `k` is of the app of saved window `k`, and carries its title if any
      of those after it does. */
  ghost predicate LinesUp(windows: seq<WindowSnapshot>, crew: seq<LiveWindow>) {
    && (forall i | 0 <= i < |crew| :: crew[i].conId == i && crew[i].workspace == NewSpace(windows))
    && (forall k | 0 <= k < |windows| && k < |crew| :: crew[k].appId == windows[k].appId)
    && (forall k, i | 0 <= k < |windows| && k <= i < |crew| && Matches(windows[k], crew[i]) ::
          Matches(windows[k], crew[k]))
  }

  function OneEach(n: nat, size: nat): seq<Option<nat>> {
    seq(n, k => if 0 <= k < size then Some(k) else None)
  }

  /** Exactly the first `n` numbers. */
  ghost predicate UpTo(ids: set<int>, n: nat) {
    forall x :: x in ids <==> 0 <= x < n
  }

  lemma {:induction false} OneEachTaken(windows: seq<WindowSnapshot>, crew: seq<LiveWindow>, n: nat)
    requires LinesUp(windows, crew) && n <= |windows|
    ensures UpTo(Taken(crew, OneEach(|windows|, |crew|), n), if n < |crew| then n else |crew|)
  {
    if n > 0 { OneEachTaken(windows, crew, n - 1); }
  }

  lemma BestAny(saved: WindowSnapshot, live: seq<LiveWindow>, consumed: set<int>, i: nat)
    requires forall j | 0 <= j < |live| :: !SameTitle(saved, consumed, live[j]) && !SameSpace(saved, consumed, live[j])
    requires IsFirst(w => Usable(saved, consumed, w), live, Some(i))
    ensures Best(saved, live, consumed) == Some(i)
  {
    FirstUnique(w => Usable(saved, consumed, w), live, Some(i), First(w => Usable(saved, consumed, w), live));
  }

  lemma OneEachFits(windows: seq<WindowSnapshot>, crew: seq<LiveWindow>, k: nat)
    requires LinesUp(windows, crew) && k < |windows|
    ensures RunAt(windows, crew, OneEach(|windows|, |crew|), k)
  {
    var saved, d := windows[k], Taken(crew, OneEach(|windows|, |crew|), k);
    OneEachTaken(windows, crew, k);
    NewNames(windows);
    if k >= |crew| {
      assert forall i | 0 <= i < |crew| :: !Usable(saved, d, crew[i]);
    } else if Matches(saved, crew[k]) {
      assert IsFirst(w => SameTitle(saved, d, w), crew, Some(k));
      BestByTitle(saved, crew, d, k);
    } else {
      forall i | 0 <= i < |crew| ensures !SameTitle(saved, d, crew[i]) {
        if SameTitle(saved, d, crew[i]) { assert Matches(saved, crew[i]); }
      }
      assert IsFirst(w => Usable(saved, d, w), crew, Some(k));
      BestAny(saved, crew, d, k);
    }
  }

  /** The planner's matches are the ones that fit, and its moves bring them home. */
  lemma FirstRunIs(windows: seq<WindowSnapshot>, focused: Option<string>, live: seq<LiveWindow>, one: seq<Option<nat>>)
    requires DistinctConIds(live) && IsRun(windows, live, one)
    ensures PlanAll(windows, focused, live).matches == one
    ensures Home(windows, live, one, Moved(live, PlanAll(windows, focused, live).plan.moves))
  {
    var at := PlanAll(windows, focused, live);
    PlanIsRun(windows, focused, live);
    MovedIsHome(windows, focused, live);
    RunUnique(windows, live, one, at.matches, |windows|);
    assert one[..|windows|] == one && at.matches[..|windows|] == at.matches;
  }

  /** Everybody with a saved window of his number is on its workspace. */
  function Settled(windows: seq<WindowSnapshot>, crew: seq<LiveWindow>): seq<LiveWindow> {
    seq(|crew|, i requires 0 <= i < |crew| =>
      if i < |windows| then crew[i].(workspace := windows[i].workspace) else crew[i])
  }

  lemma LinedUpIsDistinct(windows: seq<WindowSnapshot>, crew: seq<LiveWindow>)
    requires LinesUp(windows, crew)
    ensures DistinctConIds(crew)
  {
  }

  lemma CrewSettles(windows: seq<WindowSnapshot>, focused: Option<string>, crew: seq<LiveWindow>)
    requires LinesUp(windows, crew)
    ensures Moved(crew, PlanAll(windows, focused, crew).plan.moves) == Settled(windows, crew)
  {
    var one := OneEach(|windows|, |crew|);
    var moved := Moved(crew, PlanAll(windows, focused, crew).plan.moves);
    LinedUpIsDistinct(windows, crew);
    forall k: nat | k < |windows| ensures RunAt(windows, crew, one, k) { OneEachFits(windows, crew, k); }
    FirstRunIs(windows, focused, crew, one);
    OneEachTaken(windows, crew, |windows|);
    forall i | 0 <= i < |crew| ensures moved[i] == Settled(windows, crew)[i] {
      if i < |windows| { assert one[i] == Some(i); }
    }
  }

  // ---------------------------------------------------------------- on trees

  /** `first` is restored, and `second` lists its windows where the moves have left them. */
  ghost predicate Restored(windows: seq<WindowSnapshot>, focused: Option<string>, first: Node, second: Node) {
    var live := Live(first, None);
    && Sound(first) && Sound(second)
    && multiset(Live(second, None)) == multiset(Moved(live, PlanAll(windows, focused, live).plan.moves))
  }

  /** No window was saved on the scratchpad; captured ones never are. */
  ghost predicate OffScratchpad(windows: seq<WindowSnapshot>) {
    forall k | 0 <= k < |windows| :: windows[k].workspace != SCRATCHPAD
  }

  lemma {:induction false} OneSpace(windows: seq<LiveWindow>, ws: string)
    requires windows != [] && forall w | w in windows :: w.workspace == ws
    ensures Distinct(SpacesIn(windows)) == [ws]
  {
    var n := |windows| - 1;
    assert windows[n] in windows;
    assert SpacesIn(windows)[..n] == SpacesIn(windows[..n]);
    if n == 0 { assert SpacesIn(windows[..0]) == []; } else { OneSpace(windows[..n], ws); }
  }

  lemma {:induction false} AllOnSpace(windows: seq<LiveWindow>, ws: string)
    requires forall w | w in windows :: w.workspace == ws
    ensures OnSpace(windows, ws) == windows
  {
    if windows != [] { AllOnSpace(windows[1..], ws); }
  }

  lemma CrewIsListed(windows: seq<WindowSnapshot>, crew: seq<LiveWindow>)
    requires LinesUp(windows, crew)
    ensures Placed(crew) && Live(DeskOf(crew), None) == crew
  {
    NewNames(windows);
    LinedUpIsDistinct(windows, crew);
    DeskOfLists(crew);
    if crew != [] {
      OneSpace(crew, NewSpace(windows));
      AllOnSpace(crew, NewSpace(windows));
      assert Listing([NewSpace(windows)], crew) == crew + Listing([], crew);
    }
  }

  lemma SettledIsPlaced(windows: seq<WindowSnapshot>, crew: seq<LiveWindow>, desk: seq<LiveWindow>)
    requires LinesUp(windows, crew) && OffScratchpad(windows) && multiset(desk) == multiset(Settled(windows, crew))
    ensures Placed(desk)
  {
    NewNames(windows);
    RelistedIsDistinct(Settled(windows, crew), desk);
    SameWindows(desk, Settled(windows, crew));
  }

  /** The crew waits on one tree, and is found again on another one. */
  lemma CrewIsRestored(windows: seq<WindowSnapshot>, focused: Option<string>, crew: seq<LiveWindow>,
                       desk: seq<LiveWindow>)
    requires LinesUp(windows, crew) && OffScratchpad(windows) && multiset(desk) == multiset(Settled(windows, crew))
    ensures Restored(windows, focused, DeskOf(crew), DeskOf(desk))
  {
    CrewIsListed(windows, crew);
    CrewSettles(windows, focused, crew);
    SettledIsPlaced(windows, crew, desk);
    DeskOfIsSound(crew);
    DeskOfIsSound(desk);
    DeskOfLists(desk);
  }
}
