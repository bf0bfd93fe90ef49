/** Saved lists that need restoring only once: the second restore, on the tree read again, moves nothing. */
module RestoreSteady {
  import opened Prelude
  import opened SwayTree
  import opened Restore
  import opened RestoreMatching
  import opened RestoreAgain
  import opened RestoreRuns

  // ---------------------------------------------------------------- the saved list and the desktop

  predicate SameName(a: WindowSnapshot, b: WindowSnapshot) {
    a.appId == b.appId && a.title == b.title
  }

  predicate SameSeat(a: WindowSnapshot, b: WindowSnapshot) {
    a.appId == b.appId && a.workspace == b.workspace
  }

  /** No app has one title saved on two workspaces. */
  ghost predicate TitlesTogether(windows: seq<WindowSnapshot>) {
    forall i, j | 0 <= i < |windows| && 0 <= j < |windows| && SameName(windows[i], windows[j]) ::
      windows[i].workspace == windows[j].workspace
  }

  /** Between two windows of an app saved on one workspace, all windows of the app are on it. */
  ghost predicate SeatsTogether(windows: seq<WindowSnapshot>) {
    forall i, m, l | 0 <= i < m < l < |windows| && SameSeat(windows[i], windows[l])
                     && windows[m].appId == windows[i].appId :: windows[m].workspace == windows[i].workspace
  }

  /** The windows a count is about: all of an app, those with a title, or those on a workspace. */
  datatype Kind = OfApp(app: string) | Named(app: string, title: string) | Seated(app: string, workspace: string) {
    predicate Fits(a: string, t: string, ws: string) {
      a == app && (Named? ==> t == title) && (Seated? ==> ws == workspace)
    }
  }

  function SavedOf(kind: Kind, windows: seq<WindowSnapshot>): set<nat> {
    set k | 0 <= k < |windows| && kind.Fits(windows[k].appId, windows[k].title, windows[k].workspace)
  }

  /** The ids of the live windows of a kind. */
  function LiveOf(kind: Kind, live: seq<LiveWindow>): set<int> {
    set i | 0 <= i < |live| && kind.Fits(live[i].appId, live[i].title, live[i].workspace) :: live[i].conId
  }

  /** Of no saved app, and of no saved title, are there more windows than were saved. */
  ghost predicate NothingExtra(windows: seq<WindowSnapshot>, live: seq<LiveWindow>) {
    forall k | 0 <= k < |windows| ::
      && NoneExtra(OfApp(windows[k].appId), windows, live)
      && NoneExtra(Named(windows[k].appId, windows[k].title), windows, live)
  }

  ghost predicate NoneExtra(kind: Kind, windows: seq<WindowSnapshot>, live: seq<LiveWindow>) {
    |LiveOf(kind, live)| <= |SavedOf(kind, windows)|
  }

  lemma SeatsComeBefore(windows: seq<WindowSnapshot>, i: nat, m: nat, l: nat)
    requires SeatsTogether(windows) && i < m < |windows| && l < |windows| && SameSeat(windows[i], windows[l])
    requires windows[m].appId == windows[i].appId && windows[m].workspace != windows[i].workspace
    ensures l < m
  {
  }

  // ---------------------------------------------------------------- counting by matches

  lemma {:induction false} Pigeonhole<A, B>(f: map<A, B>, s: set<A>, t: set<B>)
    requires s <= f.Keys && forall x | x in s :: f[x] in t
    requires forall x, y | x in s && y in s && x != y :: f[x] != f[y]
    ensures |s| <= |t|
  {
    if s != {} {
      var x :| x in s;
      Pigeonhole(f, s - {x}, t - {f[x]});
    }
  }

  /** The id given to saved window `k`. */
  function Given(live: seq<LiveWindow>, matches: seq<Option<nat>>, k: nat): Option<int>
    requires k < |matches|
  {
    if matches[k].Some? && matches[k].value < |live| then Some(live[matches[k].value].conId) else None
  }

  lemma GivenOnce(windows: seq<WindowSnapshot>, live: seq<LiveWindow>, matches: seq<Option<nat>>, j: nat, k: nat)
    requires IsRun(windows, live, matches) && j < k < |windows| && Given(live, matches, j).Some?
    ensures Given(live, matches, j) != Given(live, matches, k)
  {
    assert RunAt(windows, live, matches, k);
    TakenHas(live, matches, k, j);
  }

  /** Saved windows that are all given a window of `ids` are not more than those. */
  lemma EnoughIds(windows: seq<WindowSnapshot>, live: seq<LiveWindow>, matches: seq<Option<nat>>, s: set<nat>,
                  ids: set<int>)
    requires IsRun(windows, live, matches)
    requires forall k | k in s :: k < |windows| && Given(live, matches, k).Some? && Given(live, matches, k).value in ids
    ensures |s| <= |ids|
  {
    var f := map k | k in s :: Given(live, matches, k).value;
    forall j, k | j in s && k in s && j != k ensures f[j] != f[k] {
      if j < k { GivenOnce(windows, live, matches, j, k); } else { GivenOnce(windows, live, matches, k, j); }
    }
    Pigeonhole(f, s, ids);
  }

  /** Windows that are all given to saved ones of `s` are not more than those. */
  lemma EnoughSaved(live: seq<LiveWindow>, matches: seq<Option<nat>>, ids: set<int>, s: set<nat>)
    requires forall x | x in ids :: exists k :: k in s && k < |matches| && Given(live, matches, k) == Some(x)
    ensures |ids| <= |s|
  {
    var f := map x | x in ids :: Holder(live, matches, s, x);
    Pigeonhole(f, ids, s);
  }

  ghost function Holder(live: seq<LiveWindow>, matches: seq<Option<nat>>, s: set<nat>, x: int): (k: nat)
    requires exists k :: k in s && k < |matches| && Given(live, matches, k) == Some(x)
    ensures k in s && k < |matches| && Given(live, matches, k) == Some(x)
  {
    var k :| k in s && k < |matches| && Given(live, matches, k) == Some(x);
    k
  }

  lemma LosingOne<T>(s: set<T>, x: T)
    requires x in s
    ensures |s - {x}| == |s| - 1
  {
  }

  // ---------------------------------------------------------------- what a free window tells

  /** Of a window free when `k` is served: `k` is given one, of its title if this one has it, of its title
      or its workspace if this one is there. */
  lemma FreeMeansMatch(windows: seq<WindowSnapshot>, live: seq<LiveWindow>, matches: seq<Option<nat>>, k: nat, y: nat)
    requires IsRun(windows, live, matches) && k < |windows| && y < |live|
    requires live[y].appId == windows[k].appId && live[y].conId !in Taken(live, matches, k)
    ensures matches[k].Some? && matches[k].value < |live|
    ensures var w := live[matches[k].value];
      && (live[y].title == windows[k].title ==> w.title == windows[k].title)
      && (live[y].workspace == windows[k].workspace ==>
            w.title == windows[k].title || w.workspace == windows[k].workspace)
  {
    assert RunAt(windows, live, matches, k);
    var d := Taken(live, matches, k);
    BestByTitleIff(windows[k], live, d);
    assert Usable(windows[k], d, live[y]);
    if forall i | 0 <= i < |live| :: !SameTitle(windows[k], d, live[i]) { BestBySpaceIff(windows[k], live, d); }
  }

  lemma GivenIsOfApp(windows: seq<WindowSnapshot>, live: seq<LiveWindow>, matches: seq<Option<nat>>, k: nat)
    requires IsRun(windows, live, matches) && k < |windows| && matches[k].Some?
    ensures matches[k].value < |live| && live[matches[k].value].appId == windows[k].appId
    ensures live[matches[k].value].conId !in Taken(live, matches, k)
  {
    assert RunAt(windows, live, matches, k);
  }

  lemma {:induction false} TakenIsGiven(live: seq<LiveWindow>, matches: seq<Option<nat>>, n: nat, x: int)
    returns (k: nat)
    requires n <= |matches| && x in Taken(live, matches, n)
    ensures k < n && Given(live, matches, k) == Some(x)
  {
    if Given(live, matches, n - 1) == Some(x) { k := n - 1; } else { k := TakenIsGiven(live, matches, n - 1, x); }
  }

  /** A window is free until it is given. */
  lemma FreeUntilGiven(windows: seq<WindowSnapshot>, live: seq<LiveWindow>, matches: seq<Option<nat>>, k: nat, j: nat)
    requires IsRun(windows, live, matches) && k <= j < |windows| && Given(live, matches, j).Some?
    ensures Given(live, matches, j).value !in Taken(live, matches, k)
  {
    var x := Given(live, matches, j).value;
    if x in Taken(live, matches, k) {
      var i := TakenIsGiven(live, matches, k, x);
      GivenOnce(windows, live, matches, i, j);
    }
  }

  // ---------------------------------------------------------------- both restores

  ghost predicate Relisted(moved: seq<LiveWindow>, listed: seq<LiveWindow>) {
    forall w :: w in moved <==> w in listed
  }

  /** `one` matches the live windows, `moved` is where that leaves them, and `two` matches them again as
      they are then listed. */
  ghost predicate Twice(windows: seq<WindowSnapshot>, live: seq<LiveWindow>, one: seq<Option<nat>>,
                        moved: seq<LiveWindow>, listed: seq<LiveWindow>, two: seq<Option<nat>>) {
    && DistinctConIds(live) && IsRun(windows, live, one) && Home(windows, live, one, moved)
    && DistinctConIds(listed) && Relisted(moved, listed) && IsRun(windows, listed, two)
  }

  /** With nothing extra the first restore gives every window of a saved app to somebody. */
  lemma EveryoneGiven(windows: seq<WindowSnapshot>, live: seq<LiveWindow>, one: seq<Option<nat>>, k: nat, y: nat)
    returns (j: nat)
    requires DistinctConIds(live) && IsRun(windows, live, one) && NothingExtra(windows, live)
    requires k < |windows| && y < |live| && live[y].appId == windows[k].appId
    ensures j < |windows| && one[j] == Some(y)
  {
    var x, kind := live[y].conId, OfApp(windows[k].appId);
    if x in Taken(live, one, |one|) {
      j := TakenIsGiven(live, one, |one|, x);
    } else {
      var ids := LiveOf(kind, live);
      forall s | s in SavedOf(kind, windows)
        ensures Given(live, one, s).Some? && Given(live, one, s).value in ids - {x}
      {
        TakenGrows(live, one, s, |one|);
        FreeMeansMatch(windows, live, one, s, y);
        GivenIsOfApp(windows, live, one, s);
        TakenHas(live, one, |one|, s);
      }
      EnoughIds(windows, live, one, SavedOf(kind, windows), ids - {x});
      LosingOne(ids, x);
      assert false;
    }
  }

  /** After the first restore every listed window of a saved app is on the workspace of its holder. */
  lemma ListedHolder(windows: seq<WindowSnapshot>, live: seq<LiveWindow>, one: seq<Option<nat>>,
                     moved: seq<LiveWindow>, listed: seq<LiveWindow>, two: seq<Option<nat>>, k: nat, b: nat)
    returns (j: nat, y: nat)
    requires Twice(windows, live, one, moved, listed, two) && NothingExtra(windows, live)
    requires k < |windows| && b < |listed| && listed[b].appId == windows[k].appId
    ensures j < |windows| && one[j] == Some(y) && y < |live| && moved[y] == listed[b]
    ensures listed[b].workspace == windows[j].workspace && windows[j].appId == listed[b].appId
  {
    assert listed[b] in moved;
    y :| y < |moved| && moved[y] == listed[b];
    j := EveryoneGiven(windows, live, one, k, y);
    GivenIsOfApp(windows, live, one, j);
  }

  /** As many windows are listed on a workspace as saved ones hold. */
  lemma NotMoreListed(windows: seq<WindowSnapshot>, live: seq<LiveWindow>, one: seq<Option<nat>>,
                      moved: seq<LiveWindow>, listed: seq<LiveWindow>, two: seq<Option<nat>>, k: nat, ws: string)
    requires Twice(windows, live, one, moved, listed, two) && NothingExtra(windows, live) && k < |windows|
    ensures var kind := Seated(windows[k].appId, ws); |LiveOf(kind, listed)| <= |SavedOf(kind, windows)|
  {
    var kind := Seated(windows[k].appId, ws);
    forall x | x in LiveOf(kind, listed)
      ensures exists s :: s in SavedOf(kind, windows) && s < |one| && Given(live, one, s) == Some(x)
    {
      var b := LiveAt(kind, listed, x);
      var j, y := ListedHolder(windows, live, one, moved, listed, two, k, b);
      assert j in SavedOf(kind, windows) && Given(live, one, j) == Some(x);
    }
    EnoughSaved(live, one, LiveOf(kind, listed), SavedOf(kind, windows));
  }

  /** While window `b` is free, everybody served before `k` is given one of the others on his workspace. */
  lemma OthersTaken(windows: seq<WindowSnapshot>, listed: seq<LiveWindow>, two: seq<Option<nat>>, k: nat, b: nat,
                    s: nat)
    requires DistinctConIds(listed) && IsRun(windows, listed, two) && s < k < |windows|
      && Quiet(windows, listed, two, k)
    requires b < |listed| && listed[b].appId == windows[s].appId && listed[b].conId !in Taken(listed, two, k)
    ensures var kind := Seated(windows[s].appId, windows[s].workspace);
      Given(listed, two, s).Some? && Given(listed, two, s).value in LiveOf(kind, listed) - {listed[b].conId}
  {
    TakenGrows(listed, two, s, k);
    FreeMeansMatch(windows, listed, two, s, b);
    GivenIsOfApp(windows, listed, two, s);
    TakenHas(listed, two, k, s);
  }

  /** A window whose holder came before `k`, for another workspace, has been taken again before `k`. */
  lemma NotLeftBehind(windows: seq<WindowSnapshot>, live: seq<LiveWindow>, one: seq<Option<nat>>,
                      moved: seq<LiveWindow>, listed: seq<LiveWindow>, two: seq<Option<nat>>, k: nat, b: nat, j: nat)
    requires Twice(windows, live, one, moved, listed, two) && NothingExtra(windows, live) && SeatsTogether(windows)
    requires j < k < |windows| && b < |listed| && Quiet(windows, listed, two, k)
    requires windows[j].appId == listed[b].appId == windows[k].appId
    requires listed[b].workspace == windows[j].workspace != windows[k].workspace
    ensures listed[b].conId in Taken(listed, two, k)
  {
    var x, kind := listed[b].conId, Seated(windows[j].appId, windows[j].workspace);
    var ids := LiveOf(kind, listed);
    if x !in Taken(listed, two, k) {
      forall s | s in SavedOf(kind, windows)
        ensures Given(listed, two, s).Some? && Given(listed, two, s).value in ids - {x}
      {
        SeatsComeBefore(windows, j, k, s);
        OthersTaken(windows, listed, two, k, b, s);
      }
      EnoughIds(windows, listed, two, SavedOf(kind, windows), ids - {x});
      NotMoreListed(windows, live, one, moved, listed, two, k, windows[j].workspace);
      LosingOne(ids, x);
      assert false;
    }
  }

  /** A window whose holder comes after `k`, for another workspace, does not carry the title of `k`. */
  lemma NotAhead(windows: seq<WindowSnapshot>, live: seq<LiveWindow>, one: seq<Option<nat>>, k: nat, j: nat, y: nat)
    requires DistinctConIds(live) && IsRun(windows, live, one) && NothingExtra(windows, live)
    requires TitlesTogether(windows) && SeatsTogether(windows)
    requires k < j < |windows| && one[j] == Some(y) && y < |live| && live[y].appId == windows[k].appId
    requires windows[j].appId == windows[k].appId && windows[j].workspace != windows[k].workspace
    ensures live[y].title != windows[k].title
  {
    if live[y].title == windows[k].title {
      var x, kind := live[y].conId, Named(windows[k].appId, windows[k].title);
      var ids := LiveOf(kind, live);
      forall s | s in SavedOf(kind, windows)
        ensures Given(live, one, s).Some? && Given(live, one, s).value in ids - {x}
      {
        assert SameName(windows[s], windows[k]);
        SeatsComeBefore(windows, k, j, s);
        FreeUntilGiven(windows, live, one, s, j);
        FreeMeansMatch(windows, live, one, s, y);
        GivenIsOfApp(windows, live, one, s);
        GivenOnce(windows, live, one, s, j);
      }
      EnoughIds(windows, live, one, SavedOf(kind, windows), ids - {x});
      LosingOne(ids, x);
      assert false;
    }
  }

  /** While a window is left whose holder comes after `k`, for another workspace, every window saved on the
      workspace of `k` was given one. */
  lemma SeatsFilled(windows: seq<WindowSnapshot>, live: seq<LiveWindow>, one: seq<Option<nat>>,
                    moved: seq<LiveWindow>, listed: seq<LiveWindow>, two: seq<Option<nat>>, k: nat, j: nat, y: nat)
    requires Twice(windows, live, one, moved, listed, two) && SeatsTogether(windows)
    requires k < j < |windows| && one[j] == Some(y) && y < |live| && live[y].appId == windows[k].appId
    requires windows[j].appId == windows[k].appId && windows[j].workspace != windows[k].workspace
    ensures var kind := Seated(windows[k].appId, windows[k].workspace);
      |SavedOf(kind, windows)| <= |LiveOf(kind, listed)|
  {
    var kind := Seated(windows[k].appId, windows[k].workspace);
    var ids, saved := LiveOf(kind, listed), SavedOf(kind, windows);
    forall s | s in saved ensures Given(live, one, s).Some? && Given(live, one, s).value in ids {
      SeatsComeBefore(windows, k, j, s);
      FreeUntilGiven(windows, live, one, s, j);
      FreeMeansMatch(windows, live, one, s, y);
      GivenIsOfApp(windows, live, one, s);
      assert moved[one[s].value] in listed;
    }
    EnoughIds(windows, live, one, saved, ids);
  }

  /** The windows taken again so far on the workspace of `k` are fewer than those saved there. */
  lemma SeatsUsed(windows: seq<WindowSnapshot>, listed: seq<LiveWindow>, two: seq<Option<nat>>, k: nat)
    requires DistinctConIds(listed) && IsRun(windows, listed, two) && k < |windows| && Quiet(windows, listed, two, k)
    ensures var kind := Seated(windows[k].appId, windows[k].workspace);
      LiveOf(kind, listed) <= Taken(listed, two, k) ==> |LiveOf(kind, listed)| < |SavedOf(kind, windows)|
  {
    var kind := Seated(windows[k].appId, windows[k].workspace);
    var ids, saved := LiveOf(kind, listed), SavedOf(kind, windows);
    if ids <= Taken(listed, two, k) {
      forall x | x in ids ensures exists s :: s in saved - {k} && s < |two| && Given(listed, two, s) == Some(x) {
        var s := SeatUser(windows, listed, two, k, x);
      }
      EnoughSaved(listed, two, ids, saved - {k});
      LosingOne(saved, k);
    }
  }

  lemma SeatUser(windows: seq<WindowSnapshot>, listed: seq<LiveWindow>, two: seq<Option<nat>>, k: nat, x: int)
    returns (s: nat)
    requires DistinctConIds(listed) && IsRun(windows, listed, two) && k < |windows| && Quiet(windows, listed, two, k)
    requires x in LiveOf(Seated(windows[k].appId, windows[k].workspace), listed) && x in Taken(listed, two, k)
    ensures s in SavedOf(Seated(windows[k].appId, windows[k].workspace), windows) - {k}
    ensures s < |two| && Given(listed, two, s) == Some(x)
  {
    var b := LiveAt(Seated(windows[k].appId, windows[k].workspace), listed, x);
    s := TakenIsGiven(listed, two, k, x);
    GivenIsOfApp(windows, listed, two, s);
    assert b == two[s].value;
  }

  lemma LiveAt(kind: Kind, live: seq<LiveWindow>, x: int) returns (b: nat)
    requires x in LiveOf(kind, live)
    ensures b < |live| && kind.Fits(live[b].appId, live[b].title, live[b].workspace) && live[b].conId == x
  {
    b :| 0 <= b < |live| && kind.Fits(live[b].appId, live[b].title, live[b].workspace) && live[b].conId == x;
  }

  /** So one is left on the workspace of `k`. */
  lemma SeatLeft(windows: seq<WindowSnapshot>, live: seq<LiveWindow>, one: seq<Option<nat>>,
                 moved: seq<LiveWindow>, listed: seq<LiveWindow>, two: seq<Option<nat>>, k: nat, j: nat, y: nat)
    returns (c: nat)
    requires Twice(windows, live, one, moved, listed, two) && SeatsTogether(windows)
    requires k < j < |windows| && one[j] == Some(y) && y < |live| && Quiet(windows, listed, two, k)
    requires windows[j].appId == windows[k].appId && windows[j].workspace != windows[k].workspace
    requires live[y].appId == windows[k].appId
    ensures c < |listed| && listed[c].appId == windows[k].appId && listed[c].workspace == windows[k].workspace
    ensures listed[c].conId !in Taken(listed, two, k)
  {
    var kind := Seated(windows[k].appId, windows[k].workspace);
    SeatsFilled(windows, live, one, moved, listed, two, k, j, y);
    SeatsUsed(windows, listed, two, k);
    var x :| x in LiveOf(kind, listed) && x !in Taken(listed, two, k);
    c := LiveAt(kind, listed, x);
  }

  /** So the second restore leaves the window given to `k` where it is. */
  lemma StepAtHome(windows: seq<WindowSnapshot>, live: seq<LiveWindow>, one: seq<Option<nat>>,
                   moved: seq<LiveWindow>, listed: seq<LiveWindow>, two: seq<Option<nat>>, k: nat)
    requires Twice(windows, live, one, moved, listed, two) && NothingExtra(windows, live)
    requires TitlesTogether(windows) && SeatsTogether(windows)
    requires k < |windows| && Quiet(windows, listed, two, k) && two[k].Some?
    ensures two[k].value < |listed| && listed[two[k].value].workspace == windows[k].workspace
  {
    GivenIsOfApp(windows, listed, two, k);
    var b := two[k].value;
    var j, y := ListedHolder(windows, live, one, moved, listed, two, k, b);
    if listed[b].workspace != windows[k].workspace {
      if j < k { NotLeftBehind(windows, live, one, moved, listed, two, k, b, j); }
      HolderAhead(windows, live, one, moved, listed, two, k, b, j, y);
    }
  }

  lemma HolderAhead(windows: seq<WindowSnapshot>, live: seq<LiveWindow>, one: seq<Option<nat>>, moved: seq<LiveWindow>,
                    listed: seq<LiveWindow>, two: seq<Option<nat>>, k: nat, b: nat, j: nat, y: nat)
    requires Twice(windows, live, one, moved, listed, two) && NothingExtra(windows, live)
    requires TitlesTogether(windows) && SeatsTogether(windows)
    requires k <= j < |windows| && Quiet(windows, listed, two, k) && two[k] == Some(b) && b < |listed|
    requires one[j] == Some(y) && y < |live| && moved[y] == listed[b] && listed[b].workspace == windows[j].workspace
    requires windows[j].appId == listed[b].appId == windows[k].appId
    ensures listed[b].workspace == windows[k].workspace
  {
    if listed[b].workspace != windows[k].workspace {
      NotAhead(windows, live, one, k, j, y);
      var c := SeatLeft(windows, live, one, moved, listed, two, k, j, y);
      FreeMeansMatch(windows, listed, two, k, c);
    }
  }

  lemma StepQuiet(windows: seq<WindowSnapshot>, live: seq<LiveWindow>, one: seq<Option<nat>>,
                  moved: seq<LiveWindow>, listed: seq<LiveWindow>, two: seq<Option<nat>>, k: nat)
    requires Twice(windows, live, one, moved, listed, two) && NothingExtra(windows, live)
    requires TitlesTogether(windows) && SeatsTogether(windows) && k < |windows| && Quiet(windows, listed, two, k)
    ensures Quiet(windows, listed, two, k + 1)
  {
    if two[k].Some? { StepAtHome(windows, live, one, moved, listed, two, k); }
  }

  lemma StaysQuiet(windows: seq<WindowSnapshot>, live: seq<LiveWindow>, one: seq<Option<nat>>,
                   moved: seq<LiveWindow>, listed: seq<LiveWindow>, two: seq<Option<nat>>)
    requires Twice(windows, live, one, moved, listed, two) && NothingExtra(windows, live)
    requires TitlesTogether(windows) && SeatsTogether(windows)
    ensures Quiet(windows, listed, two, |windows|)
  {
    for k := 0 to |windows|
      invariant Quiet(windows, listed, two, k)
    {
      StepQuiet(windows, live, one, moved, listed, two, k);
    }
  }

  lemma SameWindows(a: seq<LiveWindow>, b: seq<LiveWindow>)
    requires multiset(a) == multiset(b)
    ensures Relisted(a, b)
  {
    forall w ensures w in a <==> w in b {
      assert w in a <==> w in multiset(a);
      assert w in b <==> w in multiset(b);
    }
  }

  /** When every title of an app is saved on one workspace and the windows of an app are saved workspace by
      workspace, restoring a desktop with nothing extra a second time moves nothing, in whatever order the
      windows are listed by then. */
  lemma {:induction false} SecondRestoreIsQuiet(windows: seq<WindowSnapshot>, focused: Option<string>,
                                                live: seq<LiveWindow>, listed: seq<LiveWindow>)
    requires TitlesTogether(windows) && SeatsTogether(windows)
    requires DistinctConIds(live) && NothingExtra(windows, live)
    requires multiset(listed) == multiset(Moved(live, PlanAll(windows, focused, live).plan.moves))
    ensures PlanAll(windows, focused, listed).plan.moves == []
  {
    var first, second := PlanAll(windows, focused, live), PlanAll(windows, focused, listed);
    var moved := Moved(live, first.plan.moves);
    PlanIsRun(windows, focused, live);
    PlanIsRun(windows, focused, listed);
    MovedIsHome(windows, focused, live);
    MovedIsDistinct(live, first.plan.moves);
    RelistedIsDistinct(moved, listed);
    SameWindows(moved, listed);
    StaysQuiet(windows, live, first.matches, moved, listed, second.matches);
  }
}
