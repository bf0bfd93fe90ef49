/** What the registry guarantees over whole runs of reloads and workspace changes. */
module RegistryRuns {
  import opened Prelude
  import opened ProjectRegistry

  datatype Step =
    | Upsert(file: ProjectFile, newId: nat)
    | Change(workspace: string, owner: Option<nat>, stopAt: nat, startAt: nat)

  /** A rejected upsert changes nothing. */
  function Apply(st: RegistryState, s: Step): RegistryState {
    match s
    case Upsert(file, newId) =>
      var r := Upserted(st, file, newId);
      if r.Ok? then r.value else st
    case Change(ws, owner, stopAt, startAt) => FocusChanged(st, ws, owner, stopAt, startAt)
  }

  function Run(rows: seq<ProjectRow>, steps: seq<Step>): RegistryState {
    if steps == [] then RegistryState(rows, map[], map[], None)
    else Apply(Run(rows, steps[..|steps| - 1]), steps[|steps| - 1])
  }

  /** Every workspace change went to a project that claims the workspace, or to none if none does. */
  ghost predicate Possible(rows: seq<ProjectRow>, steps: seq<Step>) {
    forall n | 0 <= n < |steps| && steps[n].Change? ::
      IsOwner(Run(rows, steps[..n]).byId, steps[n].workspace, steps[n].owner)
  }

  lemma PossibleFront(rows: seq<ProjectRow>, steps: seq<Step>)
    requires Possible(rows, steps) && steps != []
    ensures var n := |steps| - 1;
      && Possible(rows, steps[..n])
      && (steps[n].Change? ==> IsOwner(Run(rows, steps[..n]).byId, steps[n].workspace, steps[n].owner))
  {
    var n := |steps| - 1;
    forall i | 0 <= i < n && steps[..n][i].Change?
      ensures IsOwner(Run(rows, steps[..n][..i]).byId, steps[..n][i].workspace, steps[..n][i].owner)
    {
      assert steps[..n][..i] == steps[..i];
    }
  }

  // ---------------------------------------------------------------- the stopwatch and the active sets

  predicate ActiveIs(byId: map<nat, Entry>, id: nat, ws: set<string>) {
    id in byId && byId[id].runtime.active == ws
  }

  /** A running stopwatch (p, w) means exactly p is active, on exactly w; a stopped one, nobody is. */
  ghost predicate ActiveMatches(st: RegistryState) {
    match st.focus
    case None => forall id | id in st.byId :: ActiveIs(st.byId, id, {})
    case Some(tick) =>
      && ActiveIs(st.byId, tick.project, {tick.workspace})
      && forall id | id in st.byId && id != tick.project :: ActiveIs(st.byId, id, {})
  }

  lemma ActiveStep(st: RegistryState, s: Step)
    requires ActiveMatches(st) && (s.Change? ==> IsOwner(st.byId, s.workspace, s.owner))
    ensures ActiveMatches(Apply(st, s))
  {
  }

  /** Over every run of atomic reloads and workspace changes. */
  lemma {:induction false} ActiveSetsFollowTheStopwatch(rows: seq<ProjectRow>, steps: seq<Step>)
    requires Possible(rows, steps)
    ensures ActiveMatches(Run(rows, steps))
  {
    if steps != [] {
      var n := |steps| - 1;
      PossibleFront(rows, steps);
      ActiveSetsFollowTheStopwatch(rows, steps[..n]);
      ActiveStep(Run(rows, steps[..n]), steps[n]);
    }
  }

  // ---------------------------------------------------------------- a write that comes late

  /** The workspace the stopwatch runs for project `id` on, if it does. */
  function FocusOn(st: RegistryState, id: nat): set<string> {
    if st.focus.Some? && st.focus.value.project == id then {st.focus.value.workspace} else {}
  }

  lemma ActiveIsFocus(st: RegistryState, id: nat)
    requires ActiveMatches(st)
    ensures RuntimeOf(st.byId, id).active == FocusOn(st, id)
  {
    if id in st.byId { assert ActiveIs(st.byId, id, FocusOn(st, id)); }
  }

  /** A reload that read the runtime state after `k` steps of a run and writes it at the end leaves the active
      sets right exactly when the stopwatch then runs for the project on the same workspace, or not at all,
      as when it was read; and it takes back what was booked in between. */
  lemma {:induction false} LateWriteKeepsActiveIff(rows: seq<ProjectRow>, steps: seq<Step>, k: nat, p: Pending)
    requires Possible(rows, steps) && k <= |steps| && p.entry.runtime == RuntimeOf(Run(rows, steps[..k]).byId, p.id)
    ensures ActiveMatches(Written(Run(rows, steps), p))
       <==> FocusOn(Run(rows, steps[..k]), p.id) == FocusOn(Run(rows, steps), p.id)
    ensures FocusSecs(Written(Run(rows, steps), p), p.id) == FocusSecs(Run(rows, steps[..k]), p.id)
  {
    PossiblePrefix(rows, steps, k);
    ActiveSetsFollowTheStopwatch(rows, steps[..k]);
    ActiveSetsFollowTheStopwatch(rows, steps);
    ActiveIsFocus(Run(rows, steps[..k]), p.id);
    WrittenMatchesIff(Run(rows, steps), p);
  }

  lemma PossiblePrefix(rows: seq<ProjectRow>, steps: seq<Step>, k: nat)
    requires Possible(rows, steps) && k <= |steps|
    ensures Possible(rows, steps[..k])
  {
    forall n | 0 <= n < k && steps[..k][n].Change?
      ensures IsOwner(Run(rows, steps[..k][..n]).byId, steps[..k][n].workspace, steps[..k][n].owner)
    {
      assert steps[..k][..n] == steps[..n];
    }
  }

  lemma WrittenMatchesIff(st: RegistryState, p: Pending)
    requires ActiveMatches(st)
    ensures ActiveMatches(Written(st, p)) <==> p.entry.runtime.active == FocusOn(st, p.id)
  {
    var next := Written(st, p);
    assert ActiveIs(next.byId, p.id, p.entry.runtime.active);
    forall id | id in st.byId && id != p.id ensures ActiveIs(next.byId, id, FocusOn(st, id)) {
      assert ActiveIs(st.byId, id, FocusOn(st, id));
    }
    if p.entry.runtime.active == FocusOn(st, p.id) {
      forall id | id in next.byId ensures ActiveIs(next.byId, id, FocusOn(st, id)) {}
    }
  }

  // ---------------------------------------------------------------- focus time

  /** The interval a step closes for project `p`: its length in nanoseconds. */
  function Closes(st: RegistryState, s: Step, p: nat): Option<nat> {
    if s.Change? && st.focus.Some? && st.focus.value.project == p then
      Some(if s.stopAt > st.focus.value.since then s.stopAt - st.focus.value.since else 0)
    else None
  }

  function ClosedCount(rows: seq<ProjectRow>, steps: seq<Step>, p: nat): nat {
    if steps == [] then 0
    else
      var n := |steps| - 1;
      ClosedCount(rows, steps[..n], p) + if Closes(Run(rows, steps[..n]), steps[n], p).Some? then 1 else 0
  }

  function ClosedNanos(rows: seq<ProjectRow>, steps: seq<Step>, p: nat): nat {
    if steps == [] then 0
    else
      var n := |steps| - 1;
      var c := Closes(Run(rows, steps[..n]), steps[n], p);
      ClosedNanos(rows, steps[..n], p) + if c.Some? then c.value else 0
  }

  /** The closed intervals in seconds, each rounded down. */
  function ClosedSecs(rows: seq<ProjectRow>, steps: seq<Step>, p: nat): nat {
    if steps == [] then 0
    else
      var n := |steps| - 1;
      var c := Closes(Run(rows, steps[..n]), steps[n], p);
      ClosedSecs(rows, steps[..n], p) + if c.Some? then c.value / NANOS else 0
  }

  function FocusSecs(st: RegistryState, p: nat): nat {
    if p in st.byId then st.byId[p].runtime.focusSecs else 0
  }

  /** `secs` accounts for `nanos` spread over `n` intervals, each rounded down. */
  predicate Accounts(secs: nat, nanos: nat, n: nat) {
    secs * NANOS <= nanos <= (secs + n) * NANOS
  }

  lemma AccountsGrow(secs: nat, nanos: nat, n: nat, more: nat)
    requires Accounts(secs, nanos, n)
    ensures Accounts(secs + more / NANOS, nanos + more, n + 1)
  {
  }

  lemma SecondsStep(st: RegistryState, s: Step, p: nat)
    requires ActiveMatches(st) && (s.Change? ==> IsOwner(st.byId, s.workspace, s.owner))
    ensures var c := Closes(st, s, p);
      FocusSecs(Apply(st, s), p) == if c.Some? then SatAdd64(FocusSecs(st, p), c.value / NANOS) else FocusSecs(st, p)
  {
  }

  /** The focus time of each project is the time of its closed intervals less at most a second for each:
      S seconds over n intervals of T nanoseconds in all satisfy S <= T <= S + n in seconds, and S is what
      is booked as far as a `u64` holds it. */
  lemma {:induction false} FocusTimeIsAccountedFor(rows: seq<ProjectRow>, steps: seq<Step>, p: nat)
    requires Possible(rows, steps)
    ensures Accounts(ClosedSecs(rows, steps, p), ClosedNanos(rows, steps, p), ClosedCount(rows, steps, p))
    ensures var secs := ClosedSecs(rows, steps, p);
      FocusSecs(Run(rows, steps), p) == if secs <= U64_MAX then secs else U64_MAX
  {
    if steps != [] {
      var n := |steps| - 1;
      var st := Run(rows, steps[..n]);
      PossibleFront(rows, steps);
      FocusTimeIsAccountedFor(rows, steps[..n], p);
      ActiveSetsFollowTheStopwatch(rows, steps[..n]);
      SecondsStep(st, steps[n], p);
      var c := Closes(st, steps[n], p);
      if c.Some? {
        AccountsGrow(ClosedSecs(rows, steps[..n], p), ClosedNanos(rows, steps[..n], p),
          ClosedCount(rows, steps[..n], p), c.value);
      }
    }
  }

  // ---------------------------------------------------------------- the two indexes

  ghost predicate DistinctRowIds(rows: seq<ProjectRow>) {
    forall i, j | 0 <= i < j < |rows| :: rows[i].id != rows[j].id
  }

  /** The project stored under `name` for the registry: the most recent row of that name. */
  predicate StoredAs(rows: seq<ProjectRow>, name: string, id: nat) {
    var at := FindRow(rows, name);
    at.Some? && rows[at.value].id == id
  }

  /** The indexes are inverse to each other, and name the most recent row of each name. */
  ghost predicate Indexed(st: RegistryState) {
    && (forall name | name in st.byName :: st.byName[name] in st.byId && st.byId[st.byName[name]].name == name)
    && (forall id | id in st.byId :: st.byId[id].name in st.byName && st.byName[st.byId[id].name] == id)
    && (forall name | name in st.byName :: StoredAs(st.rows, name, st.byName[name]))
  }

  lemma TouchedDistinct(rows: seq<ProjectRow>, i: nat)
    requires DistinctRowIds(rows) && i < |rows|
    ensures DistinctRowIds(Touched(rows, i))
  {
  }

  lemma FirstRow(rows: seq<ProjectRow>, name: string, i: nat)
    requires i < |rows| && rows[i].name == name && forall j | 0 <= j < i :: rows[j].name != name
    ensures FindRow(rows, name) == Some(i)
  {
  }

  lemma RowsElsewhere(rows: seq<ProjectRow>, more: seq<ProjectRow>, name: string, id: nat)
    requires StoredAs(rows, name, id)
    requires forall i | 0 <= i < |more| :: more[i].name != name
    ensures StoredAs(more + rows, name, id)
  {
    var at := FindRow(rows, name).value;
    FirstRow(more + rows, name, |more| + at);
  }

  lemma TouchedAt(rows: seq<ProjectRow>, i: nat)
    requires i < |rows|
    ensures var t := Touched(rows, i);
      && |t| == |rows| && t[0] == rows[i]
      && (forall j | 0 < j <= i :: t[j] == rows[j - 1])
      && (forall j | i < j < |rows| :: t[j] == rows[j])
  {
  }

  lemma OthersFirst(rows: seq<ProjectRow>, t: seq<ProjectRow>, i: nat, at: nat, name: string)
    requires i < |rows| && |t| == |rows| && t[0] == rows[i] && name != rows[i].name
    requires forall j | 0 < j <= i :: t[j] == rows[j - 1]
    requires forall j | i < j < |rows| :: t[j] == rows[j]
    requires FindRow(rows, name) == Some(at)
    ensures var to := if at < i then at + 1 else at; FindRow(t, name) == Some(to) && t[to] == rows[at]
  {
    var to := if at < i then at + 1 else at;
    forall j | 0 <= j < to ensures t[j].name != name {
      if 0 < j <= i { assert t[j] == rows[j - 1]; }
    }
    FirstRow(t, name, to);
  }

  lemma {:induction false} TouchedStored(rows: seq<ProjectRow>, i: nat, name: string, id: nat)
    requires i < |rows| && FindRow(rows, rows[i].name) == Some(i) && StoredAs(rows, name, id)
    ensures StoredAs(Touched(rows, i), name, id)
  {
    TouchedAt(rows, i);
    if name == rows[i].name {
      FirstRow(Touched(rows, i), name, 0);
    } else {
      OthersFirst(rows, Touched(rows, i), i, FindRow(rows, name).value, name);
    }
  }

  /** What storing a project does to the rows. */
  lemma StoredRows(rows: seq<ProjectRow>, name: string, newId: nat)
    requires DistinctRowIds(rows) && Stored(rows, name, newId).Ok?
    ensures var (next, id) := Stored(rows, name, newId).value;
      && DistinctRowIds(next) && StoredAs(next, name, id)
      && (forall other, o | StoredAs(rows, other, o) :: StoredAs(next, other, o))
      && (StoredAs(rows, name, id) || !HasRow(rows, id))
  {
    var (next, id) := Stored(rows, name, newId).value;
    var at := FindRow(rows, name);
    if at.Some? {
      TouchedDistinct(rows, at.value);
      FirstRow(rows, name, at.value);
      forall other, o | StoredAs(rows, other, o) ensures StoredAs(next, other, o) {
        TouchedStored(rows, at.value, other, o);
      }
    } else {
      FirstRow(next, name, 0);
      forall other, o | StoredAs(rows, other, o) ensures StoredAs(next, other, o) {
        RowsElsewhere(rows, [ProjectRow(newId, name)], other, o);
      }
    }
  }

  lemma UpsertIndexes(st: RegistryState, file: ProjectFile, newId: nat)
    requires Indexed(st) && DistinctRowIds(st.rows) && Upserted(st, file, newId).Ok?
    ensures Indexed(Upserted(st, file, newId).value) && DistinctRowIds(Upserted(st, file, newId).value.rows)
  {
    StoredRows(st.rows, file.name, newId);
    var (rows, id) := Stored(st.rows, file.name, newId).value;
    OldNameIsSame(st, file.name, newId);
    var next := Upserted(st, file, newId).value;
    forall name | name in next.byName
      ensures next.byName[name] in next.byId && next.byId[next.byName[name]].name == name
      ensures StoredAs(next.rows, name, next.byName[name])
    {
      if name != file.name { assert name in st.byName && StoredAs(st.rows, name, st.byName[name]); }
    }
  }

  /** The id a name is stored under is not indexed under any other name. */
  lemma OldNameIsSame(st: RegistryState, name: string, newId: nat)
    requires Indexed(st) && DistinctRowIds(st.rows) && Stored(st.rows, name, newId).Ok?
    ensures var (_, id) := Stored(st.rows, name, newId).value;
      && (id in st.byId ==> st.byId[id].name == name)
      && (name in st.byName ==> st.byName[name] == id)
  {
  }

  lemma SameNames(st: RegistryState, ws: string, owner: Option<nat>, stopAt: nat, startAt: nat)
    ensures var next := FocusChanged(st, ws, owner, stopAt, startAt);
      && next.byId.Keys == st.byId.Keys && next.byName == st.byName && next.rows == st.rows
      && forall id | id in st.byId :: next.byId[id].name == st.byId[id].name
  {
  }

  lemma ChangeIndexes(st: RegistryState, ws: string, owner: Option<nat>, stopAt: nat, startAt: nat)
    requires Indexed(st)
    ensures Indexed(FocusChanged(st, ws, owner, stopAt, startAt))
  {
    var next := FocusChanged(st, ws, owner, stopAt, startAt);
    SameNames(st, ws, owner, stopAt, startAt);
    forall name | name in next.byName
      ensures next.byName[name] in next.byId && next.byId[next.byName[name]].name == name
    {
      assert st.byName[name] in st.byId;
    }
    forall id | id in next.byId ensures next.byId[id].name in next.byName && next.byName[next.byId[id].name] == id {
      assert id in st.byId && next.byId[id].name == st.byId[id].name;
    }
  }

  /** Over every run, from any stored projects: each name leads to the project of that name and each
      project is found under its own name. */
  lemma {:induction false} IndexesAgree(rows: seq<ProjectRow>, steps: seq<Step>)
    requires DistinctRowIds(rows)
    ensures Indexed(Run(rows, steps)) && DistinctRowIds(Run(rows, steps).rows)
  {
    if steps != [] {
      var n := |steps| - 1;
      var st, s := Run(rows, steps[..n]), steps[n];
      IndexesAgree(rows, steps[..n]);
      match s
      case Upsert(file, newId) => if Upserted(st, file, newId).Ok? { UpsertIndexes(st, file, newId); }
      case Change(ws, owner, stopAt, startAt) => ChangeIndexes(st, ws, owner, stopAt, startAt);
    }
  }

  // ---------------------------------------------------------------- what the entries say

  /** The file last indexed under `name`. */
  function LastFile(rows: seq<ProjectRow>, steps: seq<Step>, name: string): Option<ProjectFile> {
    if steps == [] then None
    else
      var n := |steps| - 1;
      var s := steps[n];
      if s.Upsert? && s.file.name == name && Upserted(Run(rows, steps[..n]), s.file, s.newId).Ok? then Some(s.file)
      else LastFile(rows, steps[..n], name)
  }

  /** Every entry carries the tags and workspaces of the file. */
  ghost predicate OfFiles(rows: seq<ProjectRow>, steps: seq<Step>, byId: map<nat, Entry>) {
    forall id | id in byId ::
      LastFile(rows, steps, byId[id].name) == Some(ProjectFile(byId[id].name, byId[id].tags, byId[id].workspaces))
  }

  lemma ChangeKeepsFiles(st: RegistryState, ws: string, owner: Option<nat>, stopAt: nat, startAt: nat, id: nat)
    requires id in st.byId
    ensures var next := FocusChanged(st, ws, owner, stopAt, startAt);
      && id in next.byId && next.byId[id].name == st.byId[id].name
      && next.byId[id].tags == st.byId[id].tags && next.byId[id].workspaces == st.byId[id].workspaces
  {
  }

  lemma UpsertIndexesFile(st: RegistryState, file: ProjectFile, newId: nat)
    requires Indexed(st) && DistinctRowIds(st.rows) && Upserted(st, file, newId).Ok?
    ensures var next := Upserted(st, file, newId).value;
      forall id | id in next.byId ::
        if next.byId[id].name == file.name then
          next.byId[id].tags == file.tags && next.byId[id].workspaces == file.workspaces
        else id in st.byId && next.byId[id] == st.byId[id]
  {
    OldNameIsSame(st, file.name, newId);
  }

  lemma FilesStep(rows: seq<ProjectRow>, steps: seq<Step>)
    requires steps != [] && DistinctRowIds(rows)
    requires var n := |steps| - 1; OfFiles(rows, steps[..n], Run(rows, steps[..n]).byId)
    ensures OfFiles(rows, steps, Run(rows, steps).byId)
  {
    var n := |steps| - 1;
    var st, s := Run(rows, steps[..n]), steps[n];
    IndexesAgree(rows, steps[..n]);
    forall id | id in Run(rows, steps).byId
      ensures var e := Run(rows, steps).byId[id];
        LastFile(rows, steps, e.name) == Some(ProjectFile(e.name, e.tags, e.workspaces))
    {
      match s
      case Upsert(file, newId) =>
        if Upserted(st, file, newId).Ok? { UpsertIndexesFile(st, file, newId); }
      case Change(ws, owner, stopAt, startAt) =>
        SameNames(st, ws, owner, stopAt, startAt);
        ChangeKeepsFiles(st, ws, owner, stopAt, startAt, id);
    }
  }

  /** Over every run a project has the tags and claims the workspaces its file last said. */
  lemma {:induction false} EntriesFollowTheFiles(rows: seq<ProjectRow>, steps: seq<Step>)
    requires DistinctRowIds(rows)
    ensures OfFiles(rows, steps, Run(rows, steps).byId)
  {
    if steps != [] {
      EntriesFollowTheFiles(rows, steps[..|steps| - 1]);
      FilesStep(rows, steps);
    }
  }

  /** The start of the last interval a change of workspace gave to project `p`. */
  function LastStart(steps: seq<Step>, p: nat): Option<nat> {
    if steps == [] then None
    else
      var s := steps[|steps| - 1];
      if s.Change? && s.owner == Some(p) then Some(s.startAt) else LastStart(steps[..|steps| - 1], p)
  }

  lemma LastActiveStep(st: RegistryState, s: Step, p: nat)
    requires s.Change? ==> IsOwner(st.byId, s.workspace, s.owner)
    ensures RuntimeOf(Apply(st, s).byId, p).lastActive
         == if s.Change? && s.owner == Some(p) then Some(s.startAt) else RuntimeOf(st.byId, p).lastActive
  {
  }

  /** A project was last active when its last interval started. */
  lemma {:induction false} LastActiveIsLastStart(rows: seq<ProjectRow>, steps: seq<Step>, p: nat)
    requires Possible(rows, steps)
    ensures RuntimeOf(Run(rows, steps).byId, p).lastActive == LastStart(steps, p)
  {
    if steps != [] {
      var n := |steps| - 1;
      PossibleFront(rows, steps);
      LastActiveIsLastStart(rows, steps[..n], p);
      LastActiveStep(Run(rows, steps[..n]), steps[n], p);
    }
  }

  /** The last change of workspace, if there was one. */
  function LastChange(steps: seq<Step>): (last: Option<Step>)
    ensures last.Some? ==> last.value.Change?
  {
    if steps == [] then None
    else
      var s := steps[|steps| - 1];
      if s.Change? then Some(s) else LastChange(steps[..|steps| - 1])
  }

  /** The stopwatch runs for the project the last change of workspace went to, on that workspace, since then;
      it stands when that change went to none. */
  lemma {:induction false} StopwatchFollowsChanges(rows: seq<ProjectRow>, steps: seq<Step>)
    ensures var last := LastChange(steps);
      Run(rows, steps).focus ==
        if last.None? || last.value.owner.None? then None
        else Some(FocusTick(last.value.owner.value, last.value.workspace, last.value.startAt))
  {
    if steps != [] { StopwatchFollowsChanges(rows, steps[..|steps| - 1]); }
  }

  // ---------------------------------------------------------------- lookups

  /** An identifier leads to the project of that name, else to the one whose id it reads as, else nowhere. */
  lemma {:induction false} ResolveIs(rows: seq<ProjectRow>, steps: seq<Step>, identifier: string, parsed: Option<nat>)
    requires DistinctRowIds(rows)
    ensures var st := Run(rows, steps);
      var r := Resolved(st.byId, st.byName, identifier, parsed);
      && (forall id | id in st.byId && st.byId[id].name == identifier :: r == Ok(id))
      && ((forall id | id in st.byId :: st.byId[id].name != identifier) ==>
            r == if parsed.Some? && parsed.value in st.byId then Ok(parsed.value) else Err(UnknownProject))
  {
    IndexesAgree(rows, steps);
  }

  /** The overlap counts the project's tags that are wanted. */
  lemma {:induction false} OverlapCounts(own: seq<string>, wanted: seq<string>)
    ensures Overlap(own, wanted) > 0 <==> exists t :: t in own && t in wanted
    ensures (forall i, j | 0 <= i < j < |own| :: own[i] != own[j]) ==>
      Overlap(own, wanted) == |set t | t in own && t in wanted|
  {
    if own != [] {
      var n := |own| - 1;
      OverlapCounts(own[..n], wanted);
      assert own == own[..n] + [own[n]];
      var before, after := set t | t in own[..n] && t in wanted, set t | t in own && t in wanted;
      if own[n] in wanted {
        assert after == before + {own[n]};
      } else {
        assert after == before;
      }
    }
  }

  /** So resolving a project's own name gives that project, and the answer by tags is unique. */
  lemma {:induction false} NamesResolve(rows: seq<ProjectRow>, steps: seq<Step>, id: nat, parsed: Option<nat>)
    requires DistinctRowIds(rows) && id in Run(rows, steps).byId
    ensures var st := Run(rows, steps); Resolved(st.byId, st.byName, st.byId[id].name, parsed) == Ok(id)
  {
    IndexesAgree(rows, steps);
  }

  /** Whatever order the projects are visited in, the best one by tags is the same. */
  lemma {:induction false} TagAnswerIsUnique(rows: seq<ProjectRow>, steps: seq<Step>, tags: seq<string>,
                                             a: Option<nat>, b: Option<nat>)
    requires DistinctRowIds(rows)
    requires BestByTags(Run(rows, steps).byId, tags, a) && BestByTags(Run(rows, steps).byId, tags, b)
    ensures a == b
  {
    var byId := Run(rows, steps).byId;
    IndexesAgree(rows, steps);
    if a.Some? && b.Some? {
      assert !Better(byId[a.value], byId[b.value], tags) && !Better(byId[b.value], byId[a.value], tags);
      TextLessTotal(byId[a.value].name, byId[b.value].name);
    }
  }
}
