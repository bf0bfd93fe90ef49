/** The project registry: two indexes over the stored projects, and the focus stopwatch. */
module ProjectRegistry {
  import opened Prelude

  const NANOS: nat := 1_000_000_000

  /** A stored project; the store lists rows most recently updated first. */
  datatype ProjectRow = ProjectRow(id: nat, name: string)

  datatype Runtime = Runtime(lastActive: Option<nat>, focusSecs: nat, active: set<string>)

  datatype Entry = Entry(name: string, tags: seq<string>, workspaces: seq<string>, runtime: Runtime)

  /** A parsed project file. */
  datatype ProjectFile = ProjectFile(name: string, tags: seq<string>, workspaces: seq<string>)

  /** The running stopwatch; `since` is in nanoseconds. */
  datatype FocusTick = FocusTick(project: nat, workspace: string, since: nat)

  datatype RegistryState = RegistryState(
    rows: seq<ProjectRow>, byId: map<nat, Entry>, byName: map<string, nat>, focus: Option<FocusTick>)

  datatype RegistryError = DuplicateId | UnknownProject

  const NO_RUNTIME := Runtime(None, 0, {})

  // ---------------------------------------------------------------- upsert

  /** The first stored row with this name. */
  function FindRow(rows: seq<ProjectRow>, name: string): (r: Option<nat>)
    ensures r.Some? ==> r.value < |rows| && rows[r.value].name == name
    ensures r.Some? ==> forall i | 0 <= i < r.value :: rows[i].name != name
    ensures r.None? ==> forall i | 0 <= i < |rows| :: rows[i].name != name
  {
    if rows == [] then None
    else if rows[0].name == name then Some(0)
    else
      var rest := FindRow(rows[1..], name);
      if rest.Some? then Some(rest.value + 1) else None
  }

  /** Updating a row makes it the most recent. */
  function Touched(rows: seq<ProjectRow>, i: nat): seq<ProjectRow>
    requires i < |rows|
  {
    [rows[i]] + rows[..i] + rows[i + 1..]
  }

  predicate HasRow(rows: seq<ProjectRow>, id: nat) {
    exists i | 0 <= i < |rows| :: rows[i].id == id
  }

  /** The rows after storing a project of this name, and its id; a new row takes `newId` if it is free. */
  function Stored(rows: seq<ProjectRow>, name: string, newId: nat): Result<(seq<ProjectRow>, nat), RegistryError> {
    var at := FindRow(rows, name);
    if at.Some? then Ok((Touched(rows, at.value), rows[at.value].id))
    else if HasRow(rows, newId) then Err(DuplicateId)
    else Ok(([ProjectRow(newId, name)] + rows, newId))
  }

  /** A hot reload keeps the session's runtime state. */
  function RuntimeOf(byId: map<nat, Entry>, id: nat): Runtime {
    if id in byId then byId[id].runtime else NO_RUNTIME
  }

  /** An entry about to be written, with the runtime state read before. */
  datatype Pending = Pending(id: nat, entry: Entry)

  /** The file is stored, and the project's runtime state is read. */
  function Begun(st: RegistryState, file: ProjectFile, newId: nat): Result<(RegistryState, Pending), RegistryError> {
    var stored := Stored(st.rows, file.name, newId);
    if stored.Err? then Err(stored.error)
    else
      var (rows, id) := stored.value;
      Ok((st.(rows := rows), Pending(id, Entry(file.name, file.tags, file.workspaces, RuntimeOf(st.byId, id)))))
  }

  /** Both indexes are written. */
  function Written(st: RegistryState, p: Pending): RegistryState {
    st.(byId := st.byId[p.id := p.entry], byName := st.byName[p.entry.name := p.id])
  }

  /** An upsert that nothing comes in between. */
  function Upserted(st: RegistryState, file: ProjectFile, newId: nat): Result<RegistryState, RegistryError> {
    var begun := Begun(st, file, newId);
    if begun.Err? then Err(begun.error) else Ok(Written(begun.value.0, begun.value.1))
  }

  // ---------------------------------------------------------------- workspace changes

  /** Whole seconds, as `Instant::elapsed().as_secs()`. */
  function ElapsedSecs(since: nat, now: nat): nat {
    if now > since then (now - since) / NANOS else 0
  }

  /** Stop the stopwatch: book the interval and drop the workspace. */
  function Stopped(byId: map<nat, Entry>, focus: Option<FocusTick>, now: nat): map<nat, Entry> {
    if focus.None? || focus.value.project !in byId then byId
    else
      var e, r := byId[focus.value.project], byId[focus.value.project].runtime;
      byId[focus.value.project := e.(runtime := r.(
        focusSecs := SatAdd64(r.focusSecs, ElapsedSecs(focus.value.since, now)),
        active := r.active - {focus.value.workspace}))]
  }

  /** The projects that claim a workspace. */
  predicate Claims(byId: map<nat, Entry>, id: nat, workspace: string) {
    id in byId && workspace in byId[id].workspaces
  }

  /** Focus moves to `workspace`, owned by `owner`; the old interval ends at `stopAt`, the new one starts
      at `startAt`. */
  function FocusChanged(st: RegistryState, workspace: string, owner: Option<nat>, stopAt: nat,
                        startAt: nat): RegistryState {
    var stopped := Stopped(st.byId, st.focus, stopAt);
    if owner.None? || owner.value !in stopped then
      st.(byId := stopped, focus := if owner.Some? then Some(FocusTick(owner.value, workspace, startAt)) else None)
    else
      var e, r := stopped[owner.value], stopped[owner.value].runtime;
      var running := r.(lastActive := Some(startAt), active := r.active + {workspace});
      var started := stopped[owner.value := e.(runtime := running)];
      st.(byId := started, focus := Some(FocusTick(owner.value, workspace, startAt)))
  }

  /** Some project that claims the workspace, whichever the map yields first; none if no project does. */
  ghost predicate IsOwner(byId: map<nat, Entry>, workspace: string, owner: Option<nat>) {
    match owner
    case None => forall id :: !Claims(byId, id, workspace)
    case Some(id) => Claims(byId, id, workspace)
  }

  // ---------------------------------------------------------------- lookups

  function Resolved(byId: map<nat, Entry>, byName: map<string, nat>, identifier: string,
                    parsed: Option<nat>): Result<nat, RegistryError> {
    if identifier in byName && byName[identifier] in byId then Ok(byName[identifier])
    else if parsed.Some? && parsed.value in byId then Ok(parsed.value)
    else Err(UnknownProject)
  }

  /** How many of a project's tags are among the wanted ones. */
  function Overlap(own: seq<string>, wanted: seq<string>): nat {
    if own == [] then 0
    else Overlap(own[..|own| - 1], wanted) + if own[|own| - 1] in wanted then 1 else 0
  }

  /** `a` is a better answer than `b`: more overlap, or as much and an earlier name. */
  predicate Better(a: Entry, b: Entry, tags: seq<string>) {
    var x, y := Overlap(a.tags, tags), Overlap(b.tags, tags);
    x > y || (x == y && TextLess(a.name, b.name))
  }

  /** The project with the largest tag overlap, the earliest name among equals; none if nothing overlaps. */
  ghost predicate BestByTags(byId: map<nat, Entry>, tags: seq<string>, best: Option<nat>) {
    match best
    case None => forall id | id in byId :: Overlap(byId[id].tags, tags) == 0
    case Some(id) =>
      && id in byId && Overlap(byId[id].tags, tags) > 0
      && forall o | o in byId :: !Better(byId[o], byId[id], tags)
  }

  class Registry {
    var rows: seq<ProjectRow>
    var byId: map<nat, Entry>
    var byName: map<string, nat>
    var focus: Option<FocusTick>

    function View(): RegistryState
      reads this
    {
      RegistryState(rows, byId, byName, focus)
    }

    constructor (rows: seq<ProjectRow>)
      ensures View() == RegistryState(rows, map[], map[], None)
    {
      this.rows := rows;
      byId, byName, focus := map[], map[], None;
    }

    /** Store a parsed file and read the runtime state to keep. */
    method BeginUpsert(file: ProjectFile, newId: nat) returns (r: Result<Pending, RegistryError>)
      modifies this`rows
      ensures var spec := Begun(old(View()), file, newId);
        if spec.Ok? then View() == spec.value.0 && r == Ok(spec.value.1)
        else View() == old(View()) && r == Err(spec.error)
    {
      var stored := Stored(rows, file.name, newId);
      if stored.Err? { return Err(stored.error); }
      var id := stored.value.1;
      rows := stored.value.0;
      var runtime := if id in byId then byId[id].runtime else NO_RUNTIME;
      return Ok(Pending(id, Entry(file.name, file.tags, file.workspaces, runtime)));
    }

    /** Write the indexes; the locks were free in between. */
    method FinishUpsert(p: Pending)
      modifies this`byId, this`byName
      ensures View() == Written(old(View()), p)
    {
      byId := byId[p.id := p.entry];
      byName := byName[p.entry.name := p.id];
    }

    /** Store a parsed file and index it, nothing coming in between. */
    method UpsertFromFile(file: ProjectFile, newId: nat) returns (r: Result<nat, RegistryError>)
      modifies this
      ensures var spec := Upserted(old(View()), file, newId);
        if spec.Ok? then View() == spec.value && r == Ok(byName[file.name])
        else View() == old(View()) && r == Err(spec.error)
    {
      var begun := BeginUpsert(file, newId);
      if begun.Err? { return Err(begun.error); }
      FinishUpsert(begun.value);
      return Ok(begun.value.id);
    }

    method FindByWorkspace(workspace: string) returns (owner: Option<nat>)
      ensures IsOwner(byId, workspace, owner)
    {
      var todo := byId.Keys;
      while todo != {}
        invariant todo <= byId.Keys
        invariant forall id | id in byId && id !in todo :: !Claims(byId, id, workspace)
      {
        var id :| id in todo;
        if workspace in byId[id].workspaces { return Some(id); }
        todo := todo - {id};
      }
      return None;
    }

    method HandleWorkspaceChange(workspace: string, stopAt: nat, startAt: nat) returns (ghost owner: Option<nat>)
      modifies this`byId, this`focus
      ensures IsOwner(old(byId), workspace, owner)
      ensures View() == FocusChanged(old(View()), workspace, owner, stopAt, startAt)
    {
      var next := FindByWorkspace(workspace);
      owner := next;
      var previous := focus;
      focus := None;
      if previous.Some? && previous.value.project in byId {
        var secs := ElapsedSecs(previous.value.since, stopAt);
        var e := byId[previous.value.project];
        var r := e.runtime.(
          focusSecs := SatAdd64(e.runtime.focusSecs, secs), active := e.runtime.active - {previous.value.workspace});
        byId := byId[previous.value.project := e.(runtime := r)];
      }
      if next.Some? {
        if next.value in byId {
          var e := byId[next.value];
          var r := e.runtime.(lastActive := Some(startAt), active := e.runtime.active + {workspace});
          byId := byId[next.value := e.(runtime := r)];
        }
        focus := Some(FocusTick(next.value, workspace, startAt));
      }
    }

    method Resolve(identifier: string, parsed: Option<nat>) returns (r: Result<nat, RegistryError>)
      ensures r == Resolved(byId, byName, identifier, parsed)
    {
      if identifier in byName {
        var id := byName[identifier];
        if id in byId { return Ok(id); }
      }
      if parsed.Some? {
        if parsed.value in byId { return Ok(parsed.value); }
      }
      return Err(UnknownProject);
    }

    /** Visits the projects in whatever order the map yields them. */
    method FindByTags(tags: seq<string>) returns (best: Option<nat>)
      ensures BestByTags(byId, tags, best)
    {
      best := None;
      var todo := byId.Keys;
      while todo != {}
        invariant todo <= byId.Keys
        invariant best.None? ==> forall id | id in byId && id !in todo :: Overlap(byId[id].tags, tags) == 0
        invariant best.Some? ==> best.value in byId && Overlap(byId[best.value].tags, tags) > 0
        invariant best.Some? ==> forall id | id in byId && id !in todo :: !Better(byId[id], byId[best.value], tags)
      {
        var id :| id in todo;
        todo := todo - {id};
        if Overlap(byId[id].tags, tags) > 0 {
          if best.None? || Better(byId[id], byId[best.value], tags) {
            BetterIsTransitive(id, best, todo, tags);
            best := Some(id);
          }
        }
      }
    }

    lemma BetterIsTransitive(id: nat, best: Option<nat>, todo: set<nat>, tags: seq<string>)
      requires id in byId && Overlap(byId[id].tags, tags) > 0
      requires best.None? ==> forall o | o in byId && o !in todo && o != id :: Overlap(byId[o].tags, tags) == 0
      requires best.Some? ==> best.value in byId && Better(byId[id], byId[best.value], tags)
      requires best.Some? ==> forall o | o in byId && o !in todo && o != id :: !Better(byId[o], byId[best.value], tags)
      ensures forall o | o in byId && o !in todo :: !Better(byId[o], byId[id], tags)
    {
      forall o | o in byId && o !in todo ensures !Better(byId[o], byId[id], tags) {
        BetterIsOrder(byId[id], byId[id], byId[id], tags);
        if o != id && best.Some? { BetterIsOrder(byId[o], byId[id], byId[best.value], tags); }
      }
    }
  }

  /** `Better` is a strict order. */
  lemma BetterIsOrder(a: Entry, b: Entry, c: Entry, tags: seq<string>)
    ensures !Better(a, a, tags)
    ensures Better(a, b, tags) && Better(b, c, tags) ==> Better(a, c, tags)
  {
    if TextLess(a.name, a.name) { TextLessAsymmetric(a.name, a.name); }
    if TextLess(a.name, b.name) && TextLess(b.name, c.name) { TextLessTransitive(a.name, b.name, c.name); }
  }
}
