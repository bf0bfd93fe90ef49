/** When an import succeeds, what it restores, and which stores survive export and import. */
module StoreRoundTrip {
  import opened Prelude
  import opened StoreValues
  import opened StoreExport

  // ---------------------------------------------------------------- the table order

  /** Every foreign key points to a table listed earlier. */
  ghost predicate ParentsFirst(schema: Schema) {
    forall i, k | 0 <= i < |TABLES| && k in KeysOf(schema, TABLES[i]) :: k.parent in TABLES[..i]
  }

  /** The foreign keys of the shipped schema. */
  const SHIPPED_KEYS: map<string, seq<ForeignKey>> := map[
    "notes" := [ForeignKey("project_id", "projects")],
    "refs" := [ForeignKey("project_id", "projects")],
    "flashcards" := [ForeignKey("linked_note_id", "notes"), ForeignKey("linked_ref_id", "refs"),
                     ForeignKey("project_id", "projects")],
    "events" := [ForeignKey("project_id", "projects")],
    "tasks" := [ForeignKey("project_id", "projects")],
    "experiments" := [ForeignKey("project_id", "projects")]]

  lemma TablesAreDistinct(i: nat, j: nat)
    requires i < j < |TABLES|
    ensures TABLES[i] != TABLES[j]
  {
  }

  /** The shipped table list puts parents before children. */
  lemma {:induction false} ShippedOrderIsSafe(schema: Schema)
    requires schema.foreignKeys == SHIPPED_KEYS
    ensures ParentsFirst(schema)
  {
    forall i, k | 0 <= i < |TABLES| && k in KeysOf(schema, TABLES[i]) ensures k.parent in TABLES[..i] {
      assert k.parent == "projects" || (TABLES[i] == "flashcards" && k.parent in {"notes", "refs"});
      assert TABLES[i] != "projects";
      assert TABLES[0] == "projects" && TABLES[1] == "notes" && TABLES[2] == "refs";
      assert i > 0 && TABLES[..i][0] == "projects";
      if TABLES[i] == "flashcards" {
        assert i == 3 && TABLES[..i][1] == "notes" && TABLES[..i][2] == "refs";
      }
    }
  }

  // ---------------------------------------------------------------- decoded snapshots

  function DecodedOr(schema: Schema, table: string, row: JsonRow): Row {
    if Decodes(schema, table, row) then DecodeRow(schema, table, row) else map[]
  }

  function DecodedRows(schema: Schema, table: string, rows: seq<JsonRow>): seq<Row> {
    seq(|rows|, i requires 0 <= i < |rows| => DecodedOr(schema, table, rows[i]))
  }

  /** The whole snapshot, decoded. */
  function Whole(schema: Schema, rows: JsonTables): Tables {
    map t | t in TABLES :: DecodedRows(schema, t, RowsOf(rows, t))
  }

  /** Row `i` decodes, its keys resolve in `whole`, and the table admits it after the rows before it. */
  ghost predicate RowFits(schema: Schema, whole: Tables, table: string, rows: seq<JsonRow>, i: nat)
    requires i < |rows|
  {
    && Decodes(schema, table, rows[i])
    && KeysResolve(schema, whole, table, DecodeRow(schema, table, rows[i]))
    && schema.admits(table, DecodeRow(schema, table, rows[i]), DecodedRows(schema, table, rows[..i]))
  }

  ghost predicate RowsFit(schema: Schema, whole: Tables, table: string, rows: seq<JsonRow>) {
    forall i | 0 <= i < |rows| :: RowFits(schema, whole, table, rows, i)
  }

  lemma RowsFitSplit(schema: Schema, whole: Tables, table: string, rows: seq<JsonRow>)
    requires rows != []
    ensures var n := |rows| - 1;
      RowsFit(schema, whole, table, rows) <==>
      RowsFit(schema, whole, table, rows[..n]) && RowFits(schema, whole, table, rows, n)
  {
    var n := |rows| - 1;
    forall i | 0 <= i < n
      ensures RowFits(schema, whole, table, rows, i) <==> RowFits(schema, whole, table, rows[..n], i)
    {
      assert rows[..n][..i] == rows[..i] && rows[..n][i] == rows[i];
    }
    if RowsFit(schema, whole, table, rows[..n]) && RowFits(schema, whole, table, rows, n) {
      forall i | 0 <= i < |rows| ensures RowFits(schema, whole, table, rows, i) {
        if i < n { assert RowFits(schema, whole, table, rows[..n], i); }
      }
    }
    if RowsFit(schema, whole, table, rows) {
      forall i | 0 <= i < n ensures RowFits(schema, whole, table, rows[..n], i) {
        assert RowFits(schema, whole, table, rows, i);
      }
    }
  }

  // ---------------------------------------------------------------- inserting one table

  /** The parents of `table` hold in `tables` what they hold in `whole`. */
  ghost predicate ParentsReady(schema: Schema, tables: Tables, whole: Tables, table: string) {
    forall k | k in KeysOf(schema, table) :: k.parent != table && RowsOf(tables, k.parent) == RowsOf(whole, k.parent)
  }

  /** `after` is `before` with `rows` in `table`. */
  ghost predicate Filled(before: Tables, after: Tables, table: string, rows: seq<Row>) {
    && RowsOf(after, table) == rows
    && after.Keys <= before.Keys + {table}
    && forall u | u != table :: RowsOf(after, u) == RowsOf(before, u)
  }

  lemma InsertOne(schema: Schema, start: Tables, tables: Tables, whole: Tables, table: string, rows: seq<JsonRow>)
    requires rows != [] && ParentsReady(schema, start, whole, table)
    requires Filled(start, tables, table, DecodedRows(schema, table, rows[..|rows| - 1]))
    ensures var n := |rows| - 1;
      var r := InsertRow(schema, tables, table, rows[n]);
      && (r.Ok? <==> RowFits(schema, whole, table, rows, n))
      && (r.Ok? ==> Filled(start, r.value, table, DecodedRows(schema, table, rows)))
  {
  }

  lemma {:induction false} InsertTable(schema: Schema, tables: Tables, whole: Tables, table: string, rows: seq<JsonRow>)
    requires ParentsReady(schema, tables, whole, table) && RowsOf(tables, table) == []
    ensures var r := InsertRows(schema, tables, table, rows);
      && (r.Ok? <==> RowsFit(schema, whole, table, rows))
      && (r.Ok? ==> Filled(tables, r.value, table, DecodedRows(schema, table, rows)))
  {
    if rows != [] {
      var n := |rows| - 1;
      InsertTable(schema, tables, whole, table, rows[..n]);
      RowsFitSplit(schema, whole, table, rows);
      var front := InsertRows(schema, tables, table, rows[..n]);
      if front.Ok? {
        InsertOne(schema, tables, front.value, whole, table, rows);
      }
    }
  }

  // ---------------------------------------------------------------- inserting all tables

  /** The first `n` tables are restored and the others still empty. */
  ghost predicate RestoredUpTo(tables: Tables, whole: Tables, n: nat)
    requires n <= |TABLES|
  {
    && (forall j | 0 <= j < n :: RowsOf(tables, TABLES[j]) == RowsOf(whole, TABLES[j]))
    && (forall j | n <= j < |TABLES| :: RowsOf(tables, TABLES[j]) == [])
  }

  ghost predicate TablesFit(schema: Schema, whole: Tables, rows: JsonTables, n: nat)
    requires n <= |TABLES|
  {
    forall j | 0 <= j < n :: RowsFit(schema, whole, TABLES[j], RowsOf(rows, TABLES[j]))
  }

  lemma ParentsAreReady(schema: Schema, tables: Tables, whole: Tables, n: nat)
    requires n < |TABLES| && ParentsFirst(schema) && RestoredUpTo(tables, whole, n)
    ensures ParentsReady(schema, tables, whole, TABLES[n])
  {
    forall k | k in KeysOf(schema, TABLES[n])
      ensures k.parent != TABLES[n] && RowsOf(tables, k.parent) == RowsOf(whole, k.parent)
    {
      var j :| 0 <= j < n && TABLES[..n][j] == k.parent;
      TablesAreDistinct(j, n);
    }
  }

  lemma OneMoreTable(before: Tables, after: Tables, whole: Tables, n: nat)
    requires n < |TABLES| && RestoredUpTo(before, whole, n)
    requires Filled(before, after, TABLES[n], RowsOf(whole, TABLES[n]))
    ensures RestoredUpTo(after, whole, n + 1)
  {
  }

  /** One turn of the table loop. */
  lemma InsertNext(schema: Schema, front: Tables, rows: JsonTables, whole: Tables, n: nat)
    requires n < |TABLES| && ParentsFirst(schema) && whole == Whole(schema, rows)
    requires RestoredUpTo(front, whole, n) && ListCovers(front)
    ensures var r := InsertRows(schema, front, TABLES[n], RowsOf(rows, TABLES[n]));
      && (r.Ok? <==> RowsFit(schema, whole, TABLES[n], RowsOf(rows, TABLES[n])))
      && (r.Ok? ==> RestoredUpTo(r.value, whole, n + 1) && ListCovers(r.value))
  {
    var t := TABLES[n];
    assert t in TABLES;
    ParentsAreReady(schema, front, whole, n);
    InsertTable(schema, front, whole, t, RowsOf(rows, t));
    var r := InsertRows(schema, front, t, RowsOf(rows, t));
    if r.Ok? { OneMoreTable(front, r.value, whole, n); }
  }

  lemma TablesFitSplit(schema: Schema, whole: Tables, rows: JsonTables, n: nat)
    requires n < |TABLES|
    ensures TablesFit(schema, whole, rows, n + 1)
       <==> TablesFit(schema, whole, rows, n) && RowsFit(schema, whole, TABLES[n], RowsOf(rows, TABLES[n]))
  {
  }

  /** The import of the first `n` tables succeeds exactly when they fit, and then has restored them. */
  ghost predicate ImportedUpTo(schema: Schema, r: Inserted, rows: JsonTables, whole: Tables, n: nat)
    requires n <= |TABLES|
  {
    && (r.Ok? <==> TablesFit(schema, whole, rows, n))
    && (r.Ok? ==> RestoredUpTo(r.value, whole, n) && ListCovers(r.value))
  }

  lemma {:induction false} InsertTurn(schema: Schema, start: Tables, rows: JsonTables, whole: Tables, n: nat)
    requires n < |TABLES| && ParentsFirst(schema) && whole == Whole(schema, rows)
    requires ImportedUpTo(schema, InsertTables(schema, start, rows, n), rows, whole, n)
    ensures ImportedUpTo(schema, InsertTables(schema, start, rows, n + 1), rows, whole, n + 1)
  {
    var front := InsertTables(schema, start, rows, n);
    TablesFitSplit(schema, whole, rows, n);
    if front.Ok? { InsertNext(schema, front.value, rows, whole, n); }
  }

  lemma {:induction false} NothingImported(schema: Schema, start: Tables, rows: JsonTables, whole: Tables)
    requires IsEmpty(start) && ListCovers(start)
    ensures ImportedUpTo(schema, InsertTables(schema, start, rows, 0), rows, whole, 0)
  {
    assert RestoredUpTo(start, whole, 0) by {
      forall j | 0 <= j < |TABLES| ensures RowsOf(start, TABLES[j]) == [] { assert TABLES[j] in TABLES; }
    }
  }

  lemma {:induction false} InsertAll(schema: Schema, start: Tables, rows: JsonTables, whole: Tables)
    requires ParentsFirst(schema) && IsEmpty(start) && ListCovers(start) && whole == Whole(schema, rows)
    ensures ImportedUpTo(schema, InsertTables(schema, start, rows, |TABLES|), rows, whole, |TABLES|)
  {
    NothingImported(schema, start, rows, whole);
    for n := 0 to |TABLES|
      invariant ImportedUpTo(schema, InsertTables(schema, start, rows, n), rows, whole, n)
    {
      InsertTurn(schema, start, rows, whole, n);
    }
  }

  ghost predicate SameRows(a: Tables, b: Tables) {
    forall j | 0 <= j < |TABLES| :: RowsOf(a, TABLES[j]) == RowsOf(b, TABLES[j])
  }

  /** An import succeeds exactly when version and tables are known, the store has no other tables and no
      rows, and every row decodes, is admitted after the rows before it, and finds its parents in the snapshot
      as a whole: because parents are listed first, no key fails for being inserted too early. What it
      restores is the decoded snapshot. */
  lemma {:induction false} ImportSucceedsIff(schema: Schema, start: Tables, export_: StoreExport)
    requires ParentsFirst(schema)
    ensures var r, whole := ImportInto(schema, start, export_), Whole(schema, export_.tables);
      && (r.Ok? <==>
            && export_.version == 1 && (forall t | t in export_.tables :: t in TABLES)
            && (forall t | t in start :: t in TABLES && start[t] == [])
            && TablesFit(schema, whole, export_.tables, |TABLES|))
      && (r.Ok? ==> SameRows(r.value, whole) && ListCovers(r.value))
  {
    EmptyMeans(start);
    if IsEmpty(start) && ListCovers(start) { EmptyImport(schema, start, export_); }
  }

  lemma EmptyImport(schema: Schema, start: Tables, export_: StoreExport)
    requires ParentsFirst(schema) && IsEmpty(start) && ListCovers(start)
    ensures var r, whole := ImportInto(schema, start, export_), Whole(schema, export_.tables);
      && (r.Ok? <==>
            && export_.version == 1 && (forall t | t in export_.tables :: t in TABLES)
            && TablesFit(schema, whole, export_.tables, |TABLES|))
      && (r.Ok? ==> SameRows(r.value, whole) && ListCovers(r.value))
  {
    InsertAll(schema, start, export_.tables, Whole(schema, export_.tables));
  }

  lemma EmptyMeans(start: Tables)
    ensures IsEmpty(start) && ListCovers(start) <==> forall t | t in start :: t in TABLES && start[t] == []
  {
    if IsEmpty(start) && ListCovers(start) {
      forall t | t in start ensures t in TABLES && start[t] == [] { assert RowsOf(start, t) == start[t]; }
    }
  }

  lemma {:induction false} RowErrors(schema: Schema, tables: Tables, table: string, rows: seq<JsonRow>)
    ensures var r := InsertRows(schema, tables, table, rows);
      r.Err? ==> r.error == Rejected || (r.error == BadHex && exists row | row in rows :: !Decodes(schema, table, row))
  {
    if rows != [] {
      var n := |rows| - 1;
      RowErrors(schema, tables, table, rows[..n]);
      assert rows == rows[..n] + [rows[n]];
    }
  }

  lemma {:induction false} TableErrors(schema: Schema, tables: Tables, rows: JsonTables, n: nat)
    requires n <= |TABLES|
    ensures var r := InsertTables(schema, tables, rows, n); r.Err? ==> r.error == Rejected || r.error == BadHex
  {
    if n > 0 {
      TableErrors(schema, tables, rows, n - 1);
      var front := InsertTables(schema, tables, rows, n - 1);
      if front.Ok? { RowErrors(schema, front.value, TABLES[n - 1], RowsOf(rows, TABLES[n - 1])); }
    }
  }

  /** Which of the checks before the first row fails first. */
  lemma {:induction false} ImportRefusesIff(schema: Schema, start: Tables, export_: StoreExport)
    ensures var r, known := ImportInto(schema, start, export_), forall t | t in export_.tables :: t in TABLES;
      && (r == Err(WrongVersion) <==> export_.version != 1)
      && (r == Err(UnknownTable) <==> export_.version == 1 && !known)
      && (r == Err(StaleTableList) <==> export_.version == 1 && known && exists t | t in start :: t !in TABLES)
      && (r == Err(NotEmpty) <==>
            && export_.version == 1 && known && (forall t | t in start :: t in TABLES)
            && exists t | t in start :: start[t] != [])
  {
    EmptyMeans(start);
    TableErrors(schema, start, export_.tables, |TABLES|);
  }

  // ---------------------------------------------------------------- the report

  /** All rows of the first `n` listed tables, one after the other. */
  function AllRows<T>(tables: map<string, seq<T>>, n: nat): seq<T>
    requires n <= |TABLES|
  {
    if n == 0 then [] else AllRows(tables, n - 1) + RowsOf(tables, TABLES[n - 1])
  }

  /** The total an import reports is the number of rows. */
  lemma {:induction false} TotalCountsRows<T>(tables: map<string, seq<T>>, n: nat)
    requires n <= |TABLES|
    ensures RowTotal(tables, n) == |AllRows(tables, n)|
    ensures forall j | 0 <= j < n :: forall row | row in RowsOf(tables, TABLES[j]) :: row in AllRows(tables, n)
  {
    if n > 0 { TotalCountsRows(tables, n - 1); }
  }

  // ---------------------------------------------------------------- export, then import

  /** A store the database could hold: no table off the list, keys resolve, rows admitted in order. */
  ghost predicate Consistent(schema: Schema, tables: Tables) {
    && ListCovers(tables)
    && forall j, i | 0 <= j < |TABLES| && 0 <= i < |RowsOf(tables, TABLES[j])| ::
         var rows := RowsOf(tables, TABLES[j]);
         KeysResolve(schema, tables, TABLES[j], rows[i]) && schema.admits(TABLES[j], rows[i], rows[..i])
  }

  /** The ids of the rows of a table. */
  function IdsIn(tables: Tables, table: string): set<SqlValue> {
    set p | p in RowsOf(tables, table) && "id" in p :: p["id"]
  }

  /** The keys of a row resolve exactly when each of them is absent, null, or the id of a parent. */
  lemma {:induction false} KeysResolveIff(schema: Schema, tables: Tables, table: string, row: Row)
    ensures KeysResolve(schema, tables, table, row) <==>
      (table in schema.foreignKeys ==>
         forall k | k in schema.foreignKeys[table] && k.column in row && row[k.column] != Null ::
           row[k.column] in IdsIn(tables, k.parent))
  {
    forall k | k in KeysOf(schema, table)
      ensures Resolves(tables, row, k) <==>
        k.column !in row || row[k.column] == Null || row[k.column] in IdsIn(tables, k.parent)
    {
    }
  }

  /** An imported store is one the database could hold: no key dangles and every row was admitted. */
  lemma {:induction false} ImportedIsConsistent(schema: Schema, start: Tables, export_: StoreExport)
    requires ParentsFirst(schema) && ImportInto(schema, start, export_).Ok?
    ensures Consistent(schema, ImportInto(schema, start, export_).value)
  {
    var back, whole := ImportInto(schema, start, export_).value, Whole(schema, export_.tables);
    ImportSucceedsIff(schema, start, export_);
    forall j, i | 0 <= j < |TABLES| && 0 <= i < |RowsOf(back, TABLES[j])|
      ensures var rows := RowsOf(back, TABLES[j]);
        KeysResolve(schema, back, TABLES[j], rows[i]) && schema.admits(TABLES[j], rows[i], rows[..i])
    {
      ImportedRow(schema, back, whole, export_.tables, j, i);
    }
  }

  lemma ImportedRow(schema: Schema, back: Tables, whole: Tables, rows: JsonTables, j: nat, i: nat)
    requires ParentsFirst(schema) && whole == Whole(schema, rows) && SameRows(back, whole)
    requires j < |TABLES| && i < |RowsOf(back, TABLES[j])| && TablesFit(schema, whole, rows, |TABLES|)
    ensures var own := RowsOf(back, TABLES[j]);
      KeysResolve(schema, back, TABLES[j], own[i]) && schema.admits(TABLES[j], own[i], own[..i])
  {
    var t := TABLES[j];
    var from, own := RowsOf(rows, t), RowsOf(back, t);
    assert own == DecodedRows(schema, t, from);
    assert RowsFit(schema, whole, t, from) && RowFits(schema, whole, t, from, i);
    assert own[..i] == DecodedRows(schema, t, from[..i]);
    ResolveSameRows(schema, back, whole, j, own[i]);
  }

  predicate RowStorable(schema: Schema, table: string, row: Row) {
    forall c | c in row :: Storable(row[c], table in schema.blobColumns && c in schema.blobColumns[table])
  }

  ghost predicate AllStorable(schema: Schema, tables: Tables) {
    forall j, i | 0 <= j < |TABLES| && 0 <= i < |RowsOf(tables, TABLES[j])| ::
      RowStorable(schema, TABLES[j], RowsOf(tables, TABLES[j])[i])
  }

  lemma RowSurvivesIff(schema: Schema, table: string, row: Row)
    ensures var j := ExportRow(schema, row);
      (Decodes(schema, table, j) && DecodeRow(schema, table, j) == row) <==> RowStorable(schema, table, row)
  {
    var j := ExportRow(schema, row);
    forall c | c in row
      ensures Cell(schema, table, j, c) == Ok(row[c])
        <==> Storable(row[c], table in schema.blobColumns && c in schema.blobColumns[table])
    {
      ValueSurvivesIff(row[c], c in BlobColumns(schema, table), schema.repair);
    }
    if Decodes(schema, table, j) && DecodeRow(schema, table, j) == row {
      forall c | c in row ensures Storable(row[c], table in schema.blobColumns && c in schema.blobColumns[table]) {
        assert Cell(schema, table, j, c).value == row[c];
      }
    }
    if RowStorable(schema, table, row) {
      forall c | c in j ensures Cell(schema, table, j, c) == Ok(row[c]) {}
    }
  }

  /** The rows of one table of an export. */
  lemma ExportedRows(schema: Schema, tables: Tables, j: nat)
    requires ListCovers(tables) && j < |TABLES|
    ensures RowsOf(ExportOf(schema, tables).value.tables, TABLES[j]) == ExportRows(schema, RowsOf(tables, TABLES[j]))
  {
  }

  lemma StorableDecodes(schema: Schema, table: string, rows: seq<Row>)
    requires forall i | 0 <= i < |rows| :: RowStorable(schema, table, rows[i])
    ensures forall i | 0 <= i < |rows| :: Decodes(schema, table, ExportRows(schema, rows)[i])
    ensures DecodedRows(schema, table, ExportRows(schema, rows)) == rows
  {
    forall i | 0 <= i < |rows|
      ensures Decodes(schema, table, ExportRows(schema, rows)[i])
      ensures DecodedRows(schema, table, ExportRows(schema, rows))[i] == rows[i]
    {
      RowSurvivesIff(schema, table, rows[i]);
    }
  }

  lemma ResolveSameRows(schema: Schema, a: Tables, b: Tables, j: nat, row: Row)
    requires ParentsFirst(schema) && SameRows(a, b) && j < |TABLES|
    ensures KeysResolve(schema, a, TABLES[j], row) <==> KeysResolve(schema, b, TABLES[j], row)
  {
    forall k | k in KeysOf(schema, TABLES[j]) ensures Resolves(a, row, k) <==> Resolves(b, row, k) {
      var i :| 0 <= i < j && TABLES[..j][i] == k.parent;
      assert TABLES[i] == k.parent;
    }
  }

  /** The decoded export of a storable store is the store. */
  lemma WholeIsSource(schema: Schema, tables: Tables)
    requires ListCovers(tables) && AllStorable(schema, tables)
    ensures SameRows(Whole(schema, ExportOf(schema, tables).value.tables), tables)
  {
    forall j | 0 <= j < |TABLES|
      ensures RowsOf(Whole(schema, ExportOf(schema, tables).value.tables), TABLES[j]) == RowsOf(tables, TABLES[j])
    {
      assert TABLES[j] in TABLES;
      ExportedRows(schema, tables, j);
      StorableDecodes(schema, TABLES[j], RowsOf(tables, TABLES[j]));
    }
  }

  lemma SourceRowFits(schema: Schema, tables: Tables, whole: Tables, j: nat, i: nat)
    requires ParentsFirst(schema) && Consistent(schema, tables) && AllStorable(schema, tables)
      && SameRows(whole, tables)
    requires j < |TABLES| && i < |RowsOf(tables, TABLES[j])|
    ensures RowFits(schema, whole, TABLES[j], ExportRows(schema, RowsOf(tables, TABLES[j])), i)
  {
    var t, rows := TABLES[j], RowsOf(tables, TABLES[j]);
    var out := ExportRows(schema, rows);
    RowSurvivesIff(schema, t, rows[i]);
    ResolveSameRows(schema, whole, tables, j, rows[i]);
    assert out[..i] == ExportRows(schema, rows[..i]);
    forall m | 0 <= m < i ensures RowStorable(schema, t, rows[..i][m]) { assert rows[..i][m] == rows[m]; }
    StorableDecodes(schema, t, rows[..i]);
    assert KeysResolve(schema, tables, t, rows[i]) && schema.admits(t, rows[i], rows[..i]);
  }

  lemma SourceFits(schema: Schema, tables: Tables)
    requires ParentsFirst(schema) && Consistent(schema, tables) && AllStorable(schema, tables)
    ensures var rows := ExportOf(schema, tables).value.tables;
      TablesFit(schema, Whole(schema, rows), rows, |TABLES|)
  {
    var rows := ExportOf(schema, tables).value.tables;
    var whole := Whole(schema, rows);
    WholeIsSource(schema, tables);
    forall j | 0 <= j < |TABLES| ensures RowsFit(schema, whole, TABLES[j], RowsOf(rows, TABLES[j])) {
      ExportedRows(schema, tables, j);
      forall i | 0 <= i < |RowsOf(tables, TABLES[j])|
        ensures RowFits(schema, whole, TABLES[j], ExportRows(schema, RowsOf(tables, TABLES[j])), i)
      {
        SourceRowFits(schema, tables, whole, j, i);
      }
    }
  }

  lemma OnlyStorableComesBack(schema: Schema, tables: Tables, j: nat, i: nat)
    requires ListCovers(tables) && j < |TABLES| && i < |RowsOf(tables, TABLES[j])|
    requires var rows := ExportOf(schema, tables).value.tables;
      SameRows(Whole(schema, rows), tables) && RowsFit(schema, Whole(schema, rows), TABLES[j], RowsOf(rows, TABLES[j]))
    ensures RowStorable(schema, TABLES[j], RowsOf(tables, TABLES[j])[i])
  {
    var t, source := TABLES[j], RowsOf(tables, TABLES[j]);
    var rows := ExportOf(schema, tables).value.tables;
    assert t in TABLES;
    ExportedRows(schema, tables, j);
    assert RowFits(schema, Whole(schema, rows), t, RowsOf(rows, t), i);
    assert RowsOf(Whole(schema, rows), t)[i] == DecodedOr(schema, t, ExportRow(schema, source[i]));
    RowSurvivesIff(schema, t, source[i]);
  }

  /** A consistent store comes back row for row from its own export, into any empty store, exactly when
      every value is storable in its column. */
  lemma {:induction false} StoreSurvivesIff(schema: Schema, tables: Tables, target: Tables)
    requires ParentsFirst(schema) && Consistent(schema, tables) && IsEmpty(target) && ListCovers(target)
    ensures var r := ImportInto(schema, target, ExportOf(schema, tables).value);
      (r.Ok? && SameRows(r.value, tables)) <==> AllStorable(schema, tables)
  {
    var export_ := ExportOf(schema, tables).value;
    ImportSucceedsIff(schema, target, export_);
    var r, whole := ImportInto(schema, target, export_), Whole(schema, export_.tables);
    if AllStorable(schema, tables) {
      SourceFits(schema, tables);
      WholeIsSource(schema, tables);
    }
    if r.Ok? && SameRows(r.value, tables) {
      assert SameRows(whole, tables);
      forall j, i | 0 <= j < |TABLES| && 0 <= i < |RowsOf(tables, TABLES[j])|
        ensures RowStorable(schema, TABLES[j], RowsOf(tables, TABLES[j])[i])
      {
        OnlyStorableComesBack(schema, tables, j, i);
      }
    }
  }

  lemma {:induction false} TotalsAgree(schema: Schema, tables: Tables, n: nat)
    requires ListCovers(tables) && n <= |TABLES|
    ensures RowTotal(ExportOf(schema, tables).value.tables, n) == RowTotal(tables, n)
  {
    if n > 0 {
      TotalsAgree(schema, tables, n - 1);
      ExportedRows(schema, tables, n - 1);
    }
  }

  /** Then exporting the restored store gives the very same snapshot, and the import reports as many rows
      as the source has. */
  lemma {:induction false} RestoredStoreExportsTheSame(schema: Schema, tables: Tables, target: Tables)
    requires ParentsFirst(schema) && Consistent(schema, tables) && IsEmpty(target) && ListCovers(target)
    requires AllStorable(schema, tables)
    ensures var r := ImportInto(schema, target, ExportOf(schema, tables).value);
      r.Ok? && ExportOf(schema, r.value) == ExportOf(schema, tables)
    ensures RowTotal(ExportOf(schema, tables).value.tables, |TABLES|) == RowTotal(tables, |TABLES|)
  {
    var export_ := ExportOf(schema, tables).value;
    StoreSurvivesIff(schema, tables, target);
    ImportSucceedsIff(schema, target, export_);
    var back := ImportInto(schema, target, export_).value;
    forall t | t in TABLES ensures RowsOf(back, t) == RowsOf(tables, t) {
      var j :| 0 <= j < |TABLES| && TABLES[j] == t;
    }
    assert ExportOf(schema, back).value.tables == export_.tables;
    TotalsAgree(schema, tables, |TABLES|);
  }
}
