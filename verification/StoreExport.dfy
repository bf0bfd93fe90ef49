/** Whole-store export, and import into an empty store. */
module StoreExport {
  import opened Prelude
  import opened StoreValues

  type Row = map<string, SqlValue>
  type JsonRow = map<string, JsonValue>
  type Tables = map<string, seq<Row>>
  type JsonTables = map<string, seq<JsonRow>>

  const EXPORT_VERSION: nat := 1

  /** Every persistent table, parents before children. */
  const TABLES: seq<string> :=
    ["projects", "notes", "refs", "flashcards", "events", "tasks", "experiments",
     "entity_tags", "entity_relations", "sync_metadata"]

  /** `column` of the child holds the `id` of a row of `parent`, or null. */
  datatype ForeignKey = ForeignKey(column: string, parent: string)

  /** What the database knows beside its rows. `admits` stands for the remaining constraints of a table
      (keys, checks, not null), judged against the rows inserted before. */
  datatype Schema = Schema(
    blobColumns: map<string, set<string>>,
    foreignKeys: map<string, seq<ForeignKey>>,
    admits: (string, Row, seq<Row>) -> bool,
    repair: Repair)

  datatype StoreExport = StoreExport(version: nat, tables: JsonTables)

  datatype ImportError = WrongVersion | UnknownTable | StaleTableList | NotEmpty | BadHex | Rejected

  // ---------------------------------------------------------------- rows

  function BlobColumns(schema: Schema, table: string): set<string> {
    if table in schema.blobColumns then schema.blobColumns[table] else {}
  }

  function KeysOf(schema: Schema, table: string): seq<ForeignKey> {
    if table in schema.foreignKeys then schema.foreignKeys[table] else []
  }

  function RowsOf<T>(tables: map<string, seq<T>>, table: string): seq<T> {
    if table in tables then tables[table] else []
  }

  function ExportRow(schema: Schema, row: Row): JsonRow {
    map c | c in row :: ToJson(row[c], schema.repair)
  }

  function ExportRows(schema: Schema, rows: seq<Row>): seq<JsonRow> {
    seq(|rows|, i requires 0 <= i < |rows| => ExportRow(schema, rows[i]))
  }

  function Cell(schema: Schema, table: string, row: JsonRow, c: string): Result<SqlValue, HexError>
    requires c in row
  {
    ToSql(row[c], c in BlobColumns(schema, table))
  }

  predicate Decodes(schema: Schema, table: string, row: JsonRow) {
    forall c | c in row :: Cell(schema, table, row, c).Ok?
  }

  function DecodeRow(schema: Schema, table: string, row: JsonRow): Row
    requires Decodes(schema, table, row)
  {
    map c | c in row :: Cell(schema, table, row, c).value
  }

  /** The key is null, absent, or the id of a row of the parent table. */
  predicate Resolves(tables: Tables, row: Row, key: ForeignKey) {
    key.column !in row || row[key.column] == Null
    || exists p | p in RowsOf(tables, key.parent) :: "id" in p && p["id"] == row[key.column]
  }

  predicate KeysResolve(schema: Schema, tables: Tables, table: string, row: Row) {
    forall k | k in KeysOf(schema, table) :: Resolves(tables, row, k)
  }

  // ---------------------------------------------------------------- inserting

  type Inserted = Result<Tables, ImportError>

  /** Insert one decoded row: foreign keys are checked at once, against what is there so far. */
  function InsertRow(schema: Schema, tables: Tables, table: string, row: JsonRow): Inserted {
    if !Decodes(schema, table, row) then Err(BadHex)
    else
      var r := DecodeRow(schema, table, row);
      if KeysResolve(schema, tables, table, r) && schema.admits(table, r, RowsOf(tables, table))
      then Ok(tables[table := RowsOf(tables, table) + [r]])
      else Err(Rejected)
  }

  function InsertRows(schema: Schema, tables: Tables, table: string, rows: seq<JsonRow>): Inserted {
    if rows == [] then Ok(tables)
    else
      var front := InsertRows(schema, tables, table, rows[..|rows| - 1]);
      if front.Err? then front else InsertRow(schema, front.value, table, rows[|rows| - 1])
  }

  /** Insert the first `n` tables of the list, in list order. */
  function InsertTables(schema: Schema, tables: Tables, rows: JsonTables, n: nat): Inserted
    requires n <= |TABLES|
  {
    if n == 0 then Ok(tables)
    else
      var front := InsertTables(schema, tables, rows, n - 1);
      if front.Err? then front else InsertRows(schema, front.value, TABLES[n - 1], RowsOf(rows, TABLES[n - 1]))
  }

  // ---------------------------------------------------------------- the store

  /** The live schema has no table the list leaves out. */
  predicate ListCovers(tables: Tables) {
    forall t | t in tables :: t in TABLES
  }

  predicate IsEmpty(tables: Tables) {
    forall t | t in TABLES :: RowsOf(tables, t) == []
  }

  function ExportOf(schema: Schema, tables: Tables): Result<StoreExport, ImportError> {
    if !ListCovers(tables) then Err(StaleTableList)
    else Ok(StoreExport(EXPORT_VERSION, map t | t in TABLES :: ExportRows(schema, RowsOf(tables, t))))
  }

  function ImportInto(schema: Schema, tables: Tables, export_: StoreExport): Inserted {
    if export_.version != EXPORT_VERSION then Err(WrongVersion)
    else if exists t :: t in export_.tables && t !in TABLES then Err(UnknownTable)
    else if !ListCovers(tables) then Err(StaleTableList)
    else if !IsEmpty(tables) then Err(NotEmpty)
    else InsertTables(schema, tables, export_.tables, |TABLES|)
  }

  /** Rows per table, over the listed tables. */
  function RowTotal<T>(tables: map<string, seq<T>>, n: nat): nat
    requires n <= |TABLES|
  {
    if n == 0 then 0 else RowTotal(tables, n - 1) + |RowsOf(tables, TABLES[n - 1])|
  }

  class DataStore {
    const schema: Schema
    /** The live user tables and their rows, in insertion order. */
    var tables: Tables

    constructor (schema: Schema, tables: Tables)
      ensures this.schema == schema && this.tables == tables
    {
      this.schema, this.tables := schema, tables;
    }

    method ExportAll() returns (r: Result<StoreExport, ImportError>)
      ensures r == ExportOf(schema, tables)
    {
      if exists t :: t in tables && t !in TABLES { return Err(StaleTableList); }
      var out: JsonTables := map[];
      for i := 0 to |TABLES|
        invariant out == map t | t in TABLES[..i] :: ExportRows(schema, RowsOf(tables, t))
      {
        assert TABLES[..i + 1] == TABLES[..i] + [TABLES[i]];
        var source := RowsOf(tables, TABLES[i]);
        var rows: seq<JsonRow> := [];
        for j := 0 to |source|
          invariant rows == ExportRows(schema, source[..j])
        {
          rows := rows + [ExportRow(schema, source[j])];
        }
        assert source[..|source|] == source;
        out := out[TABLES[i] := rows];
      }
      assert TABLES[..|TABLES|] == TABLES;
      return Ok(StoreExport(EXPORT_VERSION, out));
    }

    /** Rows go into a working copy that replaces the store at the end: a failing import changes nothing.
        The report counts the rows inserted. */
    method ImportAll(export_: StoreExport) returns (r: Result<nat, ImportError>)
      modifies this
      ensures var spec := ImportInto(schema, old(tables), export_);
        if spec.Ok? then r == Ok(RowTotal(export_.tables, |TABLES|)) && tables == spec.value
        else r == Err(spec.error) && tables == old(tables)
    {
      if export_.version != EXPORT_VERSION { return Err(WrongVersion); }
      if exists t :: t in export_.tables && t !in TABLES { return Err(UnknownTable); }
      if exists t :: t in tables && t !in TABLES { return Err(StaleTableList); }
      if exists t :: t in TABLES && RowsOf(tables, t) != [] { return Err(NotEmpty); }
      var tx, count := ImportTables(export_.tables);
      if tx.Err? { return Err(tx.error); }
      tables := tx.value;
      return Ok(count);
    }

    /** The transaction: every listed table in order, up to the first failure. */
    method ImportTables(source: JsonTables) returns (r: Inserted, count: nat)
      ensures r == InsertTables(schema, tables, source, |TABLES|)
      ensures r.Ok? ==> count == RowTotal(source, |TABLES|)
    {
      var tx := tables;
      count := 0;
      for i := 0 to |TABLES|
        invariant InsertTables(schema, tables, source, i) == Ok(tx) && count == RowTotal(source, i)
      {
        var one, n := ImportTable(tx, TABLES[i], RowsOf(source, TABLES[i]));
        if one.Err? {
          FailureLasts(schema, tables, source, i + 1, |TABLES|);
          return one, count;
        }
        tx, count := one.value, count + n;
      }
      r := Ok(tx);
    }

    method ImportTable(start: Tables, table: string, rows: seq<JsonRow>) returns (r: Inserted, n: nat)
      ensures r == InsertRows(schema, start, table, rows)
      ensures r.Ok? ==> n == |rows|
    {
      var tx := start;
      n := 0;
      for j := 0 to |rows|
        invariant InsertRows(schema, start, table, rows[..j]) == Ok(tx) && n == j
      {
        assert rows[..j + 1][..j] == rows[..j];
        r := InsertRow(schema, tx, table, rows[j]);
        if r.Err? {
          RowFailureLasts(schema, start, table, rows, j + 1);
          return;
        }
        tx, n := r.value, n + 1;
      }
      assert rows[..|rows|] == rows;
      r := Ok(tx);
    }
  }

  lemma {:induction false} RowFailureLasts(schema: Schema, tables: Tables, table: string, rows: seq<JsonRow>, n: nat)
    requires n <= |rows| && InsertRows(schema, tables, table, rows[..n]).Err?
    ensures InsertRows(schema, tables, table, rows) == InsertRows(schema, tables, table, rows[..n])
  {
    if n == |rows| {
      assert rows[..n] == rows;
    } else {
      var init := rows[..|rows| - 1];
      assert init[..n] == rows[..n];
      RowFailureLasts(schema, tables, table, init, n);
    }
  }

  lemma {:induction false} FailureLasts(schema: Schema, tables: Tables, rows: JsonTables, n: nat, m: nat)
    requires n <= m <= |TABLES| && InsertTables(schema, tables, rows, n).Err?
    ensures InsertTables(schema, tables, rows, m) == InsertTables(schema, tables, rows, n)
  {
    if n < m { FailureLasts(schema, tables, rows, n, m - 1); }
  }
}
