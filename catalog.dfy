/**
 * What the process reads. The external database is its dictionary
 * (AD_Table and AD_Column), its rows, and the attachments and archives it
 * keeps with a storage provider other than the database; the local side is
 * the local dictionary and the UUIDs of local rows. Each SQL query the
 * source sends is replaced by a function that says which rows it returns.
 */
module Catalog {
  import opened Wrappers
  import opened Text
  import opened Filters

  /** MTable.MAX_OFFICIAL_ID: IDs up to this value ship with the dictionary. */
  const MAX_OFFICIAL_ID: int := 999999

  /** One SQL value. Other stands for every value that is neither a number
      nor a string (dates, decimals, binaries); it is only ever copied. */
  datatype Value = Null | Num(n: int) | Str(s: string) | Other(repr: string)

  /** One row, keyed by upper-cased column name; a missing key reads as NULL. */
  type Row = map<string, Value>

  function Field(row: Row, column: string): Value {
    if Upper(column) in row then row[Upper(column)] else Null
  }

  /** ResultSet.getInt on a key or client column; NULL reads as 0. */
  function IntOf(v: Value): int {
    if v.Num? then v.n else 0
  }

  /** ResultSet.getString; NULL reads as null. */
  function StringOf(v: Value): Option<string> {
    if v.Str? then Some(v.s) else None
  }

  /** SQL a = b and a != b: neither holds when a side is NULL. */
  predicate SqlEquals(a: Value, b: Value) {
    a != Null && b != Null && a == b
  }

  predicate SqlDiffers(a: Value, b: Value) {
    a != Null && b != Null && a != b
  }

  // ---------------------------------------------------------------------
  // External database

  /** An AD_Column record; virtual means ColumnSQL is not null. */
  datatype SourceColumn = SourceColumn(
    name: string, referenceId: int, fieldLength: int,
    active: bool, virtual: bool, referenceValueId: Option<int>)

  /** An AD_Table record with its columns ordered by ColumnName. */
  datatype SourceTable = SourceTable(
    tableId: int, name: string, active: bool, isView: bool, columns: seq<SourceColumn>)

  /** An attachment or archive kept by a storage provider other than the
      database: its client and the name of the table it belongs to. */
  datatype StoredItem = StoredItem(client: int, tableName: string)

  /** The external database. Its tables are listed ordered by TableName;
      data maps each upper-cased table name to its rows. */
  datatype SourceDb = SourceDb(
    tables: seq<SourceTable>,
    data: map<string, seq<Row>>,
    attachments: seq<StoredItem>,
    archives: seq<StoredItem>)

  function Rows(db: SourceDb, table: string): seq<Row> {
    if Upper(table) in db.data then db.data[Upper(table)] else []
  }

  /** The source keys of the rows are pairwise different. */
  predicate DistinctKeys(table: string, rows: seq<Row>) {
    forall i, j :: 0 <= i < j < |rows| ==> IntOf(Field(rows[i], table + "_ID")) != IntOf(Field(rows[j], table + "_ID"))
  }

  predicate IsClient(db: SourceDb, client: int) {
    exists r :: r in Rows(db, "AD_Client") && Field(r, "AD_Client_ID") == Num(client)
  }

  /** How a query ties the rows of a table to AD_Client. */
  datatype Linkage =
    | Direct                                  // JOIN AD_Client ON (T.AD_Client_ID=AD_Client.AD_Client_ID)
    | OwnKey                                  // T is AD_Client itself: no join
    | ViaParent(parent: string, key: string)  // JOIN parent ON (T.key=parent.key) JOIN AD_Client ON (parent.AD_Client_ID=...)

  predicate DirectlyInScope(db: SourceDb, f: ClientFilter, row: Row) {
    var c := Field(row, "AD_Client_ID");
    c.Num? && IsClient(db, c.n) && Selects(f, c.n)
  }

  /** The query reaches the row and the client filter keeps it. */
  predicate InScope(db: SourceDb, f: ClientFilter, link: Linkage, row: Row) {
    match link
    case Direct => DirectlyInScope(db, f, row)
    case OwnKey => Field(row, "AD_Client_ID").Num? && Selects(f, Field(row, "AD_Client_ID").n)
    case ViaParent(parent, key) =>
      exists p :: p in Rows(db, parent) && SqlEquals(Field(row, key), Field(p, key)) && DirectlyInScope(db, f, p)
  }

  /** The rows in scope, in table order. Joins are on primary keys, so
      each row appears at most once. */
  function InScopeRows(db: SourceDb, f: ClientFilter, link: Linkage, rows: seq<Row>): (r: seq<Row>)
    ensures |r| <= |rows|
    ensures forall x :: x in r <==> x in rows && InScope(db, f, link, x)
  {
    if rows == [] then []
    else
      var init := InScopeRows(db, f, link, rows[..|rows| - 1]);
      var last := rows[|rows| - 1];
      assert forall x :: x in rows <==> x in rows[..|rows| - 1] || x == last;
      if InScope(db, f, link, last) then init + [last] else init
  }

  /** The linkage of the relevance count in validateExternalTable. */
  function CountLinkage(table: string): Linkage {
    if EqualsIgnoreCase("AD_Attribute_Value", table) then ViaParent("AD_Attribute", "AD_Attribute_ID")
    else if EqualsIgnoreCase("AD_PInstance_Log", table) then ViaParent("AD_PInstance", "AD_PInstance_ID")
    else Direct
  }

  /** The linkage of the data query in moveClient. */
  function DataLinkage(table: string): Linkage {
    if EqualsIgnoreCase("AD_PInstance_Log", table) then ViaParent("AD_PInstance", "AD_PInstance_ID")
    else if EqualsIgnoreCase("AD_Client", table) then OwnKey
    else Direct
  }

  /** The linkage of the ID query in moveClient and of the foreign-key scan. */
  function KeyLinkage(table: string): Linkage {
    if EqualsIgnoreCase("AD_Client", table) then OwnKey else Direct
  }

  /** SELECT COUNT(*) FROM AD_Client WHERE <client filter>. */
  function ClientCount(db: SourceDb, f: ClientFilter): nat {
    |InScopeRows(db, f, OwnKey, Rows(db, "AD_Client"))|
  }

  /** The relevance count of a table other than AD_Client. */
  function ClientDataCount(db: SourceDb, f: ClientFilter, table: string): nat {
    |InScopeRows(db, f, CountLinkage(table), Rows(db, table))|
  }

  /** The count of externally stored attachments or archives of selected
      clients on tables the table filter allows. */
  function StoredCount(db: SourceDb, f: ClientFilter, tf: TableFilter, items: seq<StoredItem>): nat {
    if items == [] then 0
    else
      var last := items[|items| - 1];
      StoredCount(db, f, tf, items[..|items| - 1])
        + (if IsClient(db, last.client) && Selects(f, last.client) && AllowsTable(tf, last.tableName) then 1 else 0)
  }

  /** SELECT TableName FROM AD_Table WHERE IsActive='Y' AND IsView='N' AND
      <table filter> ORDER BY TableName. */
  function SourceTableNames(tables: seq<SourceTable>, tf: TableFilter): (r: seq<string>)
    ensures forall n :: n in r ==> AllowsTable(tf, n)
    ensures forall n :: n in r ==> exists t :: t in tables && t.name == n && t.active && !t.isView
    ensures forall t :: t in tables && t.active && !t.isView && AllowsTable(tf, t.name) ==> t.name in r
  {
    if tables == [] then []
    else
      var last := tables[|tables| - 1];
      SourceTableNames(tables[..|tables| - 1], tf)
        + (if last.active && !last.isView && AllowsTable(tf, last.name) then [last.name] else [])
  }

  /** The query keeps the dictionary's order: the names of a + b are the
      names of a followed by those of b. */
  lemma {:induction false} SourceTableNamesAppend(a: seq<SourceTable>, b: seq<SourceTable>, tf: TableFilter)
    ensures SourceTableNames(a + b, tf) == SourceTableNames(a, tf) + SourceTableNames(b, tf)
    decreases |b|
  {
    if b == [] {
      assert a + b == a;
    } else {
      var init, last := b[..|b| - 1], b[|b| - 1];
      var tail := if last.active && !last.isView && AllowsTable(tf, last.name) then [last.name] else [];
      assert (a + b)[..|a + b| - 1] == a + init;
      assert (a + b)[|a + b| - 1] == last;
      calc {
        SourceTableNames(a + b, tf);
        SourceTableNames(a + init, tf) + tail;
        { SourceTableNamesAppend(a, init, tf); }
        (SourceTableNames(a, tf) + SourceTableNames(init, tf)) + tail;
        SourceTableNames(a, tf) + (SourceTableNames(init, tf) + tail);
        SourceTableNames(a, tf) + SourceTableNames(b, tf);
      }
    }
  }

  function FindSourceTable(tables: seq<SourceTable>, name: string): Option<SourceTable> {
    if tables == [] then None
    else if EqualsIgnoreCase(tables[0].name, name) then Some(tables[0])
    else FindSourceTable(tables[1..], name)
  }

  function ActiveColumns(columns: seq<SourceColumn>): seq<SourceColumn> {
    if columns == [] then []
    else
      var last := columns[|columns| - 1];
      ActiveColumns(columns[..|columns| - 1]) + (if last.active && !last.virtual then [last] else [])
  }

  /** The columns of the table, active and not virtual, ordered by name. */
  function SourceColumnsOf(db: SourceDb, table: string): seq<SourceColumn> {
    match FindSourceTable(db.tables, table)
    case None => []
    case Some(t) => ActiveColumns(t.columns)
  }

  /** The table found by name is one of the dictionary's, with that name. */
  lemma {:induction false} FoundSourceTable(tables: seq<SourceTable>, name: string)
    ensures FindSourceTable(tables, name).Some? ==>
      FindSourceTable(tables, name).value in tables && EqualsIgnoreCase(FindSourceTable(tables, name).value.name, name)
  {
    if tables != [] {
      FoundSourceTable(tables[1..], name);
    }
  }

  lemma {:induction false} ActiveColumnsListed(columns: seq<SourceColumn>)
    ensures forall c :: c in ActiveColumns(columns) ==> c in columns
  {
    if columns != [] {
      ActiveColumnsListed(columns[..|columns| - 1]);
      assert forall c :: c in columns[..|columns| - 1] ==> c in columns;
    }
  }

  /** A column of a table, as the dictionary lists it. */
  lemma SourceColumnOrigin(db: SourceDb, table: string, c: SourceColumn)
    requires c in SourceColumnsOf(db, table)
    ensures exists t :: t in db.tables && EqualsIgnoreCase(t.name, table) && c in t.columns
  {
    FoundSourceTable(db.tables, table);
    ActiveColumnsListed(FindSourceTable(db.tables, table).value.columns);
  }

  function FindSourceColumn(columns: seq<SourceColumn>, name: string): Option<SourceColumn> {
    if columns == [] then None
    else if EqualsIgnoreCase(columns[0].name, name) then Some(columns[0])
    else FindSourceColumn(columns[1..], name)
  }

  /** The external AD_Reference_Value_ID of a column, as the value the list
      join compares with. */
  function ReferenceValueOf(db: SourceDb, table: string, column: string): Value {
    match FindSourceTable(db.tables, table)
    case None => Null
    case Some(t) =>
      match FindSourceColumn(t.columns, column)
      case None => Null
      case Some(c) => if c.referenceValueId.Some? then Num(c.referenceValueId.value) else Null
  }

  /** getExternalTableName: the TableName of the external AD_Table record
      with the given ID, or null. */
  function ExternalTableName(tables: seq<SourceTable>, tableId: int): Option<string> {
    if tables == [] then None
    else if tables[0].tableId == tableId then Some(tables[0].name)
    else ExternalTableName(tables[1..], tableId)
  }

  // ---------------------------------------------------------------------
  // The foreign-key scan of validateExternalColumn

  /** One result row: the referenced row's client, key and UUID. */
  datatype ForeignRef = ForeignRef(client: int, id: int, uuid: Option<string>)

  /** The column of the foreign table that the referencing value is joined with. */
  function JoinColumn(foreign: string, column: string): string {
    if EqualsIgnoreCase("AD_Ref_List", foreign) then
      if EqualsIgnoreCase("AD_Ref_List_ID", column) then "AD_Ref_List_ID" else "Value"
    else if EqualsIgnoreCase("AD_Language", foreign) && !EqualsIgnoreCase(column, "AD_Language_ID") then "AD_Language"
    else if EqualsIgnoreCase("AD_EntityType", foreign) && !EqualsIgnoreCase(column, "AD_EntityType_ID") then "EntityType"
    else foreign + "_ID"
  }

  /** The referencing row points at the foreign row and the two belong to
      different clients. List values also match on the column's list. */
  predicate References(db: SourceDb, table: string, column: string, foreign: string, row: Row, fr: Row) {
    && SqlEquals(Field(row, column), Field(fr, JoinColumn(foreign, column)))
    && (EqualsIgnoreCase("AD_Ref_List", foreign) ==>
          SqlEquals(Field(fr, "AD_Reference_ID"), ReferenceValueOf(db, table, column)))
    && SqlDiffers(Field(fr, "AD_Client_ID"), Field(row, "AD_Client_ID"))
  }

  function RefOf(foreign: string, fr: Row): ForeignRef {
    ForeignRef(IntOf(Field(fr, "AD_Client_ID")), IntOf(Field(fr, foreign + "_ID")), StringOf(Field(fr, foreign + "_UU")))
  }

  function RefsFromRow(db: SourceDb, table: string, column: string, foreign: string, row: Row, frs: seq<Row>): (r: seq<ForeignRef>)
    ensures forall x :: x in r <==> exists fr :: fr in frs && References(db, table, column, foreign, row, fr) && RefOf(foreign, fr) == x
  {
    if frs == [] then []
    else
      var fr := frs[|frs| - 1];
      var init := frs[..|frs| - 1];
      assert forall y :: y in frs <==> y in init || y == fr;
      RefsFromRow(db, table, column, foreign, row, init)
        + (if References(db, table, column, foreign, row, fr) then [RefOf(foreign, fr)] else [])
  }

  function RefsFromRows(db: SourceDb, table: string, column: string, foreign: string, rows: seq<Row>): (r: seq<ForeignRef>)
    ensures forall x :: x in r <==>
      exists row, fr :: row in rows && fr in Rows(db, foreign)
        && References(db, table, column, foreign, row, fr) && RefOf(foreign, fr) == x
  {
    if rows == [] then []
    else
      var row := rows[|rows| - 1];
      var init := rows[..|rows| - 1];
      assert forall y :: y in rows <==> y in init || y == row;
      RefsFromRows(db, table, column, foreign, init)
        + RefsFromRow(db, table, column, foreign, row, Rows(db, foreign))
  }

  /** SELECT DISTINCT: the elements in order of first occurrence. */
  function Distinct(xs: seq<ForeignRef>): (r: seq<ForeignRef>)
    ensures forall x :: x in r <==> x in xs
    ensures forall i, j :: 0 <= i < j < |r| ==> r[i] != r[j]
  {
    if xs == [] then []
    else
      var d := Distinct(xs[..|xs| - 1]);
      var last := xs[|xs| - 1];
      assert forall y :: y in xs <==> y in xs[..|xs| - 1] || y == last;
      if last in d then d else d + [last]
  }

  /** The referenced rows of other clients, one per distinct
      (client, key, UUID), over the rows of the table in scope. */
  function ForeignScan(db: SourceDb, f: ClientFilter, table: string, column: string, foreign: string): seq<ForeignRef> {
    Distinct(RefsFromRows(db, table, column, foreign, InScopeRows(db, f, KeyLinkage(table), Rows(db, table))))
  }

  /** A result of the scan is exactly a row of the foreign table that a row
      in scope references across clients. */
  lemma ForeignScanMeaning(db: SourceDb, f: ClientFilter, table: string, column: string, foreign: string, x: ForeignRef)
    ensures x in ForeignScan(db, f, table, column, foreign) <==>
      exists row, fr :: row in Rows(db, table) && InScope(db, f, KeyLinkage(table), row)
        && fr in Rows(db, foreign) && References(db, table, column, foreign, row, fr) && RefOf(foreign, fr) == x
  {
  }

  // ---------------------------------------------------------------------
  // Local dictionary

  /** An AD_Column record of the local dictionary; referenceTable is what
      getReferenceTableName returns. */
  datatype LocalColumn = LocalColumn(
    columnId: int, name: string, referenceId: int, fieldLength: int,
    referenceTable: Option<string>, active: bool, virtual: bool)

  datatype LocalTable = LocalTable(
    tableId: int, name: string, active: bool, isView: bool, columns: seq<LocalColumn>)

  /** A row inserted into the local database: its table, the columns
      named in the INSERT and the values bound to them. */
  datatype InsertedRow = InsertedRow(tableName: string, columns: seq<string>, values: seq<Value>)

  /** The local dictionary, ordered by TableName; the local ID of each
      (upper-cased table name, UUID); and the rows whose INSERT the local
      database refuses (a key, NOT NULL or length constraint they break). */
  datatype LocalDb = LocalDb(tables: seq<LocalTable>, uuids: map<(string, string), int>, rejected: set<InsertedRow>)

  function FindLocalTable(tables: seq<LocalTable>, name: string): Option<LocalTable> {
    if tables == [] then None
    else if EqualsIgnoreCase(tables[0].name, name) then Some(tables[0])
    else FindLocalTable(tables[1..], name)
  }

  function FindLocalColumn(columns: seq<LocalColumn>, name: string): Option<LocalColumn> {
    if columns == [] then None
    else if EqualsIgnoreCase(columns[0].name, name) then Some(columns[0])
    else FindLocalColumn(columns[1..], name)
  }

  /** MTable.get, with a missing or unsaved (ID <= 0) table as None. */
  function LocalTableOf(local: LocalDb, name: string): Option<LocalTable> {
    var t := FindLocalTable(local.tables, name);
    if t.Some? && t.value.tableId > 0 then t else None
  }

  /** MColumn.get, with a missing or unsaved (ID <= 0) column as None. */
  function LocalColumnOf(local: LocalDb, table: string, column: string): Option<LocalColumn> {
    var t := FindLocalTable(local.tables, table);
    if t.None? then None
    else
      var c := FindLocalColumn(t.value.columns, column);
      if c.Some? && c.value.columnId > 0 then c else None
  }

  /** MTable.getColumnIndex: the position of the column, or -1. */
  function ColumnIndex(columns: seq<LocalColumn>, name: string): (r: int)
    ensures -1 <= r < |columns|
    ensures r >= 0 ==> EqualsIgnoreCase(columns[r].name, name)
    ensures r == -1 <==> forall i :: 0 <= i < |columns| ==> !EqualsIgnoreCase(columns[i].name, name)
  {
    if columns == [] then -1
    else if EqualsIgnoreCase(columns[0].name, name) then 0
    else
      var k := ColumnIndex(columns[1..], name);
      if k < 0 then -1 else k + 1
  }

  /** SELECT F_ID FROM F WHERE F_UU=? on the local database: -1 when no
      row carries the UUID (a null UUID matches nothing). */
  function LocalIdByUuid(local: LocalDb, foreign: string, uuid: Option<string>): int {
    if uuid.Some? && (Upper(foreign), uuid.value) in local.uuids then local.uuids[(Upper(foreign), uuid.value)] else -1
  }

  /** The tables of moveClient: active, not a view, allowed by the table
      filter, ordered by TableName. */
  function MigrationTables(tables: seq<LocalTable>, tf: TableFilter): (r: seq<LocalTable>)
    ensures forall t :: t in r <==> t in tables && t.active && !t.isView && AllowsTable(tf, t.name)
  {
    if tables == [] then []
    else
      var last := tables[|tables| - 1];
      MigrationTables(tables[..|tables| - 1], tf)
        + (if last.active && !last.isView && AllowsTable(tf, last.name) then [last] else [])
  }

  /** The tables keep the dictionary's order: those of a + b are those of
      a followed by those of b. */
  lemma {:induction false} MigrationTablesAppend(a: seq<LocalTable>, b: seq<LocalTable>, tf: TableFilter)
    ensures MigrationTables(a + b, tf) == MigrationTables(a, tf) + MigrationTables(b, tf)
    decreases |b|
  {
    if b == [] {
      assert a + b == a;
    } else {
      var init, last := b[..|b| - 1], b[|b| - 1];
      var tail := if last.active && !last.isView && AllowsTable(tf, last.name) then [last] else [];
      assert (a + b)[..|a + b| - 1] == a + init;
      assert (a + b)[|a + b| - 1] == last;
      calc {
        MigrationTables(a + b, tf);
        MigrationTables(a + init, tf) + tail;
        { MigrationTablesAppend(a, init, tf); }
        (MigrationTables(a, tf) + MigrationTables(init, tf)) + tail;
        MigrationTables(a, tf) + (MigrationTables(init, tf) + tail);
        MigrationTables(a, tf) + MigrationTables(b, tf);
      }
    }
  }
}
