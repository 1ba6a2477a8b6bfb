/**
 * The migration of moveClient as functions of the session state: the
 * conversion table built from the verified tables, the classification of
 * each column, the translation of each value, and the copy of every row.
 */
module Migration {
  import opened Wrappers
  import opened Text
  import opened Filters
  import opened Catalog
  import opened Validation

  /** How a column's value is written: as read, or translated through the
      conversion entries of a table. */
  datatype Strategy = Copy | Translate(through: string)

  /** Where the ResultSet is asked for a column it does not have, or for a
      value of the wrong type, the JDBC driver throws an SQLException. */
  const QUERY_FAILED := "Could not execute external query"
  /** DB.executeUpdateEx throws on an INSERT the local database refuses. */
  const INSERT_FAILED := "Could not execute"
  /** A null AD_Preference.Attribute is dereferenced. */
  const NULL_ATTRIBUTE := "NullPointerException"

  /** Util.isEmpty(convertTable): null and "" mean no translation. */
  function StrategyOf(convertTable: Option<string>): (r: Strategy)
    ensures r.Translate? <==> convertTable.Some? && convertTable.value != ""
    ensures r.Translate? ==> r.through == convertTable.value
  {
    if convertTable.None? || convertTable.value == "" then Copy else Translate(convertTable.value)
  }

  predicate IsPreferenceValue(table: string, column: string) {
    EqualsIgnoreCase("AD_Preference", table) && EqualsIgnoreCase("Value", column)
  }

  /** The table named by an AD_Preference.Attribute: the name without its
      "_ID" suffix, with C_DocTypeTarget read as C_DocType; "" when there is
      no such suffix. */
  function PreferenceTable(attribute: string): (r: string)
    ensures !EndsWith(Upper(attribute), "_ID") ==> r == ""
    ensures EndsWith(Upper(attribute), "_ID") && attribute[..|attribute| - 3] == "C_DocTypeTarget" ==> r == "C_DocType"
    ensures EndsWith(Upper(attribute), "_ID") && attribute[..|attribute| - 3] != "C_DocTypeTarget" ==>
      r + attribute[|attribute| - 3..] == attribute && EqualsIgnoreCase(attribute[|attribute| - 3..], "_ID")
  {
    if EndsWith(Upper(attribute), "_ID") then
      var name := attribute[..|attribute| - 3];
      assert Upper(attribute)[|attribute| - 3..] == Upper(attribute[|attribute| - 3..]);
      UpperOfSuffixes();
      assert attribute == name + attribute[|attribute| - 3..];
      if name == "C_DocTypeTarget" then "C_DocType" else name
    else ""
  }

  /** ResultSet lookup by column label, over the selected columns. */
  function ValueByLabel(labels: seq<string>, values: seq<Value>, wanted: string): (r: Option<Value>)
    requires |labels| == |values|
    ensures r.Some? <==> exists i :: 0 <= i < |labels| && EqualsIgnoreCase(labels[i], wanted)
  {
    if labels == [] then None
    else if EqualsIgnoreCase(labels[0], wanted) then Some(values[0])
    else ValueByLabel(labels[1..], values[1..], wanted)
  }

  function Names(cols: seq<LocalColumn>): (r: seq<string>)
    ensures |r| == |cols| && forall i :: 0 <= i < |cols| ==> r[i] == cols[i].name
  {
    seq(|cols|, i requires 0 <= i < |cols| => cols[i].name)
  }

  /** The column-classification chain of moveClient for one column of one
      fetched row; the first rule that matches decides. */
  function Classify(source: SourceDb, table: LocalTable, col: LocalColumn, labels: seq<string>, values: seq<Value>): Result<Strategy>
    requires |labels| == |values|
  {
    if EqualsIgnoreCase(table.name + "_ID", col.name) then
      Success(StrategyOf(Some(table.name)))
    else if EqualsIgnoreCase("C_BPartner", table.name) && EqualsIgnoreCase("AD_OrgBP_ID", col.name) then
      Success(Translate("AD_Org"))
    else if col.referenceTable.Some?
      && (EqualsIgnoreCase("AD_Ref_List", col.referenceTable.value)
          || EqualsIgnoreCase("AD_Language", col.name) || EqualsIgnoreCase("EntityType", col.name)) then
      Success(Copy)
    else if EqualsIgnoreCase("Record_ID", col.name) && ColumnIndex(table.columns, "AD_Table_ID") > 0 then
      match ValueByLabel(labels, values, "AD_Table_ID")
      case None => Failure(QUERY_FAILED)
      case Some(v) => Success(StrategyOf(ExternalTableName(source.tables, IntOf(v))))
    else if IsPreferenceValue(table.name, col.name) then
      match ValueByLabel(labels, values, "Attribute")
      case None => Failure(QUERY_FAILED)
      case Some(v) =>
        if StringOf(v).None? then Failure(NULL_ATTRIBUTE)
        else Success(StrategyOf(Some(PreferenceTable(StringOf(v).value))))
    else Success(StrategyOf(col.referenceTable))
  }

  // ---------------------------------------------------------------------
  // Values

  /** SELECT Target_ID FROM T_MoveClient WHERE AD_PInstance_ID=? AND
      TableName=? AND Source_ID=?: the first match, or -1. */
  function Lookup(conversions: seq<Entry>, run: int, tableName: string, sourceId: int): (r: int)
    ensures (forall e :: e in conversions ==> !(e.run == run && e.tableName == tableName && e.sourceId == sourceId)) ==> r == -1
    ensures (exists e :: e in conversions && e.run == run && e.tableName == tableName && e.sourceId == sourceId) ==>
      Entry(run, tableName, sourceId, r) in conversions
  {
    if conversions == [] then -1
    else
      var e := conversions[0];
      if e.run == run && e.tableName == tableName && e.sourceId == sourceId then e.targetId
      else Lookup(conversions[1..], run, tableName, sourceId)
  }

  function OrphanMessage(table: string, column: string, id: int): string {
    "Found orphan record in column " + table + "." + column + ": " + Decimal(id)
  }

  /** ResultSet.getInt then wasNull on a translated column: a number as
      itself, a string (AD_Preference.Value is a VARCHAR) as the 32-bit
      integer it spells, NULL as no key; anything else makes the query fail. */
  function KeyOf(v: Value): (r: Result<Option<int>>)
    ensures v == Null ==> r == Success(None)
    ensures v.Num? ==> r == Success(Some(v.n))
    ensures v.Str? && ParseInt(v.s).Some? ==> r == Success(Some(ParseInt(v.s).value))
    ensures v.Str? && ParseInt(v.s).None? ==> r == Failure(QUERY_FAILED)
    ensures v.Other? ==> r == Failure(QUERY_FAILED)
    ensures r.Success? && r.value.Some? && !v.Num? ==> INT_MIN <= r.value.value <= INT_MAX
  {
    match v
    case Null => Success(None)
    case Num(n) => Success(Some(n))
    case Str(s) => if ParseInt(s).Some? then Success(Some(ParseInt(s).value)) else Failure(QUERY_FAILED)
    case Other(_) => Failure(QUERY_FAILED)
  }

  /** The parameter bound for a translated key: the decimal string of the
      key for AD_Preference.Value, the number itself elsewhere. */
  function WriteKey(table: string, column: string, id: int): (r: Value)
    ensures IsPreferenceValue(table, column) ==> r == Str(Decimal(id))
    ensures !IsPreferenceValue(table, column) ==> r == Num(id)
  {
    if IsPreferenceValue(table, column) then Str(Decimal(id)) else Num(id)
  }

  /** The value written for one column. A translated key below the
      threshold is kept; one at or above it must have a conversion entry.
      The key is what getInt reads, whether the column holds a number or a
      string. */
  function TranslateValue(conversions: seq<Entry>, run: int, table: string, column: string, strategy: Strategy, v: Value): (r: Result<Value>)
    ensures strategy == Copy ==> r == Success(v)
    ensures strategy.Translate? && KeyOf(v).Failure? ==> r == Failure(KeyOf(v).error)
    ensures strategy.Translate? && KeyOf(v) == Success(None) ==> r == Success(Null)
    ensures var key := KeyOf(v);
      strategy.Translate? && key.Success? && key.value.Some? && key.value.value < MAX_OFFICIAL_ID ==>
        r == Success(WriteKey(table, column, key.value.value))
    ensures var key := KeyOf(v);
      strategy.Translate? && key.Success? && key.value.Some? && key.value.value >= MAX_OFFICIAL_ID ==>
        var target := Lookup(conversions, run, Upper(strategy.through), key.value.value);
        if target < 0 then r == Failure(OrphanMessage(table, column, key.value.value))
        else
          && Entry(run, Upper(strategy.through), key.value.value, target) in conversions
          && r == Success(WriteKey(table, column, target))
  {
    match strategy
    case Copy => Success(v)
    case Translate(through) =>
      var key :- KeyOf(v);
      if key.None? then Success(Null)
      else
        var id := key.value;
        var target := if id >= MAX_OFFICIAL_ID then Lookup(conversions, run, Upper(through), id) else id;
        if id >= MAX_OFFICIAL_ID && target < 0 then Failure(OrphanMessage(table, column, id))
        else Success(WriteKey(table, column, target))
  }

  /** One column of one row: classify it, then translate its value. */
  function ColumnValue(env: Env, conversions: seq<Entry>, table: LocalTable, cols: seq<LocalColumn>, values: seq<Value>, i: nat): Result<Value>
    requires |cols| == |values| && i < |cols|
  {
    var strategy :- Classify(env.source, table, cols[i], Names(cols), values);
    TranslateValue(conversions, env.run, table.name, cols[i].name, strategy, values[i])
  }

  /** The parameters of one INSERT: the first k columns of a fetched row. */
  function TranslateRow(env: Env, conversions: seq<Entry>, table: LocalTable, cols: seq<LocalColumn>, values: seq<Value>, k: nat): (r: Result<seq<Value>>)
    requires |cols| == |values| && k <= |cols|
    ensures r.Success? ==> |r.value| == k
  {
    if k == 0 then Success([])
    else
      var init :- TranslateRow(env, conversions, table, cols, values, k - 1);
      var v :- ColumnValue(env, conversions, table, cols, values, k - 1);
      Success(init + [v])
  }

  /** An exception in one column ends the row. */
  lemma {:induction false} TranslateRowStopsAtFailure(env: Env, conversions: seq<Entry>, table: LocalTable, cols: seq<LocalColumn>, values: seq<Value>, k: nat, n: nat)
    requires |cols| == |values| && k <= n <= |cols|
    requires TranslateRow(env, conversions, table, cols, values, k).Failure?
    ensures TranslateRow(env, conversions, table, cols, values, n) == TranslateRow(env, conversions, table, cols, values, k)
    decreases n
  {
    if k == n {
    } else {
      TranslateRowStopsAtFailure(env, conversions, table, cols, values, k, n - 1);
      var previous := TranslateRow(env, conversions, table, cols, values, n - 1);
      assert previous == TranslateRow(env, conversions, table, cols, values, k);
      TranslateRowPropagates(env, conversions, table, cols, values, n);
    }
  }

  lemma TranslateRowPropagates(env: Env, conversions: seq<Entry>, table: LocalTable, cols: seq<LocalColumn>, values: seq<Value>, n: nat)
    requires |cols| == |values| && 0 < n <= |cols|
    requires TranslateRow(env, conversions, table, cols, values, n - 1).Failure?
    ensures TranslateRow(env, conversions, table, cols, values, n) == TranslateRow(env, conversions, table, cols, values, n - 1)
  {
  }

  // ---------------------------------------------------------------------
  // The conversion table

  /** The table's own key column is verified along with the table. */
  predicate ConvertsIds(s: Session, table: string) {
    Upper(table) in s.tablesVerified && ColumnKey(table, table + "_ID") in s.columnsVerified
  }

  function KeysOf(table: string, rows: seq<Row>): (r: seq<int>)
    ensures |r| == |rows| && forall i :: 0 <= i < |rows| ==> r[i] == IntOf(Field(rows[i], table + "_ID"))
  {
    seq(|rows|, i requires 0 <= i < |rows| => IntOf(Field(rows[i], table + "_ID")))
  }

  /** SELECT T.T_ID FROM T JOIN AD_Client ... WHERE <client filter>. */
  function SourceIds(env: Env, table: string): seq<int> {
    KeysOf(table, InScopeRows(env.source, env.clients, KeyLinkage(table), Rows(env.source, table)))
  }

  /** One fresh target per source key, recorded under the upper-cased name. */
  function AllocateIds(env: Env, s: Session, table: string, ids: seq<int>): Session {
    if ids == [] then s
    else
      var before := AllocateIds(env, s, table, ids[..|ids| - 1]);
      before.(conversions := before.conversions + [Entry(env.run, Upper(table), ids[|ids| - 1], before.nextKey)],
              nextKey := before.nextKey + 1)
  }

  function BuildSpec(env: Env, s: Session, tables: seq<LocalTable>): Session {
    if tables == [] then s
    else
      var before := BuildSpec(env, s, tables[..|tables| - 1]);
      var table := tables[|tables| - 1].name;
      if ConvertsIds(before, table) then AllocateIds(env, before, table, SourceIds(env, table)) else before
  }

  // ---------------------------------------------------------------------
  // The copy

  /** The columns moveClient selects: active, not virtual, verified. */
  function SelectedColumns(s: Session, table: string, cols: seq<LocalColumn>): (r: seq<LocalColumn>)
    ensures forall c :: c in r <==> c in cols && c.active && !c.virtual && ColumnKey(table, c.name) in s.columnsVerified
  {
    if cols == [] then []
    else
      var c := cols[|cols| - 1];
      SelectedColumns(s, table, cols[..|cols| - 1])
        + (if c.active && !c.virtual && ColumnKey(table, c.name) in s.columnsVerified then [c] else [])
  }

  /** The row as the data query returns it: one value per selected column. */
  function Fetch(row: Row, cols: seq<LocalColumn>): (r: seq<Value>)
    ensures |r| == |cols|
  {
    seq(|cols|, i requires 0 <= i < |cols| => Field(row, cols[i].name))
  }

  /** The local database refuses an INSERT that names no column (the
      statement is not valid SQL) and every row it rejects. */
  predicate Rejects(local: LocalDb, row: InsertedRow) {
    row.columns == [] || row in local.rejected
  }

  /** One fetched row: its parameters translated, then executeUpdateEx. */
  function RowInsert(env: Env, conversions: seq<Entry>, table: LocalTable, cols: seq<LocalColumn>, row: Row): (r: Result<InsertedRow>)
    ensures var t := TranslateRow(env, conversions, table, cols, Fetch(row, cols), |cols|);
      && (r.Success? <==> t.Success? && !Rejects(env.local, InsertedRow(table.name, Names(cols), t.value)))
      && (r.Success? ==> r.value == InsertedRow(table.name, Names(cols), t.value))
      && (t.Failure? ==> r == Failure(t.error))
      && (t.Success? && r.Failure? ==> r.error == INSERT_FAILED)
  {
    var parameters :- TranslateRow(env, conversions, table, cols, Fetch(row, cols), |cols|);
    var inserted := InsertedRow(table.name, Names(cols), parameters);
    if Rejects(env.local, inserted) then Failure(INSERT_FAILED) else Success(inserted)
  }

  function CopyRows(env: Env, s: Session, table: LocalTable, cols: seq<LocalColumn>, rows: seq<Row>): Result<Session> {
    if rows == [] then Success(s)
    else
      var before :- CopyRows(env, s, table, cols, rows[..|rows| - 1]);
      var inserted :- RowInsert(env, before.conversions, table, cols, rows[|rows| - 1]);
      Success(before.(inserted := before.inserted + [inserted]))
  }

  /** One more row: its INSERT, or the exception of its translation or of
      the INSERT itself. */
  lemma CopyRowsStep(env: Env, s: Session, table: LocalTable, cols: seq<LocalColumn>, rows: seq<Row>, j: nat, before: Session)
    requires j < |rows| && CopyRows(env, s, table, cols, rows[..j]) == Success(before)
    ensures CopyRows(env, s, table, cols, rows[..j + 1]) ==
      match RowInsert(env, before.conversions, table, cols, rows[j])
      case Success(inserted) => Success(before.(inserted := before.inserted + [inserted]))
      case Failure(e) => Failure(e)
  {
    assert rows[..j + 1][..j] == rows[..j];
  }

  /** An exception in one row ends the table. */
  lemma {:induction false} CopyRowsStopsAtFailure(env: Env, s: Session, table: LocalTable, cols: seq<LocalColumn>, rows: seq<Row>, k: nat)
    requires k <= |rows| && CopyRows(env, s, table, cols, rows[..k]).Failure?
    ensures CopyRows(env, s, table, cols, rows) == CopyRows(env, s, table, cols, rows[..k])
    decreases |rows| - k
  {
    if k < |rows| {
      assert rows[..k + 1][..k] == rows[..k];
      CopyRowsStopsAtFailure(env, s, table, cols, rows, k + 1);
    } else {
      assert rows[..k] == rows;
    }
  }

  /** The rows of the table in scope of the data query. */
  function DataRows(env: Env, table: string): seq<Row> {
    InScopeRows(env.source, env.clients, DataLinkage(table), Rows(env.source, table))
  }

  function CopyTableSpec(env: Env, s: Session, table: LocalTable): Result<Session> {
    if Upper(table.name) !in s.tablesVerified then Success(s)
    else CopyRows(env, s, table, SelectedColumns(s, table.name, table.columns), DataRows(env, table.name))
  }

  function CopySpec(env: Env, s: Session, tables: seq<LocalTable>): Result<Session> {
    if tables == [] then Success(s)
    else
      var before :- CopySpec(env, s, tables[..|tables| - 1]);
      CopyTableSpec(env, before, tables[|tables| - 1])
  }

  /** An exception in one table ends the copy. */
  lemma {:induction false} CopySpecStopsAtFailure(env: Env, s: Session, tables: seq<LocalTable>, k: nat)
    requires k <= |tables| && CopySpec(env, s, tables[..k]).Failure?
    ensures CopySpec(env, s, tables) == CopySpec(env, s, tables[..k])
    decreases |tables| - k
  {
    if k < |tables| {
      assert tables[..k + 1][..k] == tables[..k];
      CopySpecStopsAtFailure(env, s, tables, k + 1);
    } else {
      assert tables[..k] == tables;
    }
  }

  /** moveClient up to the commit. */
  function MoveSpec(env: Env, s: Session): Result<Session> {
    var tables := MigrationTables(env.local.tables, env.tables);
    CopySpec(env, BuildSpec(env, s, tables), tables)
  }
}
