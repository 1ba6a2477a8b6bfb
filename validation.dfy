/**
 * The compatibility validator (validate, validateExternalTable and
 * validateExternalColumn) as functions of the session state. Each function
 * returns the state the corresponding routine leaves behind; Failure is an
 * exception that ends the run.
 */
module Validation {
  import opened Wrappers
  import opened Text
  import opened Filters
  import opened Catalog

  /** A row of T_MoveClient: the run's AD_PInstance_ID, the upper-cased
      table name, the source key and the target key. */
  datatype Entry = Entry(run: int, tableName: string, sourceId: int, targetId: int)

  /** The state a run carries: the process's lists, the conversion table
      T_MoveClient, the key allocator and the rows written locally. */
  datatype Session = Session(
    errors: seq<string>,
    tablesVerified: seq<string>,
    columnsVerified: seq<string>,
    systemKeys: seq<string>,
    conversions: seq<Entry>,
    nextKey: int,
    inserted: seq<InsertedRow>)

  /** What a run reads: both databases, the two filters and the run's
      AD_PInstance_ID. */
  datatype Env = Env(source: SourceDb, local: LocalDb, clients: ClientFilter, tables: TableFilter, run: int)

  /** TABLE.COLUMN, upper-cased, as p_columnsVerified holds it. */
  function ColumnKey(table: string, column: string): string {
    Upper(table) + "." + Upper(column)
  }

  /** TABLE.ID as p_idSystemConversion holds it. */
  function SystemKey(foreign: string, id: int): string {
    Upper(foreign) + "." + Decimal(id)
  }

  // ---------------------------------------------------------------------
  // Messages

  function MissingTableMessage(table: string): string {
    "Table " + table + " doesn't exist"
  }

  function MissingColumnMessage(table: string, column: string): string {
    "Column " + table + "." + column + " doesn't exist"
  }

  function TypeMessage(table: string, column: string, externalRef: int, localRef: int): string {
    "Column " + table + "." + column + " has different type in dictionary, external: "
      + Decimal(externalRef) + ", local: " + Decimal(localRef)
  }

  function LengthMessage(table: string, column: string, externalLength: int, localLength: int): string {
    "Column " + table + "." + column + " has different length in dictionary, external: "
      + Decimal(externalLength) + ", local: " + Decimal(localLength)
  }

  function CrossClientMessage(table: string, column: string, ref: ForeignRef): string {
    "Column " + table + "." + column + " has invalid cross-client reference to client "
      + Decimal(ref.client) + " on ID=" + Decimal(ref.id)
  }

  function NotConvertibleMessage(table: string, column: string, foreign: string, uuid: Option<string>): string {
    "Column " + table + "." + column + " has system reference not convertible, "
      + foreign + "." + foreign + "_UU=" + (if uuid.Some? then uuid.value else "null")
  }

  const NO_CLIENTS_MESSAGE := "No clients to move"
  const ATTACHMENTS_MESSAGE := "There are attachments using external storage provider - that's not implemented yet"
  const ARCHIVES_MESSAGE := "There are archives using external storage provider - that's not implemented yet"

  function UnsupportedTableMessage(table: string): string {
    "Table " + table + " has data, migration not supported"
  }

  // ---------------------------------------------------------------------
  // One column

  /** Type codes are compared only when the external one is official and the
      local one is below the threshold: note <= on one side and < on the other. */
  predicate TypeMismatch(externalRef: int, localRef: int) {
    externalRef <= MAX_OFFICIAL_ID && localRef < MAX_OFFICIAL_ID && externalRef != localRef
  }

  /** The type and length checks of one column, in that order. */
  function DictionaryErrors(table: string, column: string, externalRef: int, externalLength: int, lc: LocalColumn): (errs: seq<string>)
    ensures errs == [] <==>
      (externalRef == lc.referenceId || externalRef > MAX_OFFICIAL_ID || lc.referenceId >= MAX_OFFICIAL_ID)
      && externalLength == lc.fieldLength
    ensures (TypeMessage(table, column, externalRef, lc.referenceId) in errs) <== TypeMismatch(externalRef, lc.referenceId)
    ensures (LengthMessage(table, column, externalLength, lc.fieldLength) in errs) <== externalLength != lc.fieldLength
    ensures forall e :: e in errs ==>
      e == TypeMessage(table, column, externalRef, lc.referenceId) || e == LengthMessage(table, column, externalLength, lc.fieldLength)
  {
    (if TypeMismatch(externalRef, lc.referenceId) then [TypeMessage(table, column, externalRef, lc.referenceId)] else [])
      + (if externalLength != lc.fieldLength then [LengthMessage(table, column, externalLength, lc.fieldLength)] else [])
  }

  /** The table whose rows the foreign-key scan looks at: none for a column
      without reference table, for a self-reference, and for every column
      of AD_PInstance_Log. */
  function ForeignTableOf(lc: LocalColumn, table: string): (r: Option<string>)
    ensures r.Some? <==> (lc.referenceTable.Some? && lc.referenceTable.value != ""
      && !EqualsIgnoreCase(lc.referenceTable.value, table) && !EqualsIgnoreCase("AD_PInstance_Log", table))
    ensures r.Some? ==> r == lc.referenceTable
  {
    match lc.referenceTable
    case None => None
    case Some(foreign) =>
      if EqualsIgnoreCase(foreign, table) || EqualsIgnoreCase("AD_PInstance_Log", table) || foreign == "" then None
      else Some(foreign)
  }

  /** One row of the foreign-key scan. */
  function RefStep(env: Env, table: string, column: string, foreign: string, s: Session, ref: ForeignRef): Session {
    if ref.client > 0 then
      s.(errors := s.errors + [CrossClientMessage(table, column, ref)])
    else if ref.id > MAX_OFFICIAL_ID then
      if SystemKey(foreign, ref.id) in s.systemKeys then s
      else
        var localId := LocalIdByUuid(env.local, foreign, ref.uuid);
        if localId < 0 then
          s.(errors := s.errors + [NotConvertibleMessage(table, column, foreign, ref.uuid)])
        else
          s.(conversions := s.conversions + [Entry(env.run, Upper(foreign), ref.id, localId)],
             systemKeys := s.systemKeys + [SystemKey(foreign, ref.id)])
    else s
  }

  /** The scan over all result rows, in order. */
  function ScanSpec(env: Env, table: string, column: string, foreign: string, s: Session, refs: seq<ForeignRef>): Session {
    if refs == [] then s
    else RefStep(env, table, column, foreign, ScanSpec(env, table, column, foreign, s, refs[..|refs| - 1]), refs[|refs| - 1])
  }

  /** validateExternalColumn. */
  function ValidateColumnSpec(env: Env, s: Session, table: string, col: SourceColumn): Session {
    match LocalColumnOf(env.local, table, col.name)
    case None => s.(errors := s.errors + [MissingColumnMessage(table, col.name)])
    case Some(lc) =>
      var checked := s.(errors := s.errors + DictionaryErrors(table, col.name, col.referenceId, col.fieldLength, lc));
      var scanned :=
        match ForeignTableOf(lc, table)
        case None => checked
        case Some(foreign) => ScanSpec(env, table, col.name, foreign, checked, ForeignScan(env.source, env.clients, table, col.name, foreign));
      scanned.(columnsVerified := scanned.columnsVerified + [ColumnKey(table, col.name)])
  }

  // ---------------------------------------------------------------------
  // One table

  /** One column of the column loop: AD_Client_ID is verified without checks. */
  function ColumnStep(env: Env, table: string, s: Session, col: SourceColumn): Session {
    if EqualsIgnoreCase(col.name, "AD_Client_ID") then
      s.(columnsVerified := s.columnsVerified + [ColumnKey(table, col.name)])
    else ValidateColumnSpec(env, s, table, col)
  }

  function ColumnsSpec(env: Env, table: string, s: Session, cols: seq<SourceColumn>): Session {
    if cols == [] then s
    else ColumnStep(env, table, ColumnsSpec(env, table, s, cols[..|cols| - 1]), cols[|cols| - 1])
  }

  /** The table has rows of the selected clients (AD_Client always has). */
  predicate HasClientData(env: Env, table: string) {
    EqualsIgnoreCase("AD_Client", table) || ClientDataCount(env.source, env.clients, table) != 0
  }

  /** validateExternalTable. */
  function ValidateTableSpec(env: Env, s: Session, table: string): Result<Session> {
    if !HasClientData(env, table) then Success(s)
    else if !EqualsIgnoreCase("AD_Client", table) && EqualsIgnoreCase("AD_Attribute_Value", table) then
      Failure(UnsupportedTableMessage(table))
    else if LocalTableOf(env.local, table).None? then
      Success(s.(errors := s.errors + [MissingTableMessage(table)]))
    else
      var checked := ColumnsSpec(env, table, s, SourceColumnsOf(env.source, table));
      Success(checked.(tablesVerified := checked.tablesVerified + [Upper(table)]))
  }

  function TablesSpec(env: Env, s: Session, names: seq<string>): Result<Session> {
    if names == [] then Success(s)
    else
      var before :- TablesSpec(env, s, names[..|names| - 1]);
      ValidateTableSpec(env, before, names[|names| - 1])
  }

  /** An exception in one table ends the table loop. */
  lemma {:induction false} TablesSpecStopsAtFailure(env: Env, s: Session, names: seq<string>, k: nat)
    requires k <= |names| && TablesSpec(env, s, names[..k]).Failure?
    ensures TablesSpec(env, s, names) == TablesSpec(env, s, names[..k])
    decreases |names| - k
  {
    if k < |names| {
      assert names[..k + 1][..k] == names[..k];
      TablesSpecStopsAtFailure(env, s, names, k + 1);
    } else {
      assert names[..k] == names;
    }
  }

  // ---------------------------------------------------------------------
  // The whole validation

  /** The attachment check runs unless AD_Attachment is excluded by name. */
  predicate AttachmentsBlock(env: Env) {
    !ExcludesByName(env.tables, "AD_ATTACHMENT")
      && StoredCount(env.source, env.clients, env.tables, env.source.attachments) > 0
  }

  predicate ArchivesBlock(env: Env) {
    !ExcludesByName(env.tables, "AD_ARCHIVE")
      && StoredCount(env.source, env.clients, env.tables, env.source.archives) > 0
  }

  /** validate. */
  function ValidateSpec(env: Env, s: Session): Result<Session> {
    if ClientCount(env.source, env.clients) == 0 then Failure(NO_CLIENTS_MESSAGE)
    else if AttachmentsBlock(env) then Failure(ATTACHMENTS_MESSAGE)
    else if ArchivesBlock(env) then Failure(ARCHIVES_MESSAGE)
    else TablesSpec(env, s, SourceTableNames(env.source.tables, env.tables))
  }
}
