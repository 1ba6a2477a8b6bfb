/**
 * The MoveClient process: doIt and the routines it calls, as a class whose
 * fields are the process's lists and the rows it writes. Each method is
 * proved to leave the state its specification function describes.
 */
module Process {
  import opened Wrappers
  import opened Text
  import opened Filters
  import opened Catalog
  import opened Validation
  import opened Migration

  /** The process parameters doIt reads (user name and password aside). */
  datatype Parameters = Parameters(
    jdbcUrl: string,
    tablesToExclude: string,
    clientsToInclude: string,
    clientsToExclude: string,
    isValidateOnly: bool)

  /** How a routine ends: normally, or with an exception and its message. */
  datatype Status = Normal | Thrown(message: string)

  /** What doIt hands back to the framework: a status text or an exception. */
  datatype Outcome = Returns(text: string) | Throws(message: string)

  /** A whole run: the status text, the lines logged and the final state;
      or the message of the exception that ended it. */
  datatype Run = Returned(text: string, logged: seq<string>, session: Session) | Aborted(message: string)

  const MISSING_URL_MESSAGE := "Fill mandatory JDBC_URL"
  const BOTH_LISTS_MESSAGE := "Clients to exclude and include cannot be used at the same time"
  const ERROR_STATUS := "@Error@"
  const OK_STATUS := "@OK@"

  function ConnectionMessage(url: string, cause: string): string {
    "Could not get a connection to " + url + ",\nCause: " + cause
  }

  /** doIt: the parameter checks, the filters, the connection (Failure
      carries the driver's cause), validate, then moveClient. */
  function RunSpec(p: Parameters, connection: Result<SourceDb>, local: LocalDb, run: int, s: Session): Run {
    if IsBlank(p.jdbcUrl) then Aborted(MISSING_URL_MESSAGE)
    else if !IsBlank(p.clientsToInclude) && !IsBlank(p.clientsToExclude) then Aborted(BOTH_LISTS_MESSAGE)
    else
      match ClientFilterOf(p.clientsToInclude, p.clientsToExclude)
      case Failure(e) => Aborted(e)
      case Success(clients) =>
        match connection
        case Failure(cause) => Aborted(ConnectionMessage(p.jdbcUrl, cause))
        case Success(source) =>
          ConnectedSpec(Env(source, local, clients, TableFilterOf(p.tablesToExclude), run), p.isValidateOnly, s)
  }

  /** doIt once connected: validate; log the errors and stop if there are
      any; otherwise move unless only validating. */
  function ConnectedSpec(env: Env, isValidateOnly: bool, s: Session): Run {
    match ValidateSpec(env, s)
    case Failure(e) => Aborted(e)
    case Success(v) =>
      if v.errors != [] then Returned(ERROR_STATUS, v.errors, v)
      else if isValidateOnly then Returned(OK_STATUS, [], v)
      else
        match MoveSpec(env, v)
        case Failure(e) => Aborted(e)
        case Success(m) => Returned(OK_STATUS, [], m)
  }

  class MoveClientProcess {
    const parameters: Parameters
    /** The target database's dictionary and UUID index. */
    const local: LocalDb
    /** AD_PInstance_ID of this run. */
    const run: int

    var tableFilter: TableFilter
    var clientFilter: ClientFilter
    var errors: seq<string>
    var tablesVerified: seq<string>
    var columnsVerified: seq<string>
    var systemKeys: seq<string>
    /** The rows of T_MoveClient. */
    var conversions: seq<Entry>
    /** The next key DB.getNextID hands out. */
    var nextKey: int
    /** The rows inserted into the local tables. */
    var inserted: seq<InsertedRow>
    /** The process log (addLog). */
    var logged: seq<string>

    function Snapshot(): Session
      reads this`errors, this`tablesVerified, this`columnsVerified, this`systemKeys,
        this`conversions, this`nextKey, this`inserted
    {
      Session(errors, tablesVerified, columnsVerified, systemKeys, conversions, nextKey, inserted)
    }

    function EnvOf(source: SourceDb): Env
      reads this`clientFilter, this`tableFilter
    {
      Env(source, local, clientFilter, tableFilter, run)
    }

    /** The routine ended as the specification says: normally in its state,
        or with its exception. */
    predicate Ends(st: Status, spec: Result<Session>)
      reads this`errors, this`tablesVerified, this`columnsVerified, this`systemKeys,
        this`conversions, this`nextKey, this`inserted
    {
      match spec
      case Success(s) => st == Normal && Snapshot() == s
      case Failure(e) => st == Thrown(e)
    }

    constructor (parameters: Parameters, local: LocalDb, run: int, firstKey: int)
      ensures this.parameters == parameters && this.local == local && this.run == run
      ensures Snapshot() == Session([], [], [], [], [], firstKey, []) && logged == []
    {
      this.parameters := parameters;
      this.local := local;
      this.run := run;
      tableFilter := TableFilter([]);
      clientFilter := ClientFilter([], None);
      errors := [];
      tablesVerified := [];
      columnsVerified := [];
      systemKeys := [];
      conversions := [];
      nextKey := firstKey;
      inserted := [];
      logged := [];
    }

    /** doIt. */
    method DoIt(connection: Result<SourceDb>) returns (outcome: Outcome)
      modifies this
      ensures match RunSpec(parameters, connection, local, run, old(Snapshot()))
        case Returned(text, lines, s) => outcome == Returns(text) && Snapshot() == s && logged == old(logged) + lines
        case Aborted(e) => outcome == Throws(e)
    {
      if IsBlank(parameters.jdbcUrl) {
        return Throws(MISSING_URL_MESSAGE);
      }
      if !IsBlank(parameters.clientsToInclude) && !IsBlank(parameters.clientsToExclude) {
        return Throws(BOTH_LISTS_MESSAGE);
      }
      tableFilter := BuildTableFilter(parameters.tablesToExclude);
      var clients := BuildClientFilter(parameters.clientsToInclude, parameters.clientsToExclude);
      if clients.Failure? {
        return Throws(clients.error);
      }
      clientFilter := clients.value;
      if connection.Failure? {
        return Throws(ConnectionMessage(parameters.jdbcUrl, connection.error));
      }
      ghost var spec := ConnectedSpec(EnvOf(connection.value), parameters.isValidateOnly, Snapshot());
      assert RunSpec(parameters, connection, local, run, old(Snapshot())) == spec;
      outcome := Connected(connection.value);
    }

    /** The part of doIt that works on the open connection. */
    method Connected(source: SourceDb) returns (outcome: Outcome)
      modifies this
      ensures tableFilter == old(tableFilter) && clientFilter == old(clientFilter)
      ensures match ConnectedSpec(EnvOf(source), parameters.isValidateOnly, old(Snapshot()))
        case Returned(text, lines, s) => outcome == Returns(text) && Snapshot() == s && logged == old(logged) + lines
        case Aborted(e) => outcome == Throws(e)
    {
      var validated := Validate(source);
      if validated.Thrown? {
        return Throws(validated.message);
      }
      if |errors| > 0 {
        LogErrors();
        return Returns(ERROR_STATUS);
      }
      if !parameters.isValidateOnly {
        var moved := MoveClient(source);
        if moved.Thrown? {
          return Throws(moved.message);
        }
      }
      outcome := Returns(OK_STATUS);
    }

    /** addLog of every collected error, in order. */
    method LogErrors()
      modifies this
      ensures Snapshot() == old(Snapshot()) && logged == old(logged) + errors
      ensures tableFilter == old(tableFilter) && clientFilter == old(clientFilter)
    {
      var k := 0;
      while k < |errors|
        invariant 0 <= k <= |errors|
        invariant Snapshot() == old(Snapshot())
        invariant tableFilter == old(tableFilter) && clientFilter == old(clientFilter)
        invariant logged == old(logged) + errors[..k]
      {
        logged := logged + [errors[k]];
        k := k + 1;
      }
      assert errors[..k] == errors;
    }

    /** validate. */
    method Validate(source: SourceDb) returns (st: Status)
      modifies this`errors, this`tablesVerified, this`columnsVerified, this`systemKeys, this`conversions
      ensures tableFilter == old(tableFilter) && clientFilter == old(clientFilter) && logged == old(logged)
      ensures Ends(st, ValidateSpec(EnvOf(source), old(Snapshot())))
    {
      if ClientCount(source, clientFilter) == 0 {
        return Thrown(NO_CLIENTS_MESSAGE);
      }
      if AttachmentsBlock(EnvOf(source)) {
        return Thrown(ATTACHMENTS_MESSAGE);
      }
      if ArchivesBlock(EnvOf(source)) {
        return Thrown(ARCHIVES_MESSAGE);
      }
      var names := SourceTableNames(source.tables, tableFilter);
      st := ValidateTables(source, names);
    }

    /** The table loop of validate; an exception in one table ends it. */
    method ValidateTables(source: SourceDb, names: seq<string>) returns (st: Status)
      modifies this`errors, this`tablesVerified, this`columnsVerified, this`systemKeys, this`conversions
      ensures Ends(st, TablesSpec(EnvOf(source), old(Snapshot()), names))
    {
      ghost var env := EnvOf(source);
      ghost var s0 := Snapshot();
      var i := 0;
      while i < |names|
        invariant 0 <= i <= |names|
        invariant TablesSpec(env, s0, names[..i]) == Success(Snapshot())
      {
        assert names[..i + 1][..i] == names[..i];
        ghost var before := Snapshot();
        assert TablesSpec(env, s0, names[..i + 1]) == ValidateTableSpec(env, before, names[i]);
        var r := ValidateExternalTable(source, names[i]);
        if r.Thrown? {
          TablesSpecStopsAtFailure(env, s0, names, i + 1);
          return r;
        }
        i := i + 1;
      }
      assert names[..i] == names;
      st := Normal;
    }

    /** validateExternalTable. */
    method ValidateExternalTable(source: SourceDb, table: string) returns (st: Status)
      modifies this`errors, this`tablesVerified, this`columnsVerified, this`systemKeys, this`conversions
      ensures tableFilter == old(tableFilter) && clientFilter == old(clientFilter) && logged == old(logged)
      ensures Ends(st, ValidateTableSpec(EnvOf(source), old(Snapshot()), table))
    {
      if !EqualsIgnoreCase("AD_Client", table) {
        var count := ClientDataCount(source, clientFilter, table);
        if count == 0 {
          return Normal;
        }
        if EqualsIgnoreCase("AD_Attribute_Value", table) {
          return Thrown(UnsupportedTableMessage(table));
        }
      }
      if LocalTableOf(local, table).None? {
        errors := errors + [MissingTableMessage(table)];
        return Normal;
      }
      var cols := SourceColumnsOf(source, table);
      ValidateColumns(source, table, cols);
      tablesVerified := tablesVerified + [Upper(table)];
      st := Normal;
    }

    /** The column loop of validateExternalTable: AD_Client_ID is verified
        without checks, every other column is validated. */
    method ValidateColumns(source: SourceDb, table: string, cols: seq<SourceColumn>)
      modifies this`errors, this`columnsVerified, this`systemKeys, this`conversions
      ensures Snapshot() == ColumnsSpec(EnvOf(source), table, old(Snapshot()), cols)
    {
      ghost var env := EnvOf(source);
      ghost var s0 := Snapshot();
      var i := 0;
      while i < |cols|
        invariant 0 <= i <= |cols|
        invariant Snapshot() == ColumnsSpec(env, table, s0, cols[..i])
      {
        assert cols[..i + 1][..i] == cols[..i];
        ghost var before := Snapshot();
        assert ColumnsSpec(env, table, s0, cols[..i + 1]) == ColumnStep(env, table, before, cols[i]);
        if EqualsIgnoreCase(cols[i].name, "AD_Client_ID") {
          columnsVerified := columnsVerified + [ColumnKey(table, cols[i].name)];
        } else {
          ValidateExternalColumn(source, table, cols[i]);
        }
        i := i + 1;
      }
      assert cols[..i] == cols;
    }

    /** validateExternalColumn. */
    method ValidateExternalColumn(source: SourceDb, table: string, col: SourceColumn)
      modifies this`errors, this`columnsVerified, this`systemKeys, this`conversions
      ensures tableFilter == old(tableFilter) && clientFilter == old(clientFilter) && logged == old(logged)
      ensures Snapshot() == ValidateColumnSpec(EnvOf(source), old(Snapshot()), table, col)
    {
      var found := LocalColumnOf(local, table, col.name);
      if found.None? {
        errors := errors + [MissingColumnMessage(table, col.name)];
        return;
      }
      var lc := found.value;
      ghost var env := EnvOf(source);
      ghost var s0 := Snapshot();
      CheckDictionary(table, col, lc);
      ghost var checked := s0.(errors := s0.errors + DictionaryErrors(table, col.name, col.referenceId, col.fieldLength, lc));
      assert Snapshot() == checked;
      var foreignTable := ForeignTableOf(lc, table);
      if foreignTable.Some? {
        var foreign := foreignTable.value;
        ScanForeignKeys(source, table, col.name, foreign);
        assert Snapshot() == ScanSpec(env, table, col.name, foreign, checked, ForeignScan(env.source, env.clients, table, col.name, foreign));
      }
      columnsVerified := columnsVerified + [ColumnKey(table, col.name)];
    }

    /** The reference type and length checks of validateExternalColumn. */
    method CheckDictionary(table: string, col: SourceColumn, lc: LocalColumn)
      modifies this`errors
      ensures errors == old(errors) + DictionaryErrors(table, col.name, col.referenceId, col.fieldLength, lc)
    {
      if TypeMismatch(col.referenceId, lc.referenceId) {
        errors := errors + [TypeMessage(table, col.name, col.referenceId, lc.referenceId)];
      }
      if col.fieldLength != lc.fieldLength {
        errors := errors + [LengthMessage(table, col.name, col.fieldLength, lc.fieldLength)];
      }
    }

    /** The foreign-key scan of one column: every referenced row of another
        client is an error, every system row above the threshold is looked up
        by UUID and recorded once. */
    method ScanForeignKeys(source: SourceDb, table: string, column: string, foreign: string)
      modifies this`errors, this`systemKeys, this`conversions
      ensures tableFilter == old(tableFilter) && clientFilter == old(clientFilter) && logged == old(logged)
      ensures Snapshot() == ScanSpec(EnvOf(source), table, column, foreign, old(Snapshot()),
        ForeignScan(source, clientFilter, table, column, foreign))
    {
      var refs := ForeignScan(source, clientFilter, table, column, foreign);
      ghost var env := EnvOf(source);
      ghost var s0 := Snapshot();
      var i := 0;
      while i < |refs|
        invariant 0 <= i <= |refs|
        invariant tableFilter == old(tableFilter) && clientFilter == old(clientFilter) && logged == old(logged)
        invariant Snapshot() == ScanSpec(env, table, column, foreign, s0, refs[..i])
      {
        assert refs[..i + 1][..i] == refs[..i];
        RecordReference(source, table, column, foreign, refs[i]);
        i := i + 1;
      }
      assert refs[..i] == refs;
    }

    /** One row of the foreign-key scan. */
    method RecordReference(source: SourceDb, table: string, column: string, foreign: string, ref: ForeignRef)
      modifies this`errors, this`systemKeys, this`conversions
      ensures tableFilter == old(tableFilter) && clientFilter == old(clientFilter) && logged == old(logged)
      ensures Snapshot() == RefStep(EnvOf(source), table, column, foreign, old(Snapshot()), ref)
    {
      if ref.client > 0 {
        errors := errors + [CrossClientMessage(table, column, ref)];
      } else if ref.id > MAX_OFFICIAL_ID && SystemKey(foreign, ref.id) !in systemKeys {
        var localId := LocalIdByUuid(local, foreign, ref.uuid);
        if localId < 0 {
          errors := errors + [NotConvertibleMessage(table, column, foreign, ref.uuid)];
        } else {
          conversions := conversions + [Entry(run, Upper(foreign), ref.id, localId)];
          systemKeys := systemKeys + [SystemKey(foreign, ref.id)];
        }
      }
    }

    /** moveClient up to the commit: the conversions of every table, then
        the copy of every table. */
    method MoveClient(source: SourceDb) returns (st: Status)
      modifies this`nextKey, this`conversions, this`inserted
      ensures tableFilter == old(tableFilter) && clientFilter == old(clientFilter) && logged == old(logged)
      ensures Ends(st, MoveSpec(EnvOf(source), old(Snapshot())))
    {
      var tables := MigrationTables(local.tables, tableFilter);
      BuildConversions(source, tables);
      st := CopyTables(source, tables);
    }

    /** The first loop of moveClient: the ID conversions of every table
        whose own key column is verified. */
    method BuildConversions(source: SourceDb, tables: seq<LocalTable>)
      modifies this`nextKey, this`conversions
      ensures tableFilter == old(tableFilter) && clientFilter == old(clientFilter) && logged == old(logged)
      ensures Snapshot() == BuildSpec(EnvOf(source), old(Snapshot()), tables)
    {
      ghost var env := EnvOf(source);
      ghost var s0 := Snapshot();
      var i := 0;
      while i < |tables|
        invariant 0 <= i <= |tables|
        invariant tableFilter == old(tableFilter) && clientFilter == old(clientFilter) && logged == old(logged)
        invariant Snapshot() == BuildSpec(env, s0, tables[..i])
      {
        assert tables[..i + 1][..i] == tables[..i];
        var name := tables[i].name;
        if Upper(name) in tablesVerified && ColumnKey(name, name + "_ID") in columnsVerified {
          ConvertTableIds(source, name);
        }
        i := i + 1;
      }
      assert tables[..i] == tables;
    }

    /** The second loop of moveClient: the rows of every verified table. */
    method CopyTables(source: SourceDb, tables: seq<LocalTable>) returns (st: Status)
      modifies this`inserted
      ensures tableFilter == old(tableFilter) && clientFilter == old(clientFilter) && logged == old(logged)
      ensures Ends(st, CopySpec(EnvOf(source), old(Snapshot()), tables))
    {
      ghost var env := EnvOf(source);
      ghost var s0 := Snapshot();
      var i := 0;
      while i < |tables|
        invariant 0 <= i <= |tables|
        invariant tableFilter == old(tableFilter) && clientFilter == old(clientFilter) && logged == old(logged)
        invariant CopySpec(env, s0, tables[..i]) == Success(Snapshot())
      {
        assert tables[..i + 1][..i] == tables[..i];
        var r := CopyTableRows(source, tables[i]);
        if r.Thrown? {
          CopySpecStopsAtFailure(env, s0, tables, i + 1);
          return r;
        }
        i := i + 1;
      }
      assert tables[..i] == tables;
      st := Normal;
    }

    /** One fresh key per source key of the table, recorded in T_MoveClient. */
    method ConvertTableIds(source: SourceDb, table: string)
      modifies this`nextKey, this`conversions
      ensures tableFilter == old(tableFilter) && clientFilter == old(clientFilter) && logged == old(logged)
      ensures Snapshot() == AllocateIds(EnvOf(source), old(Snapshot()), table, SourceIds(EnvOf(source), table))
    {
      ghost var env := EnvOf(source);
      var ids := SourceIds(EnvOf(source), table);
      ghost var s0 := Snapshot();
      var j := 0;
      while j < |ids|
        invariant 0 <= j <= |ids|
        invariant tableFilter == old(tableFilter) && clientFilter == old(clientFilter) && logged == old(logged)
        invariant Snapshot() == AllocateIds(env, s0, table, ids[..j])
      {
        assert ids[..j + 1][..j] == ids[..j];
        var target := nextKey;
        nextKey := nextKey + 1;
        conversions := conversions + [Entry(run, Upper(table), ids[j], target)];
        j := j + 1;
      }
      assert ids[..j] == ids;
    }

    /** The columns the copy of one table names: active, not virtual and
        verified, in dictionary order. */
    method SelectColumns(table: LocalTable) returns (cols: seq<LocalColumn>)
      ensures cols == SelectedColumns(Snapshot(), table.name, table.columns)
    {
      cols := [];
      var i := 0;
      while i < |table.columns|
        invariant 0 <= i <= |table.columns|
        invariant cols == SelectedColumns(Snapshot(), table.name, table.columns[..i])
      {
        assert table.columns[..i + 1][..i] == table.columns[..i];
        var c := table.columns[i];
        if c.active && !c.virtual && ColumnKey(table.name, c.name) in columnsVerified {
          cols := cols + [c];
        }
        i := i + 1;
      }
      assert table.columns[..i] == table.columns;
    }

    /** The copy of one table: every row in scope, translated and inserted. */
    method CopyTableRows(source: SourceDb, table: LocalTable) returns (st: Status)
      modifies this`inserted
      ensures tableFilter == old(tableFilter) && clientFilter == old(clientFilter) && logged == old(logged)
      ensures Ends(st, CopyTableSpec(EnvOf(source), old(Snapshot()), table))
    {
      if Upper(table.name) !in tablesVerified {
        return Normal;
      }
      var cols := SelectColumns(table);
      var rows := DataRows(EnvOf(source), table.name);
      st := InsertRows(source, table, cols, rows);
    }

    /** The row loop of the copy of one table: one INSERT per fetched row,
        through a parameter buffer allocated once. */
    method InsertRows(source: SourceDb, table: LocalTable, cols: seq<LocalColumn>, rows: seq<Row>) returns (st: Status)
      modifies this`inserted
      ensures Ends(st, CopyRows(EnvOf(source), old(Snapshot()), table, cols, rows))
    {
      ghost var env := EnvOf(source);
      ghost var s0 := Snapshot();
      var parameters := new Value[|cols|];
      var j := 0;
      while j < |rows|
        invariant 0 <= j <= |rows|
        invariant CopyRows(env, s0, table, cols, rows[..j]) == Success(Snapshot())
      {
        ghost var before := Snapshot();
        CopyRowsStep(env, s0, table, cols, rows, j, before);
        var values := Fetch(rows[j], cols);
        var filled := FillParameters(source, table, cols, values, parameters);
        if filled.Thrown? {
          CopyRowsStopsAtFailure(env, s0, table, cols, rows, j + 1);
          return filled;
        }
        var row := InsertedRow(table.name, Names(cols), parameters[..]);
        if Rejects(local, row) {
          CopyRowsStopsAtFailure(env, s0, table, cols, rows, j + 1);
          return Thrown(INSERT_FAILED);
        }
        inserted := inserted + [row];
        j := j + 1;
      }
      assert rows[..j] == rows;
      st := Normal;
    }

    /** The parameters of one INSERT, filled column by column into the
        buffer the copy of a table reuses for all its rows. */
    method FillParameters(source: SourceDb, table: LocalTable, cols: seq<LocalColumn>, values: seq<Value>, parameters: array<Value>)
      returns (st: Status)
      requires |cols| == |values| == parameters.Length
      modifies parameters
      ensures match TranslateRow(EnvOf(source), conversions, table, cols, values, |cols|)
        case Success(row) => st == Normal && parameters[..] == row
        case Failure(e) => st == Thrown(e)
    {
      var i := 0;
      while i < |cols|
        invariant 0 <= i <= |cols|
        invariant TranslateRow(EnvOf(source), conversions, table, cols, values, i).Success?
        invariant parameters[..i] == TranslateRow(EnvOf(source), conversions, table, cols, values, i).value
      {
        var v := ColumnValue(EnvOf(source), conversions, table, cols, values, i);
        if v.Failure? {
          TranslateRowStopsAtFailure(EnvOf(source), conversions, table, cols, values, i + 1, |cols|);
          return Thrown(v.error);
        }
        parameters[i] := v.value;
        assert parameters[..i + 1] == parameters[..i] + [v.value];
        i := i + 1;
      }
      assert parameters[..] == parameters[..i];
      st := Normal;
    }
  }
}
