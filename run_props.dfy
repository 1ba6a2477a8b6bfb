/**
 * What a whole run of doIt guarantees: the parameter checks come first,
 * a validation with errors logs them and writes nothing, a validate-only
 * run writes nothing, a move writes only into verified tables and columns,
 * and the conversion table it leaves maps each (table, source key) to one
 * target key.
 */
module RunProps {
  import opened Wrappers
  import opened Text
  import opened Filters
  import opened Catalog
  import opened Validation
  import opened Migration
  import opened Process
  import opened ValidationProps
  import opened MigrationProps

  /** The state the constructor leaves: nothing verified and no conversion
      recorded yet. */
  predicate Fresh(s: Session) {
    s.columnsVerified == [] && s.systemKeys == [] && s.conversions == []
  }

  /** The parameters are checked before the connection is used, in the order
      mandatory URL, exclusive lists, list syntax; then the connection. */
  lemma ParameterChecksFirst(p: Parameters, connection: Result<SourceDb>, other: Result<SourceDb>, local: LocalDb, run: int, s: Session)
    ensures IsBlank(p.jdbcUrl) ==> RunSpec(p, connection, local, run, s) == Aborted(MISSING_URL_MESSAGE)
    ensures !IsBlank(p.jdbcUrl) && !IsBlank(p.clientsToInclude) && !IsBlank(p.clientsToExclude) ==>
      RunSpec(p, connection, local, run, s) == Aborted(BOTH_LISTS_MESSAGE)
    ensures (!IsBlank(p.jdbcUrl) && (IsBlank(p.clientsToInclude) || IsBlank(p.clientsToExclude))
             && ClientFilterOf(p.clientsToInclude, p.clientsToExclude).Failure?) ==>
      RunSpec(p, connection, local, run, s) == Aborted(ClientFilterOf(p.clientsToInclude, p.clientsToExclude).error)
    ensures ClientFilterOf(p.clientsToInclude, p.clientsToExclude).Failure? ==>
      RunSpec(p, connection, local, run, s) == RunSpec(p, other, local, run, s)
    ensures (!IsBlank(p.jdbcUrl) && (IsBlank(p.clientsToInclude) || IsBlank(p.clientsToExclude))
             && ClientFilterOf(p.clientsToInclude, p.clientsToExclude).Success? && connection.Failure?) ==>
      RunSpec(p, connection, local, run, s) == Aborted(ConnectionMessage(p.jdbcUrl, connection.error))
  {
  }

  /** A run that returns went through the connected part with the filters
      its parameters give. */
  lemma ReturnedRunConnected(p: Parameters, connection: Result<SourceDb>, local: LocalDb, run: int, s: Session)
    requires RunSpec(p, connection, local, run, s).Returned?
    ensures connection.Success? && ClientFilterOf(p.clientsToInclude, p.clientsToExclude).Success?
    ensures var env := Env(connection.value, local, ClientFilterOf(p.clientsToInclude, p.clientsToExclude).value,
                           TableFilterOf(p.tablesToExclude), run);
      RunSpec(p, connection, local, run, s) == ConnectedSpec(env, p.isValidateOnly, s)
  {
  }

  // ---------------------------------------------------------------------
  // Once connected

  /** The status text is "@Error@" exactly when errors were logged, and the
      lines logged are then the errors; nothing is written unless the move
      ran. */
  lemma ConnectedStatus(env: Env, isValidateOnly: bool, s: Session)
    requires SystemKeysTrack(env, s)
    ensures var r := ConnectedSpec(env, isValidateOnly, s);
      r.Returned? ==>
        && (r.text == ERROR_STATUS || r.text == OK_STATUS)
        && (r.text == ERROR_STATUS <==> r.logged != [])
        && (r.text == ERROR_STATUS ==> r.logged == r.session.errors)
        && (r.text == ERROR_STATUS || isValidateOnly ==> r.session.inserted == s.inserted && r.session.nextKey == s.nextKey)
        && (r.session.inserted != s.inserted ==> r.text == OK_STATUS && r.session.errors == s.errors)
  {
    var v := ValidateSpec(env, s);
    if v.Success? {
      ValidateKeeps(env, s);
      if v.value.errors == [] && !isValidateOnly {
        var tables := MigrationTables(env.local.tables, env.tables);
        var b := BuildSpec(env, v.value, tables);
        BuildEntriesMeaning(env, v.value, tables);
        CopyWritesOnlyVerified(env, b, tables);
        assert s.errors <= v.value.errors;
      }
    }
  }

  /** A move inserts rows, in the tables it is allowed to touch, only into
      tables and columns that validation verified. */
  lemma ConnectedWritesOnlyVerified(env: Env, isValidateOnly: bool, s: Session)
    requires SystemKeysTrack(env, s)
    ensures var r := ConnectedSpec(env, isValidateOnly, s);
      r.Returned? ==>
        && s.inserted <= r.session.inserted
        && forall ir :: ir in r.session.inserted[|s.inserted|..] ==>
             && Upper(ir.tableName) in r.session.tablesVerified
             && AllowsTable(env.tables, ir.tableName)
             && (exists t :: t in env.local.tables && t.name == ir.tableName)
             && forall c :: c in ir.columns ==> ColumnKey(ir.tableName, c) in r.session.columnsVerified
  {
    var v := ValidateSpec(env, s);
    if v.Success? {
      ValidateKeeps(env, s);
      if v.value.errors == [] && !isValidateOnly {
        var tables := MigrationTables(env.local.tables, env.tables);
        var b := BuildSpec(env, v.value, tables);
        BuildEntriesMeaning(env, v.value, tables);
        CopyWritesOnlyVerified(env, b, tables);
      }
    }
  }

  /** With primary keys in the source tables that declare one, non-negative
      client IDs, client 0 excluded, distinct local table names and only
      dictionary columns verified so far, the conversion table holds one
      entry per (table, source key) and the lookup finds it. */
  lemma ConnectedConversionsFunctional(env: Env, isValidateOnly: bool, s: Session)
    requires KeysUnique(env.source) && ClientIdsNonNegative(env.source) && SYSTEM_CLIENT in env.clients.excluded
    requires NamesDistinct(env.local.tables) && SystemKeysTrack(env, s) && ColumnsDeclared(env, s)
    ensures var r := ConnectedSpec(env, isValidateOnly, s);
      r.Returned? ==>
        var c := r.session.conversions;
        UniqueKeys(c) && forall e :: e in c ==> Lookup(c, e.run, e.tableName, e.sourceId) == e.targetId
  {
    var v := ValidateSpec(env, s);
    if v.Success? {
      ValidateKeeps(env, s);
      ValidateKeepsDeclared(env, s);
      if v.value.errors == [] && !isValidateOnly {
        var tables := MigrationTables(env.local.tables, env.tables);
        MigrationTablesDistinct(env.local.tables, env.tables);
        BuildIsFunctional(env, v.value, tables);
        CopyWritesOnlyVerified(env, BuildSpec(env, v.value, tables), tables);
      } else {
        BuildIsFunctional(env, v.value, []);
      }
    }
  }

  // ---------------------------------------------------------------------
  // A whole run from the constructor's state

  lemma RunStatus(p: Parameters, connection: Result<SourceDb>, local: LocalDb, run: int, s: Session)
    requires Fresh(s)
    ensures var r := RunSpec(p, connection, local, run, s);
      r.Returned? ==>
        && (r.text == ERROR_STATUS || r.text == OK_STATUS)
        && (r.text == ERROR_STATUS <==> r.logged != [])
        && (r.text == ERROR_STATUS ==> r.logged == r.session.errors)
        && (r.text == ERROR_STATUS || p.isValidateOnly ==> r.session.inserted == s.inserted && r.session.nextKey == s.nextKey)
        && (r.session.inserted != s.inserted ==> r.text == OK_STATUS && r.session.errors == s.errors)
  {
    if RunSpec(p, connection, local, run, s).Returned? {
      ReturnedRunConnected(p, connection, local, run, s);
      var env := Env(connection.value, local, ClientFilterOf(p.clientsToInclude, p.clientsToExclude).value,
                     TableFilterOf(p.tablesToExclude), run);
      EmptyTracks(env, s);
      ConnectedStatus(env, p.isValidateOnly, s);
    }
  }

  lemma RunWritesOnlyVerified(p: Parameters, connection: Result<SourceDb>, local: LocalDb, run: int, s: Session)
    requires Fresh(s)
    ensures var r := RunSpec(p, connection, local, run, s);
      r.Returned? ==>
        && s.inserted <= r.session.inserted
        && forall ir :: ir in r.session.inserted[|s.inserted|..] ==>
             && Upper(ir.tableName) in r.session.tablesVerified
             && AllowsTable(TableFilterOf(p.tablesToExclude), ir.tableName)
             && (exists t :: t in local.tables && t.name == ir.tableName)
             && forall c :: c in ir.columns ==> ColumnKey(ir.tableName, c) in r.session.columnsVerified
  {
    if RunSpec(p, connection, local, run, s).Returned? {
      ReturnedRunConnected(p, connection, local, run, s);
      var env := Env(connection.value, local, ClientFilterOf(p.clientsToInclude, p.clientsToExclude).value,
                     TableFilterOf(p.tablesToExclude), run);
      EmptyTracks(env, s);
      ConnectedWritesOnlyVerified(env, p.isValidateOnly, s);
    }
  }

  lemma RunConversionsFunctional(p: Parameters, source: SourceDb, local: LocalDb, run: int, s: Session)
    requires KeysUnique(source) && ClientIdsNonNegative(source) && NamesDistinct(local.tables) && Fresh(s)
    ensures var r := RunSpec(p, Success(source), local, run, s);
      r.Returned? ==>
        var c := r.session.conversions;
        UniqueKeys(c) && forall e :: e in c ==> Lookup(c, e.run, e.tableName, e.sourceId) == e.targetId
  {
    if RunSpec(p, Success(source), local, run, s).Returned? {
      ReturnedRunConnected(p, Success(source), local, run, s);
      ClientFilterExcludesSystem(p.clientsToInclude, p.clientsToExclude);
      var env := Env(source, local, ClientFilterOf(p.clientsToInclude, p.clientsToExclude).value,
                     TableFilterOf(p.tablesToExclude), run);
      EmptyTracks(env, s);
      ConnectedConversionsFunctional(env, p.isValidateOnly, s);
    }
  }
}
