/**
 * What the validator guarantees: how each table and column ends up, that
 * every foreign reference is reported or resolved, and that a system
 * reference is converted at most once per TABLE.ID, by its UUID.
 */
module ValidationProps {
  import opened Wrappers
  import opened Text
  import opened Filters
  import opened Catalog
  import opened Validation

  // ---------------------------------------------------------------------
  // The system-conversion key

  /** The position of the last '.', or -1. */
  function LastDot(s: string): (r: int)
    ensures -1 <= r < |s|
  {
    if s == [] then -1
    else if s[|s| - 1] == '.' then |s| - 1
    else LastDot(s[..|s| - 1])
  }

  lemma {:induction false} LastDotBeforeDigits(a: string, d: string)
    requires '.' !in d
    ensures LastDot(a + "." + d) == |a|
    decreases |d|
  {
    var k := a + "." + d;
    if d != [] {
      assert k[..|k| - 1] == a + "." + d[..|d| - 1];
      assert d[|d| - 1] in d;
      LastDotBeforeDigits(a, d[..|d| - 1]);
    }
  }

  /** TABLE.ID names one table (ignoring case) and one key. */
  lemma SystemKeyInjective(a: string, b: string, i: int, j: int)
    requires SystemKey(a, i) == SystemKey(b, j)
    ensures Upper(a) == Upper(b) && i == j
  {
    var k := SystemKey(a, i);
    DecimalHasNoDot(i);
    DecimalHasNoDot(j);
    LastDotBeforeDigits(Upper(a), Decimal(i));
    LastDotBeforeDigits(Upper(b), Decimal(j));
    assert Upper(a) == k[..|Upper(a)|] == Upper(b);
    assert Decimal(i) == k[|Upper(a)| + 1..] == Decimal(j);
    DecimalInjective(i, j);
  }

  /** Reading a table, a key, a UUID or a system key through the
      upper-cased name of a table is reading them through the name. */
  lemma UpperNameReadsTheSame(db: SourceDb, local: LocalDb, fr: Row, foreign: string, id: int, u: Option<string>)
    ensures Rows(db, Upper(foreign)) == Rows(db, foreign)
    ensures Field(fr, Upper(foreign) + "_ID") == Field(fr, foreign + "_ID")
    ensures Field(fr, Upper(foreign) + "_UU") == Field(fr, foreign + "_UU")
    ensures LocalIdByUuid(local, Upper(foreign), u) == LocalIdByUuid(local, foreign, u)
    ensures SystemKey(Upper(foreign), id) == SystemKey(foreign, id)
  {
    UpperIdempotent(foreign);
    UpperOfSuffixes();
    assert Upper("_UU") == [UpperChar('_'), UpperChar('U'), UpperChar('U')];
    UpperConcat(Upper(foreign), "_ID");
    UpperConcat(foreign, "_ID");
    UpperConcat(Upper(foreign), "_UU");
    UpperConcat(foreign, "_UU");
  }

  // ---------------------------------------------------------------------
  // The invariant of the system conversions

  /** The scan result is a row of the foreign table. */
  predicate Witnessed(db: SourceDb, foreign: string, ref: ForeignRef) {
    exists fr :: fr in Rows(db, foreign) && RefOf(foreign, fr) == ref
  }

  /** A conversion recorded by validation: a system row of its table above
      the threshold, mapped to the local row with the same UUID. */
  predicate SystemEntry(env: Env, e: Entry) {
    && e.run == env.run && e.tableName == Upper(e.tableName) && e.sourceId > MAX_OFFICIAL_ID && e.targetId >= 0
    && exists fr :: fr in Rows(env.source, e.tableName)
        && IntOf(Field(fr, e.tableName + "_ID")) == e.sourceId
        && IntOf(Field(fr, "AD_Client_ID")) <= 0
        && e.targetId == LocalIdByUuid(env.local, e.tableName, StringOf(Field(fr, e.tableName + "_UU")))
  }

  /** p_idSystemConversion lists, without repetition, the key of each
      conversion, in the order the conversions were inserted. */
  predicate SystemKeysTrack(env: Env, s: Session) {
    && |s.systemKeys| == |s.conversions|
    && (forall i :: 0 <= i < |s.conversions| ==>
          s.systemKeys[i] == SystemKey(s.conversions[i].tableName, s.conversions[i].sourceId))
    && (forall i :: 0 <= i < |s.conversions| ==> SystemEntry(env, s.conversions[i]))
    && (forall i, j :: 0 <= i < j < |s.systemKeys| ==> s.systemKeys[i] != s.systemKeys[j])
  }

  /** Validation only appends to the lists and the conversions, and
      neither allocates keys nor writes rows. */
  predicate Extends(s: Session, r: Session) {
    && s.errors <= r.errors && s.tablesVerified <= r.tablesVerified && s.columnsVerified <= r.columnsVerified
    && s.conversions <= r.conversions && s.systemKeys <= r.systemKeys
    && r.nextKey == s.nextKey && r.inserted == s.inserted
  }

  lemma ExtendsTransitive(a: Session, b: Session, c: Session)
    requires Extends(a, b) && Extends(b, c)
    ensures Extends(a, c)
  {
  }

  /** No conversion entries: the state a run starts in. */
  lemma EmptyTracks(env: Env, s: Session)
    requires s.systemKeys == [] && s.conversions == []
    ensures SystemKeysTrack(env, s)
  {
  }

  lemma RefStepKeeps(env: Env, table: string, column: string, foreign: string, s: Session, ref: ForeignRef)
    requires SystemKeysTrack(env, s) && Witnessed(env.source, foreign, ref)
    ensures var r := RefStep(env, table, column, foreign, s, ref);
      SystemKeysTrack(env, r) && Extends(s, r)
      && r.tablesVerified == s.tablesVerified && r.columnsVerified == s.columnsVerified
  {
    var r := RefStep(env, table, column, foreign, s, ref);
    if ref.client <= 0 && ref.id > MAX_OFFICIAL_ID && SystemKey(foreign, ref.id) !in s.systemKeys
      && LocalIdByUuid(env.local, foreign, ref.uuid) >= 0
    {
      var fr :| fr in Rows(env.source, foreign) && RefOf(foreign, fr) == ref;
      var e := Entry(env.run, Upper(foreign), ref.id, LocalIdByUuid(env.local, foreign, ref.uuid));
      UpperNameReadsTheSame(env.source, env.local, fr, foreign, ref.id, ref.uuid);
      UpperIdempotent(foreign);
      assert fr in Rows(env.source, e.tableName);
      assert SystemEntry(env, e);
      assert r.conversions == s.conversions + [e];
      assert r.systemKeys == s.systemKeys + [SystemKey(e.tableName, e.sourceId)];
      assert forall i :: 0 <= i < |s.systemKeys| ==> s.systemKeys[i] != r.systemKeys[|s.systemKeys|];
    }
  }

  lemma {:induction false} ScanKeeps(env: Env, table: string, column: string, foreign: string, s: Session, refs: seq<ForeignRef>)
    requires SystemKeysTrack(env, s)
    requires forall ref :: ref in refs ==> Witnessed(env.source, foreign, ref)
    ensures var r := ScanSpec(env, table, column, foreign, s, refs);
      SystemKeysTrack(env, r) && Extends(s, r)
      && r.tablesVerified == s.tablesVerified && r.columnsVerified == s.columnsVerified
  {
    if refs != [] {
      var init := refs[..|refs| - 1];
      assert forall ref :: ref in init ==> ref in refs;
      ScanKeeps(env, table, column, foreign, s, init);
      var mid := ScanSpec(env, table, column, foreign, s, init);
      RefStepKeeps(env, table, column, foreign, mid, refs[|refs| - 1]);
      ExtendsTransitive(s, mid, ScanSpec(env, table, column, foreign, s, refs));
    }
  }

  /** Every row of another client found by the scan leaves a cross-client
      error naming the client and the ID. */
  lemma {:induction false} CrossClientReported(env: Env, table: string, column: string, foreign: string, s: Session, refs: seq<ForeignRef>)
    ensures forall ref :: ref in refs && ref.client > 0 ==>
      CrossClientMessage(table, column, ref) in ScanSpec(env, table, column, foreign, s, refs).errors
  {
    if refs != [] {
      var init := refs[..|refs| - 1];
      CrossClientReported(env, table, column, foreign, s, init);
      var mid := ScanSpec(env, table, column, foreign, s, init);
      var r := ScanSpec(env, table, column, foreign, s, refs);
      assert mid.errors <= r.errors;
      forall ref | ref in refs && ref.client > 0
        ensures CrossClientMessage(table, column, ref) in r.errors
      {
        if ref != refs[|refs| - 1] {
          assert ref in init;
        }
      }
    }
  }

  /** Every system row above the threshold found by the scan is converted
      (its TABLE.ID is remembered) or leaves a not-convertible error. */
  lemma {:induction false} SystemReferenceHandled(env: Env, table: string, column: string, foreign: string, s: Session, refs: seq<ForeignRef>)
    ensures var r := ScanSpec(env, table, column, foreign, s, refs);
      forall ref :: ref in refs && ref.client <= 0 && ref.id > MAX_OFFICIAL_ID ==>
        SystemKey(foreign, ref.id) in r.systemKeys || NotConvertibleMessage(table, column, foreign, ref.uuid) in r.errors
  {
    if refs != [] {
      var init := refs[..|refs| - 1];
      SystemReferenceHandled(env, table, column, foreign, s, init);
      var mid := ScanSpec(env, table, column, foreign, s, init);
      var r := ScanSpec(env, table, column, foreign, s, refs);
      assert mid.errors <= r.errors && mid.systemKeys <= r.systemKeys;
      forall ref | ref in refs && ref.client <= 0 && ref.id > MAX_OFFICIAL_ID
        ensures SystemKey(foreign, ref.id) in r.systemKeys || NotConvertibleMessage(table, column, foreign, ref.uuid) in r.errors
      {
        if ref != refs[|refs| - 1] {
          assert ref in init;
        }
      }
    }
  }
  /** With distinct keys in the foreign table, a system conversion recorded
      for the TABLE.ID of a scanned reference is the one that maps it to the
      local row with the reference's UUID. */
  lemma SystemEntryOfRef(env: Env, foreign: string, ref: ForeignRef, e: Entry)
    requires DistinctKeys(foreign, Rows(env.source, foreign)) && Witnessed(env.source, foreign, ref)
    requires SystemEntry(env, e)
    ensures SystemKey(e.tableName, e.sourceId) == SystemKey(foreign, ref.id) ==>
      e == Entry(env.run, Upper(foreign), ref.id, LocalIdByUuid(env.local, foreign, ref.uuid))
  {
    if SystemKey(e.tableName, e.sourceId) == SystemKey(foreign, ref.id) {
      SystemKeyInjective(e.tableName, foreign, e.sourceId, ref.id);
      var fr :| fr in Rows(env.source, foreign) && RefOf(foreign, fr) == ref;
      var fe :| fe in Rows(env.source, e.tableName) && IntOf(Field(fe, e.tableName + "_ID")) == e.sourceId
        && IntOf(Field(fe, "AD_Client_ID")) <= 0
        && e.targetId == LocalIdByUuid(env.local, e.tableName, StringOf(Field(fe, e.tableName + "_UU")));
      assert e.tableName == Upper(foreign);
      UpperNameReadsTheSame(env.source, env.local, fe, foreign, ref.id, StringOf(Field(fe, foreign + "_UU")));
      var rows := Rows(env.source, foreign);
      var i :| 0 <= i < |rows| && rows[i] == fr;
      var j :| 0 <= j < |rows| && rows[j] == fe;
      assert forall a, b :: 0 <= a < |rows| && 0 <= b < |rows| && a != b ==>
        IntOf(Field(rows[a], foreign + "_ID")) != IntOf(Field(rows[b], foreign + "_ID"));
      assert fe == fr;
    }
  }

  /** One system reference above the threshold: remembered when its UUID
      is found locally, reported when it is not. */
  lemma RefStepResolves(env: Env, table: string, column: string, foreign: string, s: Session, ref: ForeignRef)
    requires SystemKeysTrack(env, s) && DistinctKeys(foreign, Rows(env.source, foreign)) && Witnessed(env.source, foreign, ref)
    requires ref.client <= 0 && ref.id > MAX_OFFICIAL_ID
    ensures var r := RefStep(env, table, column, foreign, s, ref);
      && (LocalIdByUuid(env.local, foreign, ref.uuid) >= 0 ==> SystemKey(foreign, ref.id) in r.systemKeys)
      && (LocalIdByUuid(env.local, foreign, ref.uuid) < 0 ==> NotConvertibleMessage(table, column, foreign, ref.uuid) in r.errors)
  {
    if LocalIdByUuid(env.local, foreign, ref.uuid) < 0 {
      forall i | 0 <= i < |s.systemKeys| ensures s.systemKeys[i] != SystemKey(foreign, ref.id) {
        SystemEntryOfRef(env, foreign, ref, s.conversions[i]);
      }
    }
  }

  /** A system reference above the threshold leaves its TABLE.ID remembered
      when its UUID is found locally, and its not-convertible error when
      it is not. */
  lemma {:induction false} SystemReferenceSplit(env: Env, table: string, column: string, foreign: string, s: Session, refs: seq<ForeignRef>, ref: ForeignRef)
    requires SystemKeysTrack(env, s) && DistinctKeys(foreign, Rows(env.source, foreign))
    requires forall x :: x in refs ==> Witnessed(env.source, foreign, x)
    requires ref in refs && ref.client <= 0 && ref.id > MAX_OFFICIAL_ID
    ensures var r := ScanSpec(env, table, column, foreign, s, refs);
      && (LocalIdByUuid(env.local, foreign, ref.uuid) >= 0 ==> SystemKey(foreign, ref.id) in r.systemKeys)
      && (LocalIdByUuid(env.local, foreign, ref.uuid) < 0 ==> NotConvertibleMessage(table, column, foreign, ref.uuid) in r.errors)
  {
    var init := refs[..|refs| - 1];
    var last := refs[|refs| - 1];
    assert forall x :: x in init ==> x in refs;
    ScanKeeps(env, table, column, foreign, s, init);
    var mid := ScanSpec(env, table, column, foreign, s, init);
    RefStepKeeps(env, table, column, foreign, mid, last);
    if ref == last {
      RefStepResolves(env, table, column, foreign, mid, last);
    } else {
      assert ref in init;
      SystemReferenceSplit(env, table, column, foreign, s, init, ref);
    }
  }

  /** The rule for a system reference above the threshold: when a local row
      has its UUID, the conversion to that row is recorded and its TABLE.ID
      remembered; when none has, the not-convertible error is added and no
      conversion exists for that TABLE.ID. */
  lemma SystemReferenceConverted(env: Env, table: string, column: string, foreign: string, s: Session, refs: seq<ForeignRef>)
    requires SystemKeysTrack(env, s) && DistinctKeys(foreign, Rows(env.source, foreign))
    requires forall ref :: ref in refs ==> Witnessed(env.source, foreign, ref)
    ensures var r := ScanSpec(env, table, column, foreign, s, refs);
      forall ref :: ref in refs && ref.client <= 0 && ref.id > MAX_OFFICIAL_ID ==>
        && (LocalIdByUuid(env.local, foreign, ref.uuid) >= 0 ==>
              && SystemKey(foreign, ref.id) in r.systemKeys
              && Entry(env.run, Upper(foreign), ref.id, LocalIdByUuid(env.local, foreign, ref.uuid)) in r.conversions)
        && (LocalIdByUuid(env.local, foreign, ref.uuid) < 0 ==>
              && NotConvertibleMessage(table, column, foreign, ref.uuid) in r.errors
              && forall e :: e in r.conversions ==> Upper(e.tableName) != Upper(foreign) || e.sourceId != ref.id)
  {
    ScanKeeps(env, table, column, foreign, s, refs);
    var r := ScanSpec(env, table, column, foreign, s, refs);
    forall ref | ref in refs && ref.client <= 0 && ref.id > MAX_OFFICIAL_ID
      ensures LocalIdByUuid(env.local, foreign, ref.uuid) >= 0 ==>
        SystemKey(foreign, ref.id) in r.systemKeys
        && Entry(env.run, Upper(foreign), ref.id, LocalIdByUuid(env.local, foreign, ref.uuid)) in r.conversions
      ensures LocalIdByUuid(env.local, foreign, ref.uuid) < 0 ==>
        NotConvertibleMessage(table, column, foreign, ref.uuid) in r.errors
        && forall e :: e in r.conversions ==> Upper(e.tableName) != Upper(foreign) || e.sourceId != ref.id
    {
      SystemReferenceSplit(env, table, column, foreign, s, refs, ref);
      if LocalIdByUuid(env.local, foreign, ref.uuid) >= 0 {
        var i :| 0 <= i < |r.systemKeys| && r.systemKeys[i] == SystemKey(foreign, ref.id);
        SystemEntryOfRef(env, foreign, ref, r.conversions[i]);
      } else {
        forall e | e in r.conversions ensures Upper(e.tableName) != Upper(foreign) || e.sourceId != ref.id {
          var i :| 0 <= i < |r.conversions| && r.conversions[i] == e;
          SystemEntryOfRef(env, foreign, ref, e);
        }
      }
    }
  }


  // ---------------------------------------------------------------------
  // One column

  /** A column missing locally adds an error and nothing else; a column
      present locally gets its type and length errors and is verified as
      TABLE.COLUMN, whatever the checks found. */
  lemma ColumnOutcome(env: Env, s: Session, table: string, col: SourceColumn)
    requires SystemKeysTrack(env, s)
    ensures var r := ValidateColumnSpec(env, s, table, col);
      && SystemKeysTrack(env, r) && Extends(s, r) && r.tablesVerified == s.tablesVerified
      && (LocalColumnOf(env.local, table, col.name).None? ==>
            r == s.(errors := s.errors + [MissingColumnMessage(table, col.name)]))
      && (LocalColumnOf(env.local, table, col.name).Some? ==>
            var lc := LocalColumnOf(env.local, table, col.name).value;
            && r.columnsVerified == s.columnsVerified + [ColumnKey(table, col.name)]
            && s.errors + DictionaryErrors(table, col.name, col.referenceId, col.fieldLength, lc) <= r.errors
            && (ForeignTableOf(lc, table).None? ==>
                  r.errors == s.errors + DictionaryErrors(table, col.name, col.referenceId, col.fieldLength, lc)
                  && r.conversions == s.conversions))
  {
    var found := LocalColumnOf(env.local, table, col.name);
    var r := ValidateColumnSpec(env, s, table, col);
    if found.None? {
      TrackSameKeys(env, s, r);
    } else {
      var lc := found.value;
      var checked := s.(errors := s.errors + DictionaryErrors(table, col.name, col.referenceId, col.fieldLength, lc));
      TrackSameKeys(env, s, checked);
      match ForeignTableOf(lc, table)
      case None =>
        assert r == checked.(columnsVerified := checked.columnsVerified + [ColumnKey(table, col.name)]);
        TrackSameKeys(env, checked, r);
      case Some(foreign) =>
        var refs := ForeignScan(env.source, env.clients, table, col.name, foreign);
        forall ref | ref in refs ensures Witnessed(env.source, foreign, ref) {
          ForeignScanMeaning(env.source, env.clients, table, col.name, foreign, ref);
        }
        ScanKeeps(env, table, col.name, foreign, checked, refs);
        var scanned := ScanSpec(env, table, col.name, foreign, checked, refs);
        assert r == scanned.(columnsVerified := scanned.columnsVerified + [ColumnKey(table, col.name)]);
        TrackSameKeys(env, scanned, r);
    }
  }

  /** SystemKeysTrack depends on the system keys and the conversions only. */
  lemma TrackSameKeys(env: Env, s: Session, r: Session)
    requires SystemKeysTrack(env, s) && r.systemKeys == s.systemKeys && r.conversions == s.conversions
    ensures SystemKeysTrack(env, r)
  {
  }

  // ---------------------------------------------------------------------
  // One table

  /** The columns a table's column loop verifies: AD_Client_ID always, any
      other one when it exists locally. */
  predicate Verifies(env: Env, table: string, col: SourceColumn) {
    EqualsIgnoreCase(col.name, "AD_Client_ID") || LocalColumnOf(env.local, table, col.name).Some?
  }

  lemma ColumnStepKeeps(env: Env, table: string, s: Session, col: SourceColumn)
    requires SystemKeysTrack(env, s)
    ensures var r := ColumnStep(env, table, s, col);
      && SystemKeysTrack(env, r) && Extends(s, r) && r.tablesVerified == s.tablesVerified
      && r.columnsVerified == s.columnsVerified + (if Verifies(env, table, col) then [ColumnKey(table, col.name)] else [])
  {
    if !EqualsIgnoreCase(col.name, "AD_Client_ID") {
      ColumnOutcome(env, s, table, col);
    }
  }

  /** After the column loop, a TABLE.COLUMN key is verified exactly when it
      was before or some column of the loop with that key verifies. */
  lemma {:induction false} ColumnsVerifiedExactly(env: Env, table: string, s: Session, cols: seq<SourceColumn>, key: string)
    requires SystemKeysTrack(env, s)
    ensures var r := ColumnsSpec(env, table, s, cols);
      && SystemKeysTrack(env, r) && Extends(s, r) && r.tablesVerified == s.tablesVerified
      && (key in r.columnsVerified <==>
            key in s.columnsVerified || exists c :: c in cols && key == ColumnKey(table, c.name) && Verifies(env, table, c))
  {
    if cols != [] {
      var init := cols[..|cols| - 1];
      var last := cols[|cols| - 1];
      ColumnsVerifiedExactly(env, table, s, init, key);
      var mid := ColumnsSpec(env, table, s, init);
      ColumnStepKeeps(env, table, mid, last);
      ExtendsTransitive(s, mid, ColumnsSpec(env, table, s, cols));
      assert forall c :: c in cols <==> c in init || c == last;
    }
  }

  /** The four ways validateExternalTable ends. */
  lemma TableOutcome(env: Env, s: Session, table: string)
    requires SystemKeysTrack(env, s)
    ensures var r := ValidateTableSpec(env, s, table);
      && (!HasClientData(env, table) ==> r == Success(s))
      && (HasClientData(env, table) && EqualsIgnoreCase("AD_Attribute_Value", table) ==>
            r == Failure(UnsupportedTableMessage(table)))
      && (HasClientData(env, table) && !EqualsIgnoreCase("AD_Attribute_Value", table) && LocalTableOf(env.local, table).None? ==>
            r == Success(s.(errors := s.errors + [MissingTableMessage(table)])))
      && (HasClientData(env, table) && !EqualsIgnoreCase("AD_Attribute_Value", table) && LocalTableOf(env.local, table).Some? ==>
            && r.Success? && r.value.tablesVerified == s.tablesVerified + [Upper(table)]
            && (forall c :: c in SourceColumnsOf(env.source, table) && Verifies(env, table, c) ==>
                  ColumnKey(table, c.name) in r.value.columnsVerified)
            && ((exists c :: c in SourceColumnsOf(env.source, table) && EqualsIgnoreCase(c.name, "AD_Client_ID")) ==>
                  ColumnKey(table, "AD_Client_ID") in r.value.columnsVerified))
      && (r.Success? ==> SystemKeysTrack(env, r.value) && Extends(s, r.value))
  {
    UpperOfSuffixes();
    assert Upper("AD_Client") != Upper("AD_Attribute_Value") by {
      assert |Upper("AD_Client")| != |Upper("AD_Attribute_Value")|;
    }
    if HasClientData(env, table) && !EqualsIgnoreCase("AD_Attribute_Value", table) && LocalTableOf(env.local, table).Some? {
      var cols := SourceColumnsOf(env.source, table);
      var r := ColumnsSpec(env, table, s, cols);
      forall c | c in cols && Verifies(env, table, c) ensures ColumnKey(table, c.name) in r.columnsVerified {
        ColumnsVerifiedExactly(env, table, s, cols, ColumnKey(table, c.name));
      }
      if exists c :: c in cols && EqualsIgnoreCase(c.name, "AD_Client_ID") {
        var c :| c in cols && EqualsIgnoreCase(c.name, "AD_Client_ID");
        assert ColumnKey(table, c.name) == ColumnKey(table, "AD_Client_ID");
        ColumnsVerifiedExactly(env, table, s, cols, ColumnKey(table, c.name));
      }
      ColumnsVerifiedExactly(env, table, s, cols, "");
    }
  }

  /** A table is verified exactly when it was already or it is one of the
      listed tables that has client data and exists locally. */
  lemma {:induction false} TablesVerifiedExactly(env: Env, s: Session, names: seq<string>, name: string)
    requires SystemKeysTrack(env, s)
    requires TablesSpec(env, s, names).Success?
    ensures var r := TablesSpec(env, s, names).value;
      && SystemKeysTrack(env, r) && Extends(s, r)
      && (name in r.tablesVerified <==>
            name in s.tablesVerified
            || exists n :: n in names && name == Upper(n) && HasClientData(env, n) && LocalTableOf(env.local, n).Some?)
  {
    if names != [] {
      var init := names[..|names| - 1];
      var last := names[|names| - 1];
      assert TablesSpec(env, s, init).Success?;
      TablesVerifiedExactly(env, s, init, name);
      var mid := TablesSpec(env, s, init).value;
      TableOutcome(env, mid, last);
      ExtendsTransitive(s, mid, TablesSpec(env, s, names).value);
      assert forall n :: n in names <==> n in init || n == last;
    }
  }

  /** A successful validation keeps the invariant and writes no rows. */
  lemma ValidateKeeps(env: Env, s: Session)
    requires SystemKeysTrack(env, s)
    requires ValidateSpec(env, s).Success?
    ensures SystemKeysTrack(env, ValidateSpec(env, s).value) && Extends(s, ValidateSpec(env, s).value)
  {
    TablesVerifiedExactly(env, s, SourceTableNames(env.source.tables, env.tables), "");
  }

  // ---------------------------------------------------------------------
  // Verified columns come from the external dictionary

  /** Every verified TABLE.COLUMN key is the key of a column the external
      dictionary lists. */
  ghost predicate ColumnsDeclared(env: Env, s: Session) {
    forall k :: k in s.columnsVerified ==>
      exists n, c :: c in SourceColumnsOf(env.source, n) && k == ColumnKey(n, c.name)
  }

  lemma TableKeepsDeclared(env: Env, s: Session, table: string)
    requires SystemKeysTrack(env, s) && ColumnsDeclared(env, s)
    ensures ValidateTableSpec(env, s, table).Success? ==> ColumnsDeclared(env, ValidateTableSpec(env, s, table).value)
  {
    if HasClientData(env, table) && LocalTableOf(env.local, table).Some? {
      var cols := SourceColumnsOf(env.source, table);
      var r := ColumnsSpec(env, table, s, cols);
      forall k | k in r.columnsVerified
        ensures exists n, c :: c in SourceColumnsOf(env.source, n) && k == ColumnKey(n, c.name)
      {
        ColumnsVerifiedExactly(env, table, s, cols, k);
        if k !in s.columnsVerified {
          var c :| c in cols && k == ColumnKey(table, c.name) && Verifies(env, table, c);
          assert c in SourceColumnsOf(env.source, table);
        }
      }
    }
  }

  lemma {:induction false} TablesKeepDeclared(env: Env, s: Session, names: seq<string>)
    requires SystemKeysTrack(env, s) && ColumnsDeclared(env, s)
    ensures TablesSpec(env, s, names).Success? ==> ColumnsDeclared(env, TablesSpec(env, s, names).value)
  {
    if names != [] {
      var init := names[..|names| - 1];
      TablesKeepDeclared(env, s, init);
      if TablesSpec(env, s, init).Success? {
        TablesVerifiedExactly(env, s, init, "");
        TableKeepsDeclared(env, TablesSpec(env, s, init).value, names[|names| - 1]);
      }
    }
  }

  /** A successful validation verifies only columns of the external
      dictionary. */
  lemma ValidateKeepsDeclared(env: Env, s: Session)
    requires SystemKeysTrack(env, s) && ColumnsDeclared(env, s)
    ensures ValidateSpec(env, s).Success? ==> ColumnsDeclared(env, ValidateSpec(env, s).value)
  {
    TablesKeepDeclared(env, s, SourceTableNames(env.source.tables, env.tables));
  }

  /** The three blocking checks come first, in this order. */
  lemma ValidateBlocks(env: Env, s: Session)
    ensures ClientCount(env.source, env.clients) == 0 ==> ValidateSpec(env, s) == Failure(NO_CLIENTS_MESSAGE)
    ensures ClientCount(env.source, env.clients) > 0 && AttachmentsBlock(env) ==> ValidateSpec(env, s) == Failure(ATTACHMENTS_MESSAGE)
    ensures ClientCount(env.source, env.clients) > 0 && !AttachmentsBlock(env) && ArchivesBlock(env) ==>
      ValidateSpec(env, s) == Failure(ARCHIVES_MESSAGE)
  {
  }
}
