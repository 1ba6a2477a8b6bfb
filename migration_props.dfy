/**
 * What the migration guarantees: one fresh target per source key, only
 * verified tables and columns written, every in-scope row written in
 * order, and no reserved-range ID written unless it was converted.
 */
module MigrationProps {
  import opened Wrappers
  import opened Text
  import opened Filters
  import opened Catalog
  import opened Validation
  import opened Migration
  import opened ValidationProps

  // ---------------------------------------------------------------------
  // The conversion table

  /** Each source key of the table gets the next fresh target, in order,
      under the upper-cased table name; nothing else changes. */
  lemma {:induction false} AllocateIdsExact(env: Env, s: Session, table: string, ids: seq<int>)
    ensures var r := AllocateIds(env, s, table, ids);
      && |r.conversions| == |s.conversions| + |ids|
      && r.conversions[..|s.conversions|] == s.conversions
      && (forall k :: 0 <= k < |ids| ==>
            r.conversions[|s.conversions| + k] == Entry(env.run, Upper(table), ids[k], s.nextKey + k))
      && r.nextKey == s.nextKey + |ids|
      && r.(conversions := s.conversions, nextKey := s.nextKey) == s
  {
    if ids != [] {
      var init := ids[..|ids| - 1];
      AllocateIdsExact(env, s, table, init);
      var before := AllocateIds(env, s, table, init);
      var r := AllocateIds(env, s, table, ids);
      assert r.conversions == before.conversions + [Entry(env.run, Upper(table), ids[|ids| - 1], before.nextKey)];
      forall k | 0 <= k < |ids|
        ensures r.conversions[|s.conversions| + k] == Entry(env.run, Upper(table), ids[k], s.nextKey + k)
      {
        if k < |init| {
          assert r.conversions[|s.conversions| + k] == before.conversions[|s.conversions| + k];
        }
      }
    }
  }

  /** The allocated targets are pairwise different and none is below the
      allocator's position before the build. */
  lemma AllocateIdsFresh(env: Env, s: Session, table: string, ids: seq<int>)
    ensures var r := AllocateIds(env, s, table, ids);
      forall i, j :: |s.conversions| <= i < j < |r.conversions| ==>
        s.nextKey <= r.conversions[i].targetId < r.conversions[j].targetId < r.nextKey
  {
    AllocateIdsExact(env, s, table, ids);
    var r := AllocateIds(env, s, table, ids);
    forall i, j | |s.conversions| <= i < j < |r.conversions|
      ensures s.nextKey <= r.conversions[i].targetId < r.conversions[j].targetId < r.nextKey
    {
      assert r.conversions[|s.conversions| + (i - |s.conversions|)] == r.conversions[i];
      assert r.conversions[|s.conversions| + (j - |s.conversions|)] == r.conversions[j];
    }
  }

  /** The entries allocated for one table, under its upper-cased name, for
      its source keys, with targets taken from the allocator in between. */
  lemma AllocatedRange(env: Env, s: Session, table: string)
    ensures var ids := SourceIds(env, table);
      var r := AllocateIds(env, s, table, ids);
      && s.conversions <= r.conversions && r.nextKey >= s.nextKey
      && r.(conversions := s.conversions, nextKey := s.nextKey) == s
      && forall i :: |s.conversions| <= i < |r.conversions| ==>
           var e := r.conversions[i];
           e.run == env.run && s.nextKey <= e.targetId < r.nextKey && e.tableName == Upper(table) && e.sourceId in ids
  {
    var ids := SourceIds(env, table);
    AllocateIdsExact(env, s, table, ids);
    var r := AllocateIds(env, s, table, ids);
    var n0 := |s.conversions|;
    forall i | n0 <= i < |r.conversions|
      ensures var e := r.conversions[i];
        e.run == env.run && s.nextKey <= e.targetId < r.nextKey && e.tableName == Upper(table) && e.sourceId in ids
    {
      var k := i - n0;
      assert r.conversions[i] == r.conversions[n0 + k] == Entry(env.run, Upper(table), ids[k], s.nextKey + k);
    }
  }

  /** The build only appends entries, each for a source key of a listed
      table whose own key column is verified, under its upper-cased name. */
  lemma {:induction false} BuildEntriesMeaning(env: Env, s: Session, tables: seq<LocalTable>)
    ensures var r := BuildSpec(env, s, tables);
      && s.conversions <= r.conversions && r.nextKey >= s.nextKey
      && r.(conversions := s.conversions, nextKey := s.nextKey) == s
      && forall i :: |s.conversions| <= i < |r.conversions| ==>
           var e := r.conversions[i];
           && e.run == env.run && s.nextKey <= e.targetId < r.nextKey
           && exists t :: t in tables && ConvertsIds(s, t.name) && e.tableName == Upper(t.name)
                && e.sourceId in SourceIds(env, t.name)
  {
    if tables != [] {
      var init := tables[..|tables| - 1];
      var last := tables[|tables| - 1];
      BuildEntriesMeaning(env, s, init);
      var before := BuildSpec(env, s, init);
      var r := BuildSpec(env, s, tables);
      if ConvertsIds(before, last.name) {
        AllocatedRange(env, before, last.name);
        assert r == AllocateIds(env, before, last.name, SourceIds(env, last.name));
        forall i | |s.conversions| <= i < |r.conversions|
          ensures var e := r.conversions[i];
            && e.run == env.run && s.nextKey <= e.targetId < r.nextKey
            && exists t :: t in tables && ConvertsIds(s, t.name) && e.tableName == Upper(t.name)
                 && e.sourceId in SourceIds(env, t.name)
        {
          if i < |before.conversions| {
            assert r.conversions[i] == before.conversions[i];
            var t :| t in init && ConvertsIds(s, t.name) && before.conversions[i].tableName == Upper(t.name)
              && before.conversions[i].sourceId in SourceIds(env, t.name);
            assert t in tables;
          } else {
            assert last in tables;
          }
        }
      }
    }
  }

  // ---------------------------------------------------------------------
  // The conversions form a function

  predicate UniqueKeys(c: seq<Entry>) {
    forall i, j :: 0 <= i < j < |c| ==> c[i].tableName != c[j].tableName || c[i].sourceId != c[j].sourceId
  }

  /** With one entry per (table, source key), the lookup of moveClient finds
      exactly the target of that entry. */
  lemma LookupFindsEntry(c: seq<Entry>, e: Entry)
    requires UniqueKeys(c) && e in c
    ensures Lookup(c, e.run, e.tableName, e.sourceId) == e.targetId
  {
    var t := Lookup(c, e.run, e.tableName, e.sourceId);
    assert Entry(e.run, e.tableName, e.sourceId, t) in c;
    var i :| 0 <= i < |c| && c[i] == e;
    var j :| 0 <= j < |c| && c[j] == Entry(e.run, e.tableName, e.sourceId, t);
    assert i == j;
  }

  /** The external dictionary lists a column whose TABLE.COLUMN key is
      T.T_ID: for table names without a dot, table T lists its own T_ID. */
  ghost predicate KeyDeclared(db: SourceDb, table: string) {
    exists n, c :: c in SourceColumnsOf(db, n) && ColumnKey(n, c.name) == ColumnKey(table, table + "_ID")
  }

  /** Primary keys: no two rows of a table that declares its T_ID column
      share a key. A table without one, such as a link table, may hold
      any number of rows. */
  ghost predicate KeysUnique(db: SourceDb) {
    forall table :: KeyDeclared(db, table) ==> DistinctKeys(table, Rows(db, table))
  }

  /** A table the build converts declares its key column, once every
      verified column is one of the dictionary's. */
  lemma ConvertedKeyDeclared(env: Env, s: Session, table: string)
    requires ColumnsDeclared(env, s) && ConvertsIds(s, table)
    ensures KeyDeclared(env.source, table)
  {
    assert ColumnKey(table, table + "_ID") in s.columnsVerified;
  }

  /** A link table of two rows and no key column of its own: its rows
      share the key that getInt reads (NULL as 0), and the database still
      has primary keys. */
  lemma KeylessTableAllowed()
    ensures var a := map["AD_ROLE_ID" := Num(1000000), "AD_ORG_ID" := Num(1000001)];
      var b := map["AD_ROLE_ID" := Num(1000000), "AD_ORG_ID" := Num(1000002)];
      var cols := [SourceColumn("AD_Role_ID", 19, 10, true, false, None), SourceColumn("AD_Org_ID", 19, 10, true, false, None)];
      var db := SourceDb([SourceTable(422, "AD_Role_OrgAccess", true, false, cols)], map["AD_ROLE_ORGACCESS" := [a, b]], [], []);
      KeysUnique(db) && |Rows(db, "AD_Role_OrgAccess")| == 2 && !DistinctKeys("AD_Role_OrgAccess", Rows(db, "AD_Role_OrgAccess"))
  {
    var a := map["AD_ROLE_ID" := Num(1000000), "AD_ORG_ID" := Num(1000001)];
    var b := map["AD_ROLE_ID" := Num(1000000), "AD_ORG_ID" := Num(1000002)];
    var cols := [SourceColumn("AD_Role_ID", 19, 10, true, false, None), SourceColumn("AD_Org_ID", 19, 10, true, false, None)];
    var db := SourceDb([SourceTable(422, "AD_Role_OrgAccess", true, false, cols)], map["AD_ROLE_ORGACCESS" := [a, b]], [], []);
    forall table | KeyDeclared(db, table) ensures DistinctKeys(table, Rows(db, table)) {
      var n, c :| c in SourceColumnsOf(db, n) && ColumnKey(n, c.name) == ColumnKey(table, table + "_ID");
      SourceColumnOrigin(db, n, c);
      assert |n| == |Upper(n)| == |Upper("AD_Role_OrgAccess")| == 17;
      assert c in cols;
      assert |ColumnKey(n, c.name)| <= 28;
      assert |ColumnKey(table, table + "_ID")| == 2 * |table| + 4;
      assert |Upper(table)| < |"AD_ROLE_ORGACCESS"|;
    }
    assert Upper("AD_Role_OrgAccess") == "AD_ROLE_ORGACCESS";
    assert Upper("AD_Role_OrgAccess" + "_ID") == "AD_ROLE_ORGACCESS_ID";
    assert "AD_ROLE_ORGACCESS_ID" !in a && "AD_ROLE_ORGACCESS_ID" !in b;
    assert Rows(db, "AD_Role_OrgAccess") == [a, b];
    var rows := Rows(db, "AD_Role_OrgAccess");
    assert IntOf(Field(rows[0], "AD_Role_OrgAccess" + "_ID")) == 0 == IntOf(Field(rows[1], "AD_Role_OrgAccess" + "_ID"));
  }

  /** Client IDs are never negative. */
  predicate ClientIdsNonNegative(db: SourceDb) {
    forall key, row :: key in db.data && row in db.data[key] && Field(row, "AD_Client_ID").Num? ==>
      Field(row, "AD_Client_ID").n >= 0
  }

  /** No two tables of the list share a name, ignoring case. */
  predicate NamesDistinct(tables: seq<LocalTable>) {
    forall i, j :: 0 <= i < j < |tables| ==> Upper(tables[i].name) != Upper(tables[j].name)
  }

  lemma {:induction false} InScopeKeysDistinct(db: SourceDb, f: ClientFilter, link: Linkage, table: string, rows: seq<Row>)
    requires DistinctKeys(table, rows)
    ensures DistinctKeys(table, InScopeRows(db, f, link, rows))
  {
    if rows != [] {
      var init := rows[..|rows| - 1];
      var last := rows[|rows| - 1];
      assert DistinctKeys(table, init);
      InScopeKeysDistinct(db, f, link, table, init);
      var d := InScopeRows(db, f, link, init);
      forall x | x in d ensures IntOf(Field(x, table + "_ID")) != IntOf(Field(last, table + "_ID")) {
        var m :| 0 <= m < |init| && init[m] == x;
        assert rows[m] == x;
      }
    }
  }

  /** A system row and a row of a selected client of the same table have
      different keys. */
  lemma SystemAndUserRowsDiffer(db: SourceDb, table: string, fr: Row, r: Row)
    requires DistinctKeys(table, Rows(db, table)) && ClientIdsNonNegative(db)
    requires fr in Rows(db, table) && r in Rows(db, table)
    requires IntOf(Field(fr, "AD_Client_ID")) <= 0
    requires Field(r, "AD_Client_ID").Num? && Field(r, "AD_Client_ID").n != SYSTEM_CLIENT
    ensures IntOf(Field(fr, table + "_ID")) != IntOf(Field(r, table + "_ID"))
  {
    var rows := Rows(db, table);
    assert Upper(table) in db.data;
    assert Field(fr, "AD_Client_ID") != Field(r, "AD_Client_ID");
    var i :| 0 <= i < |rows| && rows[i] == fr;
    var j :| 0 <= j < |rows| && rows[j] == r;
    if i < j {
      assert IntOf(Field(rows[i], table + "_ID")) != IntOf(Field(rows[j], table + "_ID"));
    } else {
      assert IntOf(Field(rows[j], table + "_ID")) != IntOf(Field(rows[i], table + "_ID"));
    }
  }

  /** An entry built for a row of a selected client. */
  predicate UserEntry(env: Env, e: Entry) {
    exists r :: r in Rows(env.source, e.tableName) && IntOf(Field(r, e.tableName + "_ID")) == e.sourceId
      && Field(r, "AD_Client_ID").Num? && Field(r, "AD_Client_ID").n != SYSTEM_CLIENT
  }

  /** The invariant of the build: one entry per (table, key), each a system
      conversion or a key of a table built so far. */
  predicate BuildInvariant(env: Env, built: seq<string>, c: seq<Entry>) {
    UniqueKeys(c) && forall e :: e in c ==> SystemEntry(env, e) || (UserEntry(env, e) && e.tableName in built)
  }

  /** The keys the ID query returns are keys of rows of selected clients. */
  lemma SourceIdsAreUserKeys(env: Env, table: string, k: nat)
    requires SYSTEM_CLIENT in env.clients.excluded && k < |SourceIds(env, table)|
    ensures exists r :: (r in Rows(env.source, table) && IntOf(Field(r, table + "_ID")) == SourceIds(env, table)[k]
      && Field(r, "AD_Client_ID").Num? && Field(r, "AD_Client_ID").n != SYSTEM_CLIENT)
  {
    var rows := InScopeRows(env.source, env.clients, KeyLinkage(table), Rows(env.source, table));
    var r := rows[k];
    assert r in rows;
    assert InScope(env.source, env.clients, KeyLinkage(table), r);
  }

  /** Validation leaves one conversion per key, all of them system ones. */
  lemma TrackedKeysStartBuild(env: Env, s: Session)
    requires SystemKeysTrack(env, s)
    ensures BuildInvariant(env, [], s.conversions)
  {
    var c := s.conversions;
    forall i, j | 0 <= i < j < |c| ensures c[i].tableName != c[j].tableName || c[i].sourceId != c[j].sourceId {
      assert s.systemKeys[i] != s.systemKeys[j];
    }
  }

  /** The keys the ID query returns for a table are pairwise different. */
  lemma SourceIdsDistinct(env: Env, table: string)
    requires DistinctKeys(table, Rows(env.source, table))
    ensures var ids := SourceIds(env, table);
      forall i, j :: 0 <= i < j < |ids| ==> ids[i] != ids[j]
  {
    InScopeKeysDistinct(env.source, env.clients, KeyLinkage(table), table, Rows(env.source, table));
  }

  /** An entry for a key the ID query returns is a user entry. */
  lemma SourceIdEntryIsUserEntry(env: Env, table: string, k: nat, e: Entry)
    requires SYSTEM_CLIENT in env.clients.excluded && k < |SourceIds(env, table)|
    requires e.tableName == Upper(table) && e.sourceId == SourceIds(env, table)[k]
    ensures UserEntry(env, e)
  {
    SourceIdsAreUserKeys(env, table, k);
    var r :| r in Rows(env.source, table) && IntOf(Field(r, table + "_ID")) == SourceIds(env, table)[k]
      && Field(r, "AD_Client_ID").Num? && Field(r, "AD_Client_ID").n != SYSTEM_CLIENT;
    UpperNameReadsTheSame(env.source, env.local, r, table, 0, None);
    assert r in Rows(env.source, e.tableName) && IntOf(Field(r, e.tableName + "_ID")) == e.sourceId;
  }

  /** The entries allocated for a table: one per source key, each for a
      row of a selected client, under the upper-cased name. */
  lemma AllocatedEntries(env: Env, s: Session, table: string)
    requires SYSTEM_CLIENT in env.clients.excluded
    ensures var ids := SourceIds(env, table);
      var c := AllocateIds(env, s, table, ids).conversions;
      && |c| == |s.conversions| + |ids| && c[..|s.conversions|] == s.conversions
      && forall i :: |s.conversions| <= i < |c| ==>
           UserEntry(env, c[i]) && c[i].tableName == Upper(table) && c[i].sourceId == ids[i - |s.conversions|]
  {
    var ids := SourceIds(env, table);
    AllocateIdsExact(env, s, table, ids);
    var c := AllocateIds(env, s, table, ids).conversions;
    var n0 := |s.conversions|;
    forall i | n0 <= i < |c|
      ensures UserEntry(env, c[i]) && c[i].tableName == Upper(table) && c[i].sourceId == ids[i - n0]
    {
      var k := i - n0;
      assert c[i] == c[n0 + k] == Entry(env.run, Upper(table), ids[k], s.nextKey + k);
      SourceIdEntryIsUserEntry(env, table, k, c[i]);
    }
  }

  /** No system conversion of a table has the key of a row the ID query
      returns for it. */
  lemma SystemEntryIsNotSourceId(env: Env, e: Entry, table: string, k: nat)
    requires DistinctKeys(table, Rows(env.source, table)) && ClientIdsNonNegative(env.source) && SYSTEM_CLIENT in env.clients.excluded
    requires SystemEntry(env, e) && e.tableName == Upper(table) && k < |SourceIds(env, table)|
    ensures e.sourceId != SourceIds(env, table)[k]
  {
    var fr :| fr in Rows(env.source, e.tableName) && IntOf(Field(fr, e.tableName + "_ID")) == e.sourceId
      && IntOf(Field(fr, "AD_Client_ID")) <= 0
      && e.targetId == LocalIdByUuid(env.local, e.tableName, StringOf(Field(fr, e.tableName + "_UU")));
    SourceIdsAreUserKeys(env, table, k);
    var r :| r in Rows(env.source, table) && IntOf(Field(r, table + "_ID")) == SourceIds(env, table)[k]
      && Field(r, "AD_Client_ID").Num? && Field(r, "AD_Client_ID").n != SYSTEM_CLIENT;
    UpperNameReadsTheSame(env.source, env.local, fr, table, 0, None);
    SystemAndUserRowsDiffer(env.source, table, fr, r);
  }

  /** After the allocation for a table not built before, every entry is a
      system conversion or a key of a table built so far. */
  lemma AllocateKeepsOrigins(env: Env, s: Session, table: string, built: seq<string>)
    requires SYSTEM_CLIENT in env.clients.excluded
    requires BuildInvariant(env, built, s.conversions)
    ensures var c := AllocateIds(env, s, table, SourceIds(env, table)).conversions;
      forall e :: e in c ==> SystemEntry(env, e) || (UserEntry(env, e) && e.tableName in built + [Upper(table)])
  {
    AllocatedEntries(env, s, table);
    var c := AllocateIds(env, s, table, SourceIds(env, table)).conversions;
    var n0 := |s.conversions|;
    forall e | e in c ensures SystemEntry(env, e) || (UserEntry(env, e) && e.tableName in built + [Upper(table)]) {
      var i :| 0 <= i < |c| && c[i] == e;
      if i < n0 {
        assert c[i] == s.conversions[i];
      }
    }
  }

  /** The entries allocated for one table share no source key. */
  lemma AddedKeysDistinct(env: Env, s: Session, table: string)
    requires DistinctKeys(table, Rows(env.source, table))
    ensures var c := AllocateIds(env, s, table, SourceIds(env, table)).conversions;
      forall i, j :: |s.conversions| <= i < j < |c| ==> c[i].sourceId != c[j].sourceId
  {
    var ids := SourceIds(env, table);
    SourceIdsDistinct(env, table);
    AllocateIdsExact(env, s, table, ids);
    var c := AllocateIds(env, s, table, ids).conversions;
    var n0 := |s.conversions|;
    forall i, j | n0 <= i < j < |c| ensures c[i].sourceId != c[j].sourceId {
      var k, l := i - n0, j - n0;
      assert c[n0 + k].sourceId == ids[k] && c[n0 + l].sourceId == ids[l];
    }
  }

  /** The entries kept from before differ from those allocated for a table
      not built before. */
  lemma KeptDifferFromAdded(env: Env, s: Session, table: string, built: seq<string>)
    requires DistinctKeys(table, Rows(env.source, table)) && ClientIdsNonNegative(env.source) && SYSTEM_CLIENT in env.clients.excluded
    requires BuildInvariant(env, built, s.conversions) && Upper(table) !in built
    ensures var c := AllocateIds(env, s, table, SourceIds(env, table)).conversions;
      forall x, i :: x in s.conversions && |s.conversions| <= i < |c| ==>
        x.tableName != c[i].tableName || x.sourceId != c[i].sourceId
  {
    var c := AllocateIds(env, s, table, SourceIds(env, table)).conversions;
    forall x, i | x in s.conversions && |s.conversions| <= i < |c| ensures x.tableName != c[i].tableName || x.sourceId != c[i].sourceId {
      KeptDiffersFromAddedAt(env, s, table, built, x, i);
    }
  }

  /** One kept entry against one allocated entry. */
  lemma KeptDiffersFromAddedAt(env: Env, s: Session, table: string, built: seq<string>, x: Entry, i: int)
    requires DistinctKeys(table, Rows(env.source, table)) && ClientIdsNonNegative(env.source) && SYSTEM_CLIENT in env.clients.excluded
    requires BuildInvariant(env, built, s.conversions) && Upper(table) !in built && x in s.conversions
    requires |s.conversions| <= i < |AllocateIds(env, s, table, SourceIds(env, table)).conversions|
    ensures var c := AllocateIds(env, s, table, SourceIds(env, table)).conversions;
      x.tableName != c[i].tableName || x.sourceId != c[i].sourceId
  {
    var ids := SourceIds(env, table);
    AllocateIdsExact(env, s, table, ids);
    var c := AllocateIds(env, s, table, ids).conversions;
    var k := i - |s.conversions|;
    assert c[|s.conversions| + k] == Entry(env.run, Upper(table), ids[k], s.nextKey + k);
    OldEntryIsNotAllocated(env, x, table, built, k, c[i]);
  }

  /** After the allocation for a table not built before, no two entries
      share a (table, key). */
  lemma AllocateKeepsUnique(env: Env, s: Session, table: string, built: seq<string>)
    requires DistinctKeys(table, Rows(env.source, table)) && ClientIdsNonNegative(env.source) && SYSTEM_CLIENT in env.clients.excluded
    requires BuildInvariant(env, built, s.conversions) && Upper(table) !in built
    ensures UniqueKeys(AllocateIds(env, s, table, SourceIds(env, table)).conversions)
  {
    AllocateIdsExact(env, s, table, SourceIds(env, table));
    AddedKeysDistinct(env, s, table);
    KeptDifferFromAdded(env, s, table, built);
    var c := AllocateIds(env, s, table, SourceIds(env, table)).conversions;
    var n0 := |s.conversions|;
    forall i, j | 0 <= i < j < |c| ensures c[i].tableName != c[j].tableName || c[i].sourceId != c[j].sourceId {
      if j < n0 {
        assert c[i] == s.conversions[i] && c[j] == s.conversions[j];
      } else if i < n0 {
        assert c[i] == s.conversions[i] && c[i] in s.conversions;
      }
    }
  }

  /** An entry kept from before differs from an entry allocated for a
      table not built before. */
  lemma OldEntryIsNotAllocated(env: Env, e: Entry, table: string, built: seq<string>, k: nat, f: Entry)
    requires DistinctKeys(table, Rows(env.source, table)) && ClientIdsNonNegative(env.source) && SYSTEM_CLIENT in env.clients.excluded
    requires SystemEntry(env, e) || (UserEntry(env, e) && e.tableName in built)
    requires Upper(table) !in built && k < |SourceIds(env, table)|
    requires f.tableName == Upper(table) && f.sourceId == SourceIds(env, table)[k]
    ensures e.tableName != f.tableName || e.sourceId != f.sourceId
  {
    if e.tableName == Upper(table) {
      SystemEntryIsNotSourceId(env, e, table, k);
    }
  }

  /** Allocating the keys of a table not built before keeps the invariant. */
  lemma AllocateKeepsInvariant(env: Env, s: Session, table: string, built: seq<string>)
    requires DistinctKeys(table, Rows(env.source, table)) && ClientIdsNonNegative(env.source) && SYSTEM_CLIENT in env.clients.excluded
    requires BuildInvariant(env, built, s.conversions) && Upper(table) !in built
    ensures BuildInvariant(env, built + [Upper(table)], AllocateIds(env, s, table, SourceIds(env, table)).conversions)
  {
    AllocateKeepsOrigins(env, s, table, built);
    AllocateKeepsUnique(env, s, table, built);
  }

  function UpperNames(tables: seq<LocalTable>): (r: seq<string>)
    ensures |r| == |tables| && forall i :: 0 <= i < |tables| ==> r[i] == Upper(tables[i].name)
  {
    seq(|tables|, i requires 0 <= i < |tables| => Upper(tables[i].name))
  }

  lemma {:induction false} BuildKeepsInvariant(env: Env, s: Session, tables: seq<LocalTable>)
    requires KeysUnique(env.source) && ClientIdsNonNegative(env.source) && SYSTEM_CLIENT in env.clients.excluded
    requires NamesDistinct(tables) && BuildInvariant(env, [], s.conversions) && ColumnsDeclared(env, s)
    ensures BuildInvariant(env, UpperNames(tables), BuildSpec(env, s, tables).conversions)
  {
    if tables != [] {
      var init := tables[..|tables| - 1];
      var last := tables[|tables| - 1];
      assert NamesDistinct(init);
      BuildKeepsInvariant(env, s, init);
      var before := BuildSpec(env, s, init);
      assert UpperNames(tables) == UpperNames(init) + [Upper(last.name)];
      assert Upper(last.name) !in UpperNames(init);
      if ConvertsIds(before, last.name) {
        BuildEntriesMeaning(env, s, init);
        ConvertedKeyDeclared(env, s, last.name);
        assert DistinctKeys(last.name, Rows(env.source, last.name));
        AllocateKeepsInvariant(env, before, last.name, UpperNames(init));
      }
    }
  }

  lemma {:induction false} MigrationTablesDistinct(tables: seq<LocalTable>, tf: TableFilter)
    requires NamesDistinct(tables)
    ensures NamesDistinct(MigrationTables(tables, tf))
  {
    if tables != [] {
      var init := tables[..|tables| - 1];
      var last := tables[|tables| - 1];
      assert NamesDistinct(init);
      MigrationTablesDistinct(init, tf);
      var m := MigrationTables(init, tf);
      forall t | t in m ensures Upper(t.name) != Upper(last.name) {
        var k :| 0 <= k < |init| && init[k] == t;
        assert tables[k] == t;
      }
    }
  }

  /** Given primary keys in the tables that declare one, non-negative
      client IDs, client 0 excluded, distinct table names and a validated
      state whose verified columns are the dictionary's, the build leaves
      one entry per (table, source key), so the lookup of moveClient
      returns the target of that entry. */
  lemma BuildIsFunctional(env: Env, s: Session, tables: seq<LocalTable>)
    requires KeysUnique(env.source) && ClientIdsNonNegative(env.source) && SYSTEM_CLIENT in env.clients.excluded
    requires NamesDistinct(tables) && SystemKeysTrack(env, s) && ColumnsDeclared(env, s)
    ensures var c := BuildSpec(env, s, tables).conversions;
      UniqueKeys(c) && forall e :: e in c ==> Lookup(c, e.run, e.tableName, e.sourceId) == e.targetId
  {
    TrackedKeysStartBuild(env, s);
    BuildKeepsInvariant(env, s, tables);
    var c := BuildSpec(env, s, tables).conversions;
    forall e | e in c ensures Lookup(c, e.run, e.tableName, e.sourceId) == e.targetId {
      LookupFindsEntry(c, e);
    }
  }

  // ---------------------------------------------------------------------
  // Classification

  /** The first three rules of the chain: the table's own key, the
      C_BPartner.AD_OrgBP_ID button, and the copied list, language and
      entity-type columns. */
  predicate EarlierRule(table: LocalTable, col: LocalColumn) {
    || EqualsIgnoreCase(table.name + "_ID", col.name)
    || (EqualsIgnoreCase("C_BPartner", table.name) && EqualsIgnoreCase("AD_OrgBP_ID", col.name))
    || (col.referenceTable.Some?
        && (EqualsIgnoreCase("AD_Ref_List", col.referenceTable.value)
            || EqualsIgnoreCase("AD_Language", col.name) || EqualsIgnoreCase("EntityType", col.name)))
  }

  /** Record_ID of a table that has an AD_Table_ID column after its first. */
  predicate RecordIdRule(table: LocalTable, col: LocalColumn) {
    EqualsIgnoreCase("Record_ID", col.name) && ColumnIndex(table.columns, "AD_Table_ID") > 0
  }

  /** What the classification chain decides: the table's own key goes
      through the table itself, list, language and entity-type columns are
      copied, every translation names a table, and only Record_ID and
      AD_Preference.Value can fail, when the row lacks the column they read.
      After the first three rules, Record_ID goes through the table the
      row's AD_Table_ID names, AD_Preference.Value through the table its
      Attribute names (copied when that is empty, an exception when the
      Attribute is NULL), and any other column through its reference
      table. */
  lemma ClassifyMeaning(source: SourceDb, table: LocalTable, col: LocalColumn, labels: seq<string>, values: seq<Value>)
    requires |labels| == |values|
    ensures var r := Classify(source, table, col, labels, values);
      && (r.Success? && r.value.Translate? ==> r.value.through != "")
      && (EqualsIgnoreCase(table.name + "_ID", col.name) && table.name != "" ==> r == Success(Translate(table.name)))
      && (EqualsIgnoreCase("C_BPartner", table.name) && EqualsIgnoreCase("AD_OrgBP_ID", col.name)
          ==> r == Success(Translate("AD_Org")))
      && ((!EqualsIgnoreCase(table.name + "_ID", col.name)
           && !(EqualsIgnoreCase("C_BPartner", table.name) && EqualsIgnoreCase("AD_OrgBP_ID", col.name))
           && col.referenceTable.Some?
           && (EqualsIgnoreCase("AD_Ref_List", col.referenceTable.value)
               || EqualsIgnoreCase("AD_Language", col.name) || EqualsIgnoreCase("EntityType", col.name)))
          ==> r == Success(Copy))
      && (r.Failure? ==> EqualsIgnoreCase("Record_ID", col.name) || IsPreferenceValue(table.name, col.name))
      && (r == Failure(QUERY_FAILED) ==>
            !(exists i :: 0 <= i < |labels| && EqualsIgnoreCase(labels[i], "AD_Table_ID"))
            || !(exists i :: 0 <= i < |labels| && EqualsIgnoreCase(labels[i], "Attribute")))
    ensures var r := Classify(source, table, col, labels, values);
      var tableId := ValueByLabel(labels, values, "AD_Table_ID");
      !EarlierRule(table, col) && RecordIdRule(table, col) ==>
        && (tableId.None? ==> r == Failure(QUERY_FAILED))
        && (tableId.Some? ==> r == Success(StrategyOf(ExternalTableName(source.tables, IntOf(tableId.value)))))
    ensures var r := Classify(source, table, col, labels, values);
      var attribute := ValueByLabel(labels, values, "Attribute");
      !EarlierRule(table, col) && !RecordIdRule(table, col) && IsPreferenceValue(table.name, col.name) ==>
        && (attribute.None? ==> r == Failure(QUERY_FAILED))
        && (attribute.Some? && StringOf(attribute.value).None? ==> r == Failure(NULL_ATTRIBUTE))
        && (attribute.Some? && StringOf(attribute.value).Some? ==>
              r == Success(StrategyOf(Some(PreferenceTable(StringOf(attribute.value).value)))))
    ensures !EarlierRule(table, col) && !RecordIdRule(table, col) && !IsPreferenceValue(table.name, col.name) ==>
      Classify(source, table, col, labels, values) == Success(StrategyOf(col.referenceTable))
  {
  }

  // ---------------------------------------------------------------------
  // Row translation

  /** A translated row holds, column by column, the value of that column. */
  lemma {:induction false} TranslateRowValues(env: Env, conversions: seq<Entry>, table: LocalTable, cols: seq<LocalColumn>, values: seq<Value>, k: nat)
    requires |cols| == |values| && k <= |cols|
    requires TranslateRow(env, conversions, table, cols, values, k).Success?
    ensures forall i :: 0 <= i < k ==>
      ColumnValue(env, conversions, table, cols, values, i) == Success(TranslateRow(env, conversions, table, cols, values, k).value[i])
  {
    if k > 0 {
      TranslateRowValues(env, conversions, table, cols, values, k - 1);
    }
  }

  /** What is written for one column of a translated row: the value as read
      when it is copied; NULL as NULL; a key below the threshold as itself;
      a key at or above it only as the target of a conversion entry of the
      table it is translated through. AD_Preference.Value is written as the
      decimal string of the key. */
  lemma WrittenValue(env: Env, conversions: seq<Entry>, table: LocalTable, cols: seq<LocalColumn>, values: seq<Value>, i: nat)
    requires |cols| == |values| && i < |cols|
    requires TranslateRow(env, conversions, table, cols, values, |cols|).Success?
    ensures var written := TranslateRow(env, conversions, table, cols, values, |cols|).value[i];
      var strategy := Classify(env.source, table, cols[i], Names(cols), values);
      && strategy.Success?
      && (strategy.value == Copy ==> written == values[i])
      && (strategy.value.Translate? ==> KeyOf(values[i]).Success?)
      && (strategy.value.Translate? && values[i] == Null ==> written == Null)
      && (var key := KeyOf(values[i]);
          strategy.value.Translate? && key.Success? && key.value.Some? && key.value.value < MAX_OFFICIAL_ID ==>
            written == WriteKey(table.name, cols[i].name, key.value.value))
      && (var key := KeyOf(values[i]);
          strategy.value.Translate? && key.Success? && key.value.Some? && key.value.value >= MAX_OFFICIAL_ID ==>
            exists t :: t >= 0 && Entry(env.run, Upper(strategy.value.through), key.value.value, t) in conversions
              && written == WriteKey(table.name, cols[i].name, t))
  {
    TranslateRowValues(env, conversions, table, cols, values, |cols|);
    var written := TranslateRow(env, conversions, table, cols, values, |cols|).value[i];
    assert ColumnValue(env, conversions, table, cols, values, i) == Success(written);
    var strategy := Classify(env.source, table, cols[i], Names(cols), values);
    assert strategy.Success?;
    assert TranslateValue(conversions, env.run, table.name, cols[i].name, strategy.value, values[i]) == Success(written);
    var key := KeyOf(values[i]);
    if strategy.value.Translate? && key.Success? && key.value.Some? && key.value.value >= MAX_OFFICIAL_ID {
      var t := Lookup(conversions, env.run, Upper(strategy.value.through), key.value.value);
      assert t >= 0;
    }
  }

  /** The decimal string written into AD_Preference.Value reads back, by
      getInt, as the key it was written for. */
  lemma PreferenceValueReadsBack(id: int)
    requires INT_MIN <= id <= INT_MAX
    ensures KeyOf(WriteKey("AD_Preference", "Value", id)) == Success(Some(id))
  {
    assert IsPreferenceValue("AD_Preference", "Value");
    ParseDecimal(id);
  }

  // ---------------------------------------------------------------------
  // The copy

  /** The copy of a table's rows succeeds exactly when every row translates
      and the local database accepts its INSERT, and then changes nothing
      but the inserted rows, adding one per row. */
  lemma {:induction false} CopyRowsSucceeds(env: Env, s: Session, table: LocalTable, cols: seq<LocalColumn>, rows: seq<Row>)
    ensures var r := CopyRows(env, s, table, cols, rows);
      && (r.Success? <==> forall k :: 0 <= k < |rows| ==> RowInsert(env, s.conversions, table, cols, rows[k]).Success?)
      && (r.Success? ==>
            && r.value.(inserted := s.inserted) == s
            && |r.value.inserted| == |s.inserted| + |rows| && r.value.inserted[..|s.inserted|] == s.inserted)
  {
    if rows != [] {
      var init := rows[..|rows| - 1];
      var last := rows[|rows| - 1];
      CopyRowsSucceeds(env, s, table, cols, init);
      assert forall k :: 0 <= k < |init| ==> init[k] == rows[k];
      var before := CopyRows(env, s, table, cols, init);
      if before.Failure? {
        var k0 :| 0 <= k0 < |init| && RowInsert(env, s.conversions, table, cols, init[k0]).Failure?;
        assert rows[k0] == init[k0];
        assert CopyRows(env, s, table, cols, rows) == Failure(before.error);
      } else {
        var b := before.value;
        assert b.conversions == s.conversions;
        var t := RowInsert(env, s.conversions, table, cols, last);
        assert CopyRows(env, s, table, cols, rows)
          == if t.Success? then Success(b.(inserted := b.inserted + [t.value])) else Failure(t.error);
      }
    }
  }

  /** A successful copy inserts, in order, one row per source row: the row
      its INSERT binds. */
  lemma {:induction false} CopyRowsInserted(env: Env, s: Session, table: LocalTable, cols: seq<LocalColumn>, rows: seq<Row>)
    requires CopyRows(env, s, table, cols, rows).Success?
    ensures var r := CopyRows(env, s, table, cols, rows).value;
      && |r.inserted| == |s.inserted| + |rows|
      && (forall k :: 0 <= k < |rows| ==> RowInsert(env, s.conversions, table, cols, rows[k]).Success?)
      && forall k :: 0 <= k < |rows| ==>
        r.inserted[|s.inserted| + k] == RowInsert(env, s.conversions, table, cols, rows[k]).value
  {
    CopyRowsSucceeds(env, s, table, cols, rows);
    if rows != [] {
      var init := rows[..|rows| - 1];
      CopyRowsSucceeds(env, s, table, cols, init);
      CopyRowsInserted(env, s, table, cols, init);
      var r := CopyRows(env, s, table, cols, rows).value;
      var b := CopyRows(env, s, table, cols, init).value;
      assert r.inserted == b.inserted + [RowInsert(env, s.conversions, table, cols, rows[|rows| - 1]).value];
      forall k | 0 <= k < |rows|
        ensures r.inserted[|s.inserted| + k] == RowInsert(env, s.conversions, table, cols, rows[k]).value
      {
        if k < |init| {
          assert r.inserted[|s.inserted| + k] == b.inserted[|s.inserted| + k];
          assert init[k] == rows[k];
        }
      }
    }
  }

  /** The copy of a table's rows succeeds exactly when every row translates
      and no INSERT is refused; it then inserts one row per source row, in
      order, naming the table and the selected columns and binding the
      row's translation; nothing else changes. */
  lemma CopyRowsExact(env: Env, s: Session, table: LocalTable, cols: seq<LocalColumn>, rows: seq<Row>)
    ensures var r := CopyRows(env, s, table, cols, rows);
      && (r.Success? <==> forall k :: 0 <= k < |rows| ==>
            var t := TranslateRow(env, s.conversions, table, cols, Fetch(rows[k], cols), |cols|);
            t.Success? && !Rejects(env.local, InsertedRow(table.name, Names(cols), t.value)))
      && (r.Success? ==>
            && r.value.(inserted := s.inserted) == s
            && |r.value.inserted| == |s.inserted| + |rows| && r.value.inserted[..|s.inserted|] == s.inserted
            && forall k :: 0 <= k < |rows| ==>
                 r.value.inserted[|s.inserted| + k]
                   == InsertedRow(table.name, Names(cols), TranslateRow(env, s.conversions, table, cols, Fetch(rows[k], cols), |cols|).value))
  {
    CopyRowsSucceeds(env, s, table, cols, rows);
    if CopyRows(env, s, table, cols, rows).Success? {
      CopyRowsInserted(env, s, table, cols, rows);
    }
  }

  /** The first row whose INSERT the local database refuses ends the copy
      of the table with executeUpdateEx's exception. */
  lemma RejectedRowStopsCopy(env: Env, s: Session, table: LocalTable, cols: seq<LocalColumn>, rows: seq<Row>, k: nat)
    requires k < |rows| && CopyRows(env, s, table, cols, rows[..k]).Success?
    requires var t := TranslateRow(env, CopyRows(env, s, table, cols, rows[..k]).value.conversions, table, cols, Fetch(rows[k], cols), |cols|);
      t.Success? && Rejects(env.local, InsertedRow(table.name, Names(cols), t.value))
    ensures CopyRows(env, s, table, cols, rows) == Failure(INSERT_FAILED)
  {
    CopyRowsStep(env, s, table, cols, rows, k, CopyRows(env, s, table, cols, rows[..k]).value);
    CopyRowsStopsAtFailure(env, s, table, cols, rows, k + 1);
  }

  /** The copy keeps the dictionary's column order: the columns selected
      from a + b are those selected from a followed by those from b. */
  lemma {:induction false} SelectedColumnsAppend(s: Session, table: string, a: seq<LocalColumn>, b: seq<LocalColumn>)
    ensures SelectedColumns(s, table, a + b) == SelectedColumns(s, table, a) + SelectedColumns(s, table, b)
    decreases |b|
  {
    if b == [] {
      assert a + b == a;
    } else {
      var init, c := b[..|b| - 1], b[|b| - 1];
      var tail := if c.active && !c.virtual && ColumnKey(table, c.name) in s.columnsVerified then [c] else [];
      assert (a + b)[..|a + b| - 1] == a + init;
      assert (a + b)[|a + b| - 1] == c;
      calc {
        SelectedColumns(s, table, a + b);
        SelectedColumns(s, table, a + init) + tail;
        { SelectedColumnsAppend(s, table, a, init); }
        (SelectedColumns(s, table, a) + SelectedColumns(s, table, init)) + tail;
        SelectedColumns(s, table, a) + (SelectedColumns(s, table, init) + tail);
        SelectedColumns(s, table, a) + SelectedColumns(s, table, b);
      }
    }
  }

  /** Every column the copy names is verified. */
  lemma SelectedNamesVerified(s: Session, table: string, columns: seq<LocalColumn>)
    ensures forall c :: c in Names(SelectedColumns(s, table, columns)) ==> ColumnKey(table, c) in s.columnsVerified
  {
    var cols := SelectedColumns(s, table, columns);
    forall c | c in Names(cols) ensures ColumnKey(table, c) in s.columnsVerified {
      var m :| 0 <= m < |cols| && Names(cols)[m] == c;
      assert cols[m] in cols;
    }
  }

  /** The rows a copy adds all name the table and the given columns. */
  lemma CopyRowsNames(env: Env, s: Session, table: LocalTable, cols: seq<LocalColumn>, rows: seq<Row>)
    ensures var r := CopyRows(env, s, table, cols, rows);
      r.Success? ==>
        && r.value.(inserted := s.inserted) == s && s.inserted <= r.value.inserted
        && |r.value.inserted| == |s.inserted| + |rows|
        && forall ir :: ir in r.value.inserted[|s.inserted|..] ==> ir.tableName == table.name && ir.columns == Names(cols)
  {
    CopyRowsExact(env, s, table, cols, rows);
    var r := CopyRows(env, s, table, cols, rows);
    if r.Success? {
      var added := r.value.inserted[|s.inserted|..];
      forall ir | ir in added ensures ir.tableName == table.name && ir.columns == Names(cols) {
        var k :| 0 <= k < |added| && added[k] == ir;
        assert ir == r.value.inserted[|s.inserted| + k];
      }
    }
  }

  /** Only verified tables are copied, only their verified, active, stored
      columns are named, and every row of the table in scope is inserted. */
  lemma CopyTableMeaning(env: Env, s: Session, table: LocalTable)
    ensures var r := CopyTableSpec(env, s, table);
      && (Upper(table.name) !in s.tablesVerified ==> r == Success(s))
      && (r.Success? ==>
            && r.value.(inserted := s.inserted) == s && s.inserted <= r.value.inserted
            && forall ir :: ir in r.value.inserted[|s.inserted|..] ==>
                 && ir.tableName == table.name && Upper(table.name) in s.tablesVerified
                 && forall c :: c in ir.columns ==> ColumnKey(table.name, c) in s.columnsVerified)
      && (Upper(table.name) in s.tablesVerified && r.Success? ==>
            |r.value.inserted| == |s.inserted| + |DataRows(env, table.name)|)
  {
    if Upper(table.name) in s.tablesVerified {
      var cols := SelectedColumns(s, table.name, table.columns);
      CopyRowsNames(env, s, table, cols, DataRows(env, table.name));
      SelectedNamesVerified(s, table.name, table.columns);
    }
  }

  /** The copy of all tables writes only into verified tables and columns
      and changes nothing but the inserted rows. */
  lemma {:induction false} CopyWritesOnlyVerified(env: Env, s: Session, tables: seq<LocalTable>)
    ensures var r := CopySpec(env, s, tables);
      r.Success? ==>
        && r.value.(inserted := s.inserted) == s && s.inserted <= r.value.inserted
        && forall ir :: ir in r.value.inserted[|s.inserted|..] ==>
             && Upper(ir.tableName) in s.tablesVerified
             && (exists t :: t in tables && t.name == ir.tableName)
             && forall c :: c in ir.columns ==> ColumnKey(ir.tableName, c) in s.columnsVerified
  {
    if tables != [] {
      var init := tables[..|tables| - 1];
      var last := tables[|tables| - 1];
      CopyWritesOnlyVerified(env, s, init);
      var before := CopySpec(env, s, init);
      if before.Success? {
        var b := before.value;
        CopyTableMeaning(env, b, last);
        var r := CopySpec(env, s, tables);
        if r.Success? {
          var added := r.value.inserted[|s.inserted|..];
          assert b.inserted[|s.inserted|..] <= added;
          assert added == b.inserted[|s.inserted|..] + r.value.inserted[|b.inserted|..];
          assert forall t :: t in init ==> t in tables;
        }
      }
    }
  }

  // ---------------------------------------------------------------------
  // The two thresholds

  /** Validation treats key MAX_OFFICIAL_ID itself as an official record and
      records no conversion for it, while the migration requires one for
      every key from MAX_OFFICIAL_ID on; such a reference passes validation
      and stops the move as an orphan. */
  lemma ThresholdAsymmetry(env: Env, s: Session, table: string, column: string, foreign: string, uuid: Option<string>)
    requires Lookup(s.conversions, env.run, Upper(foreign), MAX_OFFICIAL_ID) < 0
    ensures RefStep(env, table, column, foreign, s, ForeignRef(SYSTEM_CLIENT, MAX_OFFICIAL_ID, uuid)) == s
    ensures TranslateValue(s.conversions, env.run, table, column, Translate(foreign), Num(MAX_OFFICIAL_ID))
      == Failure(OrphanMessage(table, column, MAX_OFFICIAL_ID))
  {
  }
}
