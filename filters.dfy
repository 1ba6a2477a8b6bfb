/**
 * The two filters that doIt assembles before it connects: the table filter
 * (p_excludeTablesWhere) and the client filter (p_whereClient). The source
 * builds them as SQL text; here each is the predicate that text means.
 */
module Filters {
  import opened Wrappers
  import opened Text

  /** The tokens of a comma-separated parameter; a blank parameter has none. */
  function Tokens(parameter: string): seq<string> {
    if IsBlank(parameter) then [] else Split(parameter)
  }

  // ---------------------------------------------------------------------
  // Tables

  /** UPPER(TableName) NOT LIKE 'T|_%' ESCAPE '|'
      AND UPPER(TableName) NOT IN (excluded...). */
  datatype TableFilter = TableFilter(excluded: seq<string>)

  /** Temporary tables are those whose upper-cased name starts with "T_". */
  predicate IsTemporary(tableName: string) {
    StartsWith(Upper(tableName), "T_")
  }

  /** DB.TO_STRING writes an empty token as NULL, and a NOT IN list that
      holds NULL is true for no table: then the filter admits nothing. */
  predicate HasNullItem(f: TableFilter) {
    "" in f.excluded
  }

  predicate AllowsTable(f: TableFilter, tableName: string) {
    !IsTemporary(tableName) && !HasNullItem(f) && Upper(tableName) !in f.excluded
  }

  /** The filter doIt builds from the parameter: every token, upper-cased. */
  function TableFilterOf(tablesToExclude: string): TableFilter {
    var tokens := Tokens(tablesToExclude);
    TableFilter(seq(|tokens|, i requires 0 <= i < |tokens| => Upper(tokens[i])))
  }

  /** The exclude list holds every token of the parameter, upper-cased,
      in order; so a table passes exactly when it is not temporary, no token
      is empty, and no token names it (ignoring case). */
  method BuildTableFilter(tablesToExclude: string) returns (f: TableFilter)
    ensures f == TableFilterOf(tablesToExclude)
    ensures |f.excluded| == |Tokens(tablesToExclude)|
    ensures forall i :: 0 <= i < |f.excluded| ==> f.excluded[i] == Upper(Tokens(tablesToExclude)[i])
    ensures forall name :: AllowsTable(f, name) <==>
      && !IsTemporary(name) && "" !in Tokens(tablesToExclude)
      && forall t :: t in Tokens(tablesToExclude) ==> !EqualsIgnoreCase(t, name)
  {
    var tokens := Tokens(tablesToExclude);
    var excluded: seq<string> := [];
    var i := 0;
    while i < |tokens|
      invariant 0 <= i <= |tokens|
      invariant |excluded| == i
      invariant forall j :: 0 <= j < i ==> excluded[j] == Upper(tokens[j])
    {
      excluded := excluded + [Upper(tokens[i])];
      i := i + 1;
    }
    f := TableFilter(excluded);
    assert excluded == TableFilterOf(tablesToExclude).excluded;
    assert HasNullItem(f) <==> "" in tokens by {
      if "" in tokens {
        var j :| 0 <= j < |tokens| && tokens[j] == "";
        assert excluded[j] == "";
      }
      if "" in excluded {
        var j :| 0 <= j < |excluded| && excluded[j] == "";
        assert |tokens[j]| == |Upper(tokens[j])| == 0;
        assert tokens[j] in tokens;
      }
    }
    forall name ensures AllowsTable(f, name) <==>
      !IsTemporary(name) && "" !in tokens && forall t :: t in tokens ==> !EqualsIgnoreCase(t, name)
    {
      if Upper(name) in excluded {
        var j :| 0 <= j < |excluded| && excluded[j] == Upper(name);
        assert tokens[j] in tokens && EqualsIgnoreCase(tokens[j], name);
      }
      if exists t :: t in tokens && EqualsIgnoreCase(t, name) {
        var t :| t in tokens && EqualsIgnoreCase(t, name);
        var j :| 0 <= j < |tokens| && tokens[j] == t;
        assert excluded[j] == Upper(name);
      }
    }
  }

  /** An empty token (a doubled or leading comma) puts NULL into the NOT IN
      list, and then no table is validated or moved. */
  lemma EmptyTokenAdmitsNoTable(tablesToExclude: string)
    requires "" in Tokens(tablesToExclude)
    ensures forall name :: !AllowsTable(TableFilterOf(tablesToExclude), name)
  {
    var tokens := Tokens(tablesToExclude);
    var j :| 0 <= j < |tokens| && tokens[j] == "";
    assert TableFilterOf(tablesToExclude).excluded[j] == "";
  }

  /** ",AD_Note" has an empty first token. */
  lemma LeadingCommaAdmitsNoTable()
    ensures forall name :: !AllowsTable(TableFilterOf(",AD_Note"), name)
  {
    var p := ",AD_Note";
    assert p[0] == ',' && p[1..] == "AD_Note";
    assert !IsBlank(p) by { assert !(p[0] <= ' '); }
    var rest := Fields(p[1..]);
    assert Fields(p) == [""] + rest;
    FieldsLastNonEmpty(p[1..]);
    assert Split(p) == Fields(p);
    assert Tokens(p)[0] == "";
    EmptyTokenAdmitsNoTable(p);
  }

  /** The attachment and archive checks look for the quoted upper-case name
      in the filter text, that is, for a token equal to it ignoring case. */
  predicate ExcludesByName(f: TableFilter, upperName: string) {
    upperName in f.excluded
  }

  // ---------------------------------------------------------------------
  // Clients

  const SYSTEM_CLIENT: int := 0
  const GARDEN_ADMIN_CLIENT: int := 11

  /** AD_Client_ID NOT IN (excluded...) [AND AD_Client_ID IN (included...)]. */
  datatype ClientFilter = ClientFilter(excluded: seq<int>, included: Option<seq<int>>)

  predicate Selects(f: ClientFilter, client: int) {
    client !in f.excluded && (f.included.Some? ==> client in f.included.value)
  }

  function FormatError(list: string, token: string): string {
    "Error in parameter Clients to " + list
      + ", must be a list of integer separated by commas, wrong format: " + token
  }

  /** Integer.parseInt on each token in turn; the first token it rejects
      ends the run with a message naming it. */
  function ParseClients(tokens: seq<string>, list: string): Result<seq<int>> {
    if tokens == [] then Success([])
    else
      var init :- ParseClients(tokens[..|tokens| - 1], list);
      match ParseInt(tokens[|tokens| - 1])
      case None => Failure(FormatError(list, tokens[|tokens| - 1]))
      case Some(n) => Success(init + [n])
  }

  /** The client filter of doIt: 0 and 11 first, then the parsed exclude
      tokens; the parsed include tokens when that parameter is not blank. */
  function ClientFilterOf(clientsToInclude: string, clientsToExclude: string): Result<ClientFilter> {
    var excluded :- ParseClients(Tokens(clientsToExclude), "Exclude");
    if IsBlank(clientsToInclude) then
      Success(ClientFilter([SYSTEM_CLIENT, GARDEN_ADMIN_CLIENT] + excluded, None))
    else
      var included :- ParseClients(Tokens(clientsToInclude), "Include");
      Success(ClientFilter([SYSTEM_CLIENT, GARDEN_ADMIN_CLIENT] + excluded, Some(included)))
  }

  lemma {:induction false} ParseClientsStopsAtFailure(tokens: seq<string>, list: string, k: nat)
    requires k <= |tokens| && ParseClients(tokens[..k], list).Failure?
    ensures ParseClients(tokens, list) == ParseClients(tokens[..k], list)
    decreases |tokens| - k
  {
    if k < |tokens| {
      assert tokens[..k + 1][..k] == tokens[..k];
      ParseClientsStopsAtFailure(tokens, list, k + 1);
    } else {
      assert tokens[..k] == tokens;
    }
  }

  /** Loops over the tokens of one list, as doIt does for each parameter. */
  method ParseClientList(tokens: seq<string>, list: string) returns (r: Result<seq<int>>)
    ensures r == ParseClients(tokens, list)
  {
    var parsed: seq<int> := [];
    var i := 0;
    while i < |tokens|
      invariant 0 <= i <= |tokens|
      invariant ParseClients(tokens[..i], list) == Success(parsed)
    {
      assert tokens[..i + 1][..i] == tokens[..i];
      var n := ParseInt(tokens[i]);
      if n.None? {
        ParseClientsStopsAtFailure(tokens, list, i + 1);
        return Failure(FormatError(list, tokens[i]));
      }
      parsed := parsed + [n.value];
      i := i + 1;
    }
    assert tokens[..i] == tokens;
    r := Success(parsed);
  }

  method BuildClientFilter(clientsToInclude: string, clientsToExclude: string) returns (r: Result<ClientFilter>)
    ensures r == ClientFilterOf(clientsToInclude, clientsToExclude)
  {
    var excluded := ParseClientList(Tokens(clientsToExclude), "Exclude");
    if excluded.Failure? {
      return Failure(excluded.error);
    }
    var included: Option<seq<int>> := None;
    if !IsBlank(clientsToInclude) {
      var parsed := ParseClientList(Tokens(clientsToInclude), "Include");
      if parsed.Failure? {
        return Failure(parsed.error);
      }
      included := Some(parsed.value);
    }
    r := Success(ClientFilter([SYSTEM_CLIENT, GARDEN_ADMIN_CLIENT] + excluded.value, included));
  }

  /** A successful parse holds one value per token, each the value of its
      token, in token order. */
  lemma {:induction false} ParseClientsValues(tokens: seq<string>, list: string)
    requires ParseClients(tokens, list).Success?
    ensures var v := ParseClients(tokens, list).value;
      |v| == |tokens| && forall i :: 0 <= i < |tokens| ==> ParseInt(tokens[i]) == Some(v[i])
  {
    if tokens != [] {
      var n := |tokens| - 1;
      ParseClientsValues(tokens[..n], list);
      var v := ParseClients(tokens, list).value;
      var w := ParseClients(tokens[..n], list).value;
      assert v == w + [ParseInt(tokens[n]).value];
      forall i | 0 <= i < |tokens| ensures ParseInt(tokens[i]) == Some(v[i]) {
        if i < n {
          assert tokens[..n][i] == tokens[i];
        }
      }
    }
  }

  /** When every token is an integer the parse succeeds. */
  lemma {:induction false} ParseClientsAllGood(tokens: seq<string>, list: string)
    requires forall i :: 0 <= i < |tokens| ==> ParseInt(tokens[i]).Some?
    ensures ParseClients(tokens, list).Success?
  {
    if tokens != [] {
      var n := |tokens| - 1;
      assert forall i :: 0 <= i < n ==> tokens[..n][i] == tokens[i];
      ParseClientsAllGood(tokens[..n], list);
    }
  }

  /** A failed parse names the first token that is not an integer. */
  lemma {:induction false} ParseClientsNamesFirstBadToken(tokens: seq<string>, list: string)
    requires ParseClients(tokens, list).Failure?
    ensures exists i :: (0 <= i < |tokens| && ParseInt(tokens[i]).None?
      && ParseClients(tokens, list).error == FormatError(list, tokens[i])
      && forall j :: 0 <= j < i ==> ParseInt(tokens[j]).Some?)
  {
    var n := |tokens| - 1;
    var init := tokens[..n];
    if ParseClients(init, list).Failure? {
      ParseClientsNamesFirstBadToken(init, list);
      var i :| 0 <= i < n && ParseInt(init[i]).None?
        && ParseClients(init, list).error == FormatError(list, init[i])
        && forall j :: 0 <= j < i ==> ParseInt(init[j]).Some?;
      assert forall j :: 0 <= j < n ==> init[j] == tokens[j];
    } else {
      ParseClientsValues(init, list);
      assert forall j :: 0 <= j < n ==> init[j] == tokens[j];
      assert ParseInt(tokens[n]).None?;
    }
  }

  /** Clients 0 (System) and 11 (GardenAdmin) are never selected. */
  lemma ClientFilterExcludesSystem(clientsToInclude: string, clientsToExclude: string)
    requires ClientFilterOf(clientsToInclude, clientsToExclude).Success?
    ensures var f := ClientFilterOf(clientsToInclude, clientsToExclude).value;
      && SYSTEM_CLIENT in f.excluded && GARDEN_ADMIN_CLIENT in f.excluded
      && !Selects(f, SYSTEM_CLIENT) && !Selects(f, GARDEN_ADMIN_CLIENT)
  {
  }

  /** The filter is refused exactly when a token of the exclude list, or of
      the include list, is not an integer; the message names that token and
      the list it came from (the exclude list is read first). */
  lemma ClientFilterFailsOnBadToken(clientsToInclude: string, clientsToExclude: string)
    ensures var r := ClientFilterOf(clientsToInclude, clientsToExclude);
      r.Failure? <==>
        (exists t :: t in Tokens(clientsToExclude) && ParseInt(t).None?)
        || (exists t :: t in Tokens(clientsToInclude) && ParseInt(t).None?)
    ensures var r := ClientFilterOf(clientsToInclude, clientsToExclude);
      r.Failure? ==>
        (exists t :: t in Tokens(clientsToExclude) && ParseInt(t).None? && r.error == FormatError("Exclude", t))
        || (exists t :: t in Tokens(clientsToInclude) && ParseInt(t).None? && r.error == FormatError("Include", t))
  {
    var ex := Tokens(clientsToExclude);
    var inc := Tokens(clientsToInclude);
    var r := ClientFilterOf(clientsToInclude, clientsToExclude);
    var pe := ParseClients(ex, "Exclude");
    if pe.Failure? {
      ParseClientsNamesFirstBadToken(ex, "Exclude");
    } else {
      ParseClientsValues(ex, "Exclude");
      assert forall t :: t in ex ==> ParseInt(t).Some?;
      if IsBlank(clientsToInclude) {
        assert inc == [];
      } else {
        var pi := ParseClients(inc, "Include");
        if pi.Failure? {
          ParseClientsNamesFirstBadToken(inc, "Include");
        } else {
          ParseClientsValues(inc, "Include");
        }
      }
    }
    if r.Success? {
      assert pe.Success?;
      if !IsBlank(clientsToInclude) {
        ParseClientsValues(inc, "Include");
      }
    } else {
      if forall t :: t in ex ==> ParseInt(t).Some? {
        ParseClientsAllGood(ex, "Exclude");
      }
      if forall t :: t in inc ==> ParseInt(t).Some? {
        ParseClientsAllGood(inc, "Include");
      }
    }
  }

  /** A client is among the parsed values exactly when some token parses
      to it. */
  lemma ParsedContains(tokens: seq<string>, list: string, client: int)
    requires ParseClients(tokens, list).Success?
    ensures client in ParseClients(tokens, list).value <==> exists t :: t in tokens && ParseInt(t) == Some(client)
  {
    ParseClientsValues(tokens, list);
    var v := ParseClients(tokens, list).value;
    if client in v {
      var k :| 0 <= k < |v| && v[k] == client;
      assert tokens[k] in tokens;
    }
    if exists t :: t in tokens && ParseInt(t) == Some(client) {
      var t :| t in tokens && ParseInt(t) == Some(client);
      var k :| 0 <= k < |tokens| && tokens[k] == t;
      assert v[k] == client;
    }
  }

  /** With an include list, the selected clients are exactly the listed
      ones, minus 0, 11 and any excluded one. */
  lemma IncludeSelectsExactly(clientsToInclude: string, clientsToExclude: string, client: int)
    requires !IsBlank(clientsToInclude)
    requires ClientFilterOf(clientsToInclude, clientsToExclude).Success?
    ensures Selects(ClientFilterOf(clientsToInclude, clientsToExclude).value, client) <==>
      && client != SYSTEM_CLIENT && client != GARDEN_ADMIN_CLIENT
      && (exists t :: t in Tokens(clientsToInclude) && ParseInt(t) == Some(client))
      && (forall t :: t in Tokens(clientsToExclude) ==> ParseInt(t) != Some(client))
  {
    var ex := Tokens(clientsToExclude);
    var inc := Tokens(clientsToInclude);
    ParsedContains(ex, "Exclude", client);
    ParsedContains(inc, "Include", client);
    var pe := ParseClients(ex, "Exclude").value;
    var pi := ParseClients(inc, "Include").value;
    assert ClientFilterOf(clientsToInclude, clientsToExclude).value == ClientFilter([SYSTEM_CLIENT, GARDEN_ADMIN_CLIENT] + pe, Some(pi));
  }

  /** Without an include list, every client is selected except 0, 11 and
      the excluded ones. */
  lemma ExcludeSelectsComplement(clientsToInclude: string, clientsToExclude: string, client: int)
    requires IsBlank(clientsToInclude)
    requires ClientFilterOf(clientsToInclude, clientsToExclude).Success?
    ensures Selects(ClientFilterOf(clientsToInclude, clientsToExclude).value, client) <==>
      && client != SYSTEM_CLIENT && client != GARDEN_ADMIN_CLIENT
      && (forall t :: t in Tokens(clientsToExclude) ==> ParseInt(t) != Some(client))
  {
    var ex := Tokens(clientsToExclude);
    ParsedContains(ex, "Exclude", client);
    var pe := ParseClients(ex, "Exclude").value;
    assert ClientFilterOf(clientsToInclude, clientsToExclude).value == ClientFilter([SYSTEM_CLIENT, GARDEN_ADMIN_CLIENT] + pe, None);
  }

}
