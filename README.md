# MoveClient: a model of client migration between iDempiere databases

MoveClient is an iDempiere server process. It copies the data of one or more
tenants (clients) from an external iDempiere database into the local one. It
works in two phases:

- **Validation** compares the external data dictionary with the local one and
  collects every blocking problem in an error list. The problems are missing
  tables or columns, type or length differences, cross-client references, and
  system records that cannot be found locally by UUID.
- **Migration** runs only when validation found nothing and the run is not
  validate-only. It allocates a fresh local key for every user record key of
  every verified table, recording each pair in the conversion table
  `T_MoveClient`. It then copies every row of every verified table, writing
  each key-valued column through the conversions.

A run is `doIt`. It does the following, in order:

1. checks its parameters;
2. builds the table filter (temporary tables `T_…` and a comma list of excluded
   names) and the client filter (0 and 11 always excluded, plus an optional
   exclude or include list);
3. connects;
4. validates, then either logs the errors and returns `@Error@`, or (unless
   validate-only) migrates and returns `@OK@`.

An exception anywhere ends the run with its message.

The Dafny model is in layers:

| file | module | holds |
|---|---|---|
| `wrappers.dfy` | `Wrappers` | `Option`, and `Result` (an exception is a `Failure` carrying its message) |
| `text.dfy` | `Text` | ASCII case folding, `Integer.parseInt`, `String.valueOf(int)` and `String.split(",")` |
| `filters.dfy` | `Filters` | the two filters as the predicates their SQL text means, plus the loops that build them |
| `catalog.dfy` | `Catalog` | the external database as dictionary tables and rows, the local dictionary, and the meaning of each query the process sends |
| `validation.dfy` | `Validation` | the session state (error list, verified tables and columns, system-conversion keys, conversion table, key allocator, inserted rows) and validation as folds over it |
| `migration.dfy` | `Migration` | the column classification chain, value translation, the ID conversion build and the row copy, as functions |
| `process.dfy` | `Process` | `RunSpec`, and the class `MoveClientProcess` whose fields are the process's lists and whose methods (`DoIt`, `Validate`, `ValidateExternalTable`, `ValidateExternalColumn`, `MoveClient`, `CopyTableRows`, …) run the same loops as the source and are proved to end in the state, or with the exception, that the specification functions give |
| `validation_props.dfy`, `migration_props.dfy`, `run_props.dfy` | `ValidationProps`, `MigrationProps`, `RunProps` | the properties proved about those functions |

Two thresholds are deliberately kept as written:

- validation treats a foreign key as a system reference needing conversion only
  when it is **above** `MAX_OFFICIAL_ID` (999999);
- migration asks for a conversion for every key **from** 999999 on.

`MigrationProps.ThresholdAsymmetry` shows where the two meet. A system reference
to key 999999 passes validation with nothing recorded, and copying it then stops
the move with "Found orphan record".

Three behaviours of the code are kept as written:

- System conversions are recorded for every referenced foreign table, whether or
  not that table is itself verified.
- A column is added to the verified list even after type, length or
  foreign-key errors. Only a column that does not exist locally is left out.
- `AD_Attribute_Value` with client data throws before the local table is
  looked up.

## Model

| member | source | states |
|---|---|---|
| Text.ParseInt | src/org/globalqss/moveclient/process/MoveClient.java:128-133 | Integer.parseInt: a result exists only within the 32-bit range |
| Text.ParseDecimal | src/org/globalqss/moveclient/process/MoveClient.java:620-621 | reading back the decimal text String.valueOf writes gives the same 32-bit integer |
| Text.DecimalInjective | src/org/globalqss/moveclient/process/MoveClient.java:620-621 | different keys give different decimal texts, so the TABLE.ID keys of the system-conversion list never collide |
| Text.JoinFields | src/org/globalqss/moveclient/process/MoveClient.java:113 | the fields split at every comma, joined back with commas, give the parameter back |
| Text.SplitTokensHaveNoComma | src/org/globalqss/moveclient/process/MoveClient.java:113 | no token of split(",") contains a comma |
| Text.UpperIdempotent | src/org/globalqss/moveclient/process/MoveClient.java:119 | upper-casing a name twice is upper-casing it once |
| Filters.BuildTableFilter | src/org/globalqss/moveclient/process/MoveClient.java:106-121 | the built filter holds every token of the parameter upper-cased, in order, and allows a table exactly when its upper-cased name does not start with T_, no token is empty (DB.TO_STRING writes an empty token as NULL), and no token matches the name ignoring case |
| Filters.EmptyTokenAdmitsNoTable | src/org/globalqss/moveclient/process/MoveClient.java:113-119 | a parameter with an empty token (a doubled or leading comma) admits no table: NOT IN over a list holding NULL is never true |
| Filters.LeadingCommaAdmitsNoTable | src/org/globalqss/moveclient/process/MoveClient.java:113-119 | ",AD_Note" admits no table |
| Filters.ParseClientList | src/org/globalqss/moveclient/process/MoveClient.java:126-135 | the loop's result equals the parse of the token list, including its first format error |
| Filters.BuildClientFilter | src/org/globalqss/moveclient/process/MoveClient.java:123-155 | the built filter, or the exception, equals ClientFilterOf of the two parameters |
| Filters.ParseClientsStopsAtFailure | src/org/globalqss/moveclient/process/MoveClient.java:129-133 | once a token fails to parse, the tokens after it change nothing |
| Filters.ParseClientsValues | src/org/globalqss/moveclient/process/MoveClient.java:126-135 | a successful parse holds one integer per token, in order, each what parseInt gives for its token |
| Filters.ParseClientsAllGood | src/org/globalqss/moveclient/process/MoveClient.java:126-135 | when every token is an integer the parse succeeds |
| Filters.ParseClientsNamesFirstBadToken | src/org/globalqss/moveclient/process/MoveClient.java:129-133 | a failed parse carries the format message naming the first token that is not an integer |
| Filters.ClientFilterFailsOnBadToken | src/org/globalqss/moveclient/process/MoveClient.java:123-155 | the client filter fails exactly when some token of either list is not an integer, and the message names such a token and its list |
| Filters.ClientFilterExcludesSystem | src/org/globalqss/moveclient/process/MoveClient.java:123 | clients 0 and 11 are always excluded and never selected |
| Filters.IncludeSelectsExactly | src/org/globalqss/moveclient/process/MoveClient.java:123-155 | with an include list, a client is selected exactly when it is listed, is not 0 or 11, and is not excluded |
| Filters.ExcludeSelectsComplement | src/org/globalqss/moveclient/process/MoveClient.java:123-136 | without an include list, every client except 0, 11 and the excluded ones is selected |
| Catalog.InScopeRows | src/org/globalqss/moveclient/process/MoveClient.java:492-495 | the query keeps exactly the rows linked to a selected client, and no more than it read |
| Catalog.SourceTableNames | src/org/globalqss/moveclient/process/MoveClient.java:237-240 | the tables validated are exactly the names of active dictionary tables that are not views and pass the table filter |
| Catalog.SourceTableNamesAppend | src/org/globalqss/moveclient/process/MoveClient.java:237-240 | the names keep the dictionary's order: those of a + b are those of a followed by those of b |
| Catalog.RefsFromRows | src/org/globalqss/moveclient/process/MoveClient.java:386-406 | a reference is produced exactly when some scanned row joins a foreign row of another client |
| Catalog.Distinct | src/org/globalqss/moveclient/process/MoveClient.java:387 | SELECT DISTINCT keeps each reference once and drops none |
| Catalog.ForeignScanMeaning | src/org/globalqss/moveclient/process/MoveClient.java:364-407 | a (client, ID, UUID) triple is scanned exactly when a row of a selected client references, through the join column, a foreign row of a different client with those values |
| Catalog.ColumnIndex | src/org/globalqss/moveclient/process/MoveClient.java:583 | getColumnIndex is the position of a column with that name ignoring case, or -1 exactly when there is none |
| Catalog.MigrationTables | src/org/globalqss/moveclient/process/MoveClient.java:473-478 | the tables moveClient loops over are exactly the active local tables that are not views and pass the table filter |
| Catalog.MigrationTablesAppend | src/org/globalqss/moveclient/process/MoveClient.java:473-478 | the tables keep the dictionary's order: those of a + b are those of a followed by those of b |
| Catalog.FoundSourceTable | src/org/globalqss/moveclient/process/MoveClient.java:300-301 | the dictionary table the column query joins is one of the listed tables, with the asked name ignoring case |
| Catalog.ActiveColumnsListed | src/org/globalqss/moveclient/process/MoveClient.java:301 | the active stored columns are columns of the table |
| Catalog.SourceColumnOrigin | src/org/globalqss/moveclient/process/MoveClient.java:297-301 | every column the query returns for a name belongs to a dictionary table of that name, ignoring case |
| Validation.DictionaryErrors | src/org/globalqss/moveclient/process/MoveClient.java:337-347 | no error exactly when the types agree or one is a user reference, and the lengths agree; otherwise the type and length messages, and only those |
| Validation.ForeignTableOf | src/org/globalqss/moveclient/process/MoveClient.java:350-355 | a column is scanned through its reference table exactly when that name is non-empty and not the table itself, and the table is not AD_PInstance_Log |
| Validation.TablesSpecStopsAtFailure | src/org/globalqss/moveclient/process/MoveClient.java:248-253 | an exception while validating one table ends the table loop |
| Migration.StrategyOf | src/org/globalqss/moveclient/process/MoveClient.java:599 | a column is translated exactly when its conversion table is neither null nor empty, and through that table |
| Migration.PreferenceTable | src/org/globalqss/moveclient/process/MoveClient.java:589-597 | an Attribute ending in _ID (ignoring case) names its table without the suffix, C_DocTypeTarget names C_DocType, anything else names none |
| Migration.ValueByLabel | src/org/globalqss/moveclient/process/MoveClient.java:585-589 | a value is found by label exactly when some selected column has that label ignoring case |
| Migration.Lookup | src/org/globalqss/moveclient/process/MoveClient.java:606-611 | the conversion query returns -1 when no entry matches, and otherwise the target of a matching entry |
| Migration.KeyOf | src/org/globalqss/moveclient/process/MoveClient.java:601-602 | getInt with wasNull: NULL is no key, a number is itself, a string (AD_Preference.Value) is the 32-bit integer it spells, and any other value makes the query fail |
| Migration.TranslateValue | src/org/globalqss/moveclient/process/MoveClient.java:599-631 | a copied value is written as read; in a translated column, over the key getInt reads from a number or a string, NULL stays NULL, a key below 999999 is kept, and a key from 999999 on is the target of a conversion entry of the upper-cased table, with the orphan exception when there is none; AD_Preference.Value is written as decimal text |
| Migration.TranslateRow | src/org/globalqss/moveclient/process/MoveClient.java:569-632 | a translated row has one value per selected column |
| Migration.TranslateRowStopsAtFailure | src/org/globalqss/moveclient/process/MoveClient.java:569-632 | an exception in one column ends the row |
| Migration.KeysOf | src/org/globalqss/moveclient/process/MoveClient.java:503-504 | the key list holds the key of each row of the ID query, in order |
| Migration.SelectedColumns | src/org/globalqss/moveclient/process/MoveClient.java:530-548 | the selected columns are exactly the active, stored and verified columns of the table |
| Migration.Fetch | src/org/globalqss/moveclient/process/MoveClient.java:551-553 | the data query reads one value per selected column |
| Migration.CopyRowsStopsAtFailure | src/org/globalqss/moveclient/process/MoveClient.java:568-638 | an exception in one row ends the copy of the table |
| Migration.RowInsert | src/org/globalqss/moveclient/process/MoveClient.java:568-637 | one fetched row is inserted exactly when its parameters translate and the local database accepts the INSERT, naming the table and the selected columns; a refused INSERT throws "Could not execute" |
| Migration.CopySpecStopsAtFailure | src/org/globalqss/moveclient/process/MoveClient.java:519-645 | an exception in one table ends the migration |
| Process.MoveClientProcess.constructor | src/org/globalqss/moveclient/process/MoveClient.java:62-68 | a new process has empty lists, an empty log and the allocator at its first key |
| Process.MoveClientProcess.DoIt | src/org/globalqss/moveclient/process/MoveClient.java:95-184 | returns the status text, logs the lines and leaves the state that RunSpec gives, or throws its message |
| Process.MoveClientProcess.Connected | src/org/globalqss/moveclient/process/MoveClient.java:166-183 | the connected part of doIt ends as ConnectedSpec says and leaves the filters alone |
| Process.MoveClientProcess.LogErrors | src/org/globalqss/moveclient/process/MoveClient.java:168-171 | appends every error to the log, in order, and changes nothing else |
| Process.MoveClientProcess.Validate | src/org/globalqss/moveclient/process/MoveClient.java:186-258 | ends in the state validation's specification gives, or with its exception |
| Process.MoveClientProcess.ValidateTables | src/org/globalqss/moveclient/process/MoveClient.java:236-257 | the loop over the source tables folds the table specification over the names and stops at the first exception |
| Process.MoveClientProcess.ValidateExternalTable | src/org/globalqss/moveclient/process/MoveClient.java:260-326 | ends in the state the table specification gives, or with its exception |
| Process.MoveClientProcess.ValidateColumns | src/org/globalqss/moveclient/process/MoveClient.java:304-322 | the loop over the source columns verifies AD_Client_ID unchecked and validates every other column, as the fold of ColumnStep says |
| Process.MoveClientProcess.ValidateExternalColumn | src/org/globalqss/moveclient/process/MoveClient.java:328-448 | leaves the state the column specification gives (the exception of line 441 is left out) |
| Process.MoveClientProcess.CheckDictionary | src/org/globalqss/moveclient/process/MoveClient.java:336-347 | appends exactly the type and length errors DictionaryErrors gives, and nothing else changes |
| Process.MoveClientProcess.ScanForeignKeys | src/org/globalqss/moveclient/process/MoveClient.java:408-444 | the loop over the foreign-key scan leaves the fold of RefStep over the scanned references (the query failure of line 441 is left out) |
| Process.MoveClientProcess.RecordReference | src/org/globalqss/moveclient/process/MoveClient.java:414-438 | one scanned reference: the cross-client error, or the system conversion with its key, or the not-convertible error, or nothing |
| Process.MoveClientProcess.MoveClient | src/org/globalqss/moveclient/process/MoveClient.java:468-645 | the build loop and then the copy loop end in MoveSpec's state, or with its exception |
| Process.MoveClientProcess.BuildConversions | src/org/globalqss/moveclient/process/MoveClient.java:480-516 | the ID-conversion loop leaves the state the fold of the per-table allocation gives |
| Process.MoveClientProcess.CopyTables | src/org/globalqss/moveclient/process/MoveClient.java:518-645 | the copy loop ends in the state CopySpec gives, or with the first table's exception |
| Process.MoveClientProcess.ConvertTableIds | src/org/globalqss/moveclient/process/MoveClient.java:489-514 | appends one conversion entry per source key, with a fresh target each |
| Process.MoveClientProcess.SelectColumns | src/org/globalqss/moveclient/process/MoveClient.java:528-548 | the column loop selects exactly SelectedColumns and changes nothing |
| Process.MoveClientProcess.CopyTableRows | src/org/globalqss/moveclient/process/MoveClient.java:519-644 | copies a verified table, skips an unverified one, or ends with the exception of the first failing row |
| Process.MoveClientProcess.InsertRows | src/org/globalqss/moveclient/process/MoveClient.java:564-643 | one INSERT per fetched row through one reused buffer, ending as CopyRows says: with the first failing row's translation exception, or with "Could not execute" when the local database refuses an INSERT |
| Process.MoveClientProcess.FillParameters | src/org/globalqss/moveclient/process/MoveClient.java:564-632 | fills the parameter array with the translated row, or ends with the first column's exception |
| ValidationProps.LastDotBeforeDigits | src/org/globalqss/moveclient/process/MoveClient.java:423 | in TABLE.ID the last dot is the one before the ID |
| ValidationProps.SystemKeyInjective | src/org/globalqss/moveclient/process/MoveClient.java:423-436 | two equal TABLE.ID keys name the same (upper-cased) table and the same ID |
| ValidationProps.UpperNameReadsTheSame | src/org/globalqss/moveclient/process/MoveClient.java:425-434 | a table read under its upper-cased name gives the same rows, columns, UUID lookup and key |
| ValidationProps.EmptyTracks | src/org/globalqss/moveclient/process/MoveClient.java:65-68 | a session with no conversions satisfies the invariant tying system keys to conversion entries |
| ValidationProps.RefStepKeeps | src/org/globalqss/moveclient/process/MoveClient.java:414-438 | one reference keeps the invariant (one TABLE.ID key per conversion entry, pairwise different, each for a system row found by UUID), only appends to lists, and changes neither the verified lists nor the inserted rows |
| ValidationProps.ScanKeeps | src/org/globalqss/moveclient/process/MoveClient.java:414-439 | the whole scan keeps that invariant and only appends |
| ValidationProps.CrossClientReported | src/org/globalqss/moveclient/process/MoveClient.java:418-421 | every scanned reference to another client leaves its cross-client error |
| ValidationProps.SystemReferenceHandled | src/org/globalqss/moveclient/process/MoveClient.java:422-437 | every scanned system reference above 999999 ends up with its TABLE.ID key recorded or its not-convertible error |
| ValidationProps.SystemEntryOfRef | src/org/globalqss/moveclient/process/MoveClient.java:424-436 | given distinct keys in the referenced table, a system conversion with the TABLE.ID key of a scanned reference is exactly the entry that reference records: its upper-cased table, its ID and the local key found by its UUID |
| ValidationProps.RefStepResolves | src/org/globalqss/moveclient/process/MoveClient.java:422-437 | one system reference above 999999: when its UUID is found locally its TABLE.ID key is recorded, otherwise its not-convertible error is |
| ValidationProps.SystemReferenceSplit | src/org/globalqss/moveclient/process/MoveClient.java:414-438 | after the scan, every system reference above 999999 found locally by UUID has its key recorded, and every one not found has its not-convertible error |
| ValidationProps.SystemReferenceConverted | src/org/globalqss/moveclient/process/MoveClient.java:422-437 | every scanned system reference above 999999 is split on the UUID lookup: found, its TABLE.ID key and the entry (run, upper-cased table, ID, local key) are recorded; not found, its not-convertible error is logged and no entry exists for that table and ID |
| ValidationProps.ColumnOutcome | src/org/globalqss/moveclient/process/MoveClient.java:328-448 | a missing column adds only its error; an existing one adds its dictionary errors and its TABLE.COLUMN key, and records no conversion when it is not scanned (the exception of line 441 is left out) |
| ValidationProps.ColumnStepKeeps | src/org/globalqss/moveclient/process/MoveClient.java:310-319 | one iteration of the column loop verifies AD_Client_ID always and any other column when it exists locally |
| ValidationProps.ColumnsVerifiedExactly | src/org/globalqss/moveclient/process/MoveClient.java:310-319 | after the column loop a TABLE.COLUMN key is verified exactly when it was before or a column of the loop with that key verifies |
| ValidationProps.TableOutcome | src/org/globalqss/moveclient/process/MoveClient.java:260-326 | a table without client data is skipped; AD_Attribute_Value with data throws; a table missing locally adds an error; otherwise the table and its columns are verified, AD_Client_ID included |
| ValidationProps.TablesVerifiedExactly | src/org/globalqss/moveclient/process/MoveClient.java:248-251 | a table is verified exactly when it is one of the listed tables with client data that exists locally |
| ValidationProps.ValidateKeeps | src/org/globalqss/moveclient/process/MoveClient.java:186-258 | a successful validation keeps the invariant, only appends to lists, and neither allocates keys nor writes rows |
| ValidationProps.ValidateBlocks | src/org/globalqss/moveclient/process/MoveClient.java:191-231 | no selected client, or attachments or archives on external storage, end validation with their messages, in that order |
| ValidationProps.TableKeepsDeclared | src/org/globalqss/moveclient/process/MoveClient.java:304-319 | validating one table verifies only TABLE.COLUMN keys of columns the external dictionary lists |
| ValidationProps.TablesKeepDeclared | src/org/globalqss/moveclient/process/MoveClient.java:248-251 | the table loop verifies only such keys |
| ValidationProps.ValidateKeepsDeclared | src/org/globalqss/moveclient/process/MoveClient.java:186-258 | after a successful validation every verified TABLE.COLUMN key names a column of the external dictionary |
| MigrationProps.AllocateIdsExact | src/org/globalqss/moveclient/process/MoveClient.java:503-509 | each source key gets the next target, in order, under the upper-cased table name, and nothing else changes |
| MigrationProps.AllocateIdsFresh | src/org/globalqss/moveclient/process/MoveClient.java:505 | the allocated targets are increasing and none lies below the allocator's earlier position |
| MigrationProps.BuildEntriesMeaning | src/org/globalqss/moveclient/process/MoveClient.java:481-516 | the build only appends entries, each a fresh target for a source key of a listed table whose own key column is verified |
| MigrationProps.LookupFindsEntry | src/org/globalqss/moveclient/process/MoveClient.java:606-611 | with one entry per (table, source key), the lookup returns that entry's target |
| MigrationProps.InScopeKeysDistinct | src/org/globalqss/moveclient/process/MoveClient.java:490-496 | filtering rows by client keeps their keys pairwise different |
| MigrationProps.ConvertedKeyDeclared | src/org/globalqss/moveclient/process/MoveClient.java:486-488 | a table the build converts lists its own T_ID column in the external dictionary |
| MigrationProps.KeylessTableAllowed | src/org/globalqss/moveclient/process/MoveClient.java:486-488 | a link table without a T_ID column may hold rows sharing the key getInt reads (NULL as 0) while the database still counts as having primary keys |
| MigrationProps.SystemAndUserRowsDiffer | src/org/globalqss/moveclient/process/MoveClient.java:422-436 | a system row and a migrated row of one table have different keys |
| MigrationProps.SourceIdsAreUserKeys | src/org/globalqss/moveclient/process/MoveClient.java:490-504 | each key the ID query returns is the key of a row of a non-system client |
| MigrationProps.TrackedKeysStartBuild | src/org/globalqss/moveclient/process/MoveClient.java:433-436 | after validation there is one conversion entry per (table, key) |
| MigrationProps.AllocatedEntries | src/org/globalqss/moveclient/process/MoveClient.java:503-508 | the entries allocated for a table are user keys of that table |
| MigrationProps.SystemEntryIsNotSourceId | src/org/globalqss/moveclient/process/MoveClient.java:503-508 | no system conversion of a table has the key of a row being migrated |
| MigrationProps.AllocateKeepsOrigins | src/org/globalqss/moveclient/process/MoveClient.java:503-508 | after the allocation every entry is a system conversion or a key of a table built so far |
| MigrationProps.AddedKeysDistinct | src/org/globalqss/moveclient/process/MoveClient.java:503-508 | the entries allocated for one table have pairwise different source keys |
| MigrationProps.OldEntryIsNotAllocated | src/org/globalqss/moveclient/process/MoveClient.java:503-508 | an entry kept from before differs in (table, key) from one allocated for a table not built before |
| MigrationProps.KeptDiffersFromAddedAt | src/org/globalqss/moveclient/process/MoveClient.java:503-508 | the same for one kept entry and one allocated position |
| MigrationProps.KeptDifferFromAdded | src/org/globalqss/moveclient/process/MoveClient.java:503-508 | no kept entry shares (table, key) with an allocated one |
| MigrationProps.AllocateKeepsUnique | src/org/globalqss/moveclient/process/MoveClient.java:481-516 | allocating a table not built before leaves one entry per (table, key) |
| MigrationProps.AllocateKeepsInvariant | src/org/globalqss/moveclient/process/MoveClient.java:481-516 | allocating a table not built before keeps one entry per (table, key) |
| MigrationProps.UpperNames | src/org/globalqss/moveclient/process/MoveClient.java:507 | the names the entries are recorded under are the upper-cased table names |
| MigrationProps.BuildKeepsInvariant | src/org/globalqss/moveclient/process/MoveClient.java:481-516 | the whole build keeps one entry per (table, key) |
| MigrationProps.MigrationTablesDistinct | src/org/globalqss/moveclient/process/MoveClient.java:473-478 | the tables moveClient loops over keep distinct names |
| MigrationProps.BuildIsFunctional | src/org/globalqss/moveclient/process/MoveClient.java:481-516 | given distinct keys in every table whose dictionary lists its own T_ID column (keyless link tables are unconstrained), non-negative clients, client 0 excluded, distinct table names and verified columns taken from the external dictionary, the conversion table maps each (table, source key) to one target and the lookup finds it |
| MigrationProps.ClassifyMeaning | src/org/globalqss/moveclient/process/MoveClient.java:572-598 | the whole chain in order: the own key goes through its table, C_BPartner.AD_OrgBP_ID through AD_Org, list/language/entity-type columns are copied; then Record_ID (with an AD_Table_ID column after the first) through the table the row's AD_Table_ID names, or the query failure when the row lacks it; AD_Preference.Value through the table its Attribute names, copied when there is none, with the query failure or the NULL-attribute exception when the Attribute is missing or NULL; any other column through its reference table |
| MigrationProps.TranslateRowValues | src/org/globalqss/moveclient/process/MoveClient.java:569-632 | each value of a translated row is the translation of its column |
| MigrationProps.WrittenValue | src/org/globalqss/moveclient/process/MoveClient.java:599-631 | what is written for one column: the value as read; NULL; a key below the threshold, read from a number or a string; or the target of an existing conversion entry, as decimal text in AD_Preference.Value |
| MigrationProps.PreferenceValueReadsBack | src/org/globalqss/moveclient/process/MoveClient.java:620-621 | the decimal text written into AD_Preference.Value reads back by getInt as the same key |
| MigrationProps.CopyRowsExact | src/org/globalqss/moveclient/process/MoveClient.java:568-638 | a table's copy succeeds exactly when every row translates and no INSERT is refused, and then inserts one row per source row, in order, with its translation |
| MigrationProps.RejectedRowStopsCopy | src/org/globalqss/moveclient/process/MoveClient.java:633-637 | the first row whose INSERT the local database refuses ends the copy with executeUpdateEx's exception |
| MigrationProps.SelectedNamesVerified | src/org/globalqss/moveclient/process/MoveClient.java:530-537 | every selected column name is verified for the table |
| MigrationProps.SelectedColumnsAppend | src/org/globalqss/moveclient/process/MoveClient.java:530-548 | the columns keep the dictionary's order: those selected from a + b are those from a followed by those from b |
| MigrationProps.CopyRowsNames | src/org/globalqss/moveclient/process/MoveClient.java:549-550 | each inserted row names the table and the selected columns |
| MigrationProps.CopyTableMeaning | src/org/globalqss/moveclient/process/MoveClient.java:519-644 | an unverified table is skipped; a verified one gains one row per source row, each naming only verified columns |
| MigrationProps.CopyWritesOnlyVerified | src/org/globalqss/moveclient/process/MoveClient.java:519-645 | the migration writes only into verified tables and columns, and changes nothing but the inserted rows |
| MigrationProps.ThresholdAsymmetry | src/org/globalqss/moveclient/process/MoveClient.java:605 | a system reference to key 999999 records nothing in validation (whose test at line 422 is strict) but is an orphan in migration |
| RunProps.ParameterChecksFirst | src/org/globalqss/moveclient/process/MoveClient.java:97-164 | the URL check, the exclusive-lists check and the list syntax are decided before the connection, in that order; then the connection failure message |
| RunProps.ReturnedRunConnected | src/org/globalqss/moveclient/process/MoveClient.java:95-166 | a run that returns passed every check and connected with the filters its parameters give |
| RunProps.ConnectedStatus | src/org/globalqss/moveclient/process/MoveClient.java:166-183 | @Error@ exactly when lines are logged, and those lines are the errors; an error or validate-only run writes nothing and allocates nothing |
| RunProps.ConnectedWritesOnlyVerified | src/org/globalqss/moveclient/process/MoveClient.java:166-177 | rows are inserted only into verified tables and columns of allowed local tables |
| RunProps.ConnectedConversionsFunctional | src/org/globalqss/moveclient/process/MoveClient.java:166-177 | given distinct keys in every table that lists its own T_ID column, the conversion table left holds one entry per (table, source key) |
| RunProps.RunStatus | src/org/globalqss/moveclient/process/MoveClient.java:95-184 | the same status facts for a whole run from a new process |
| RunProps.RunWritesOnlyVerified | src/org/globalqss/moveclient/process/MoveClient.java:95-184 | a whole run writes only into verified tables and columns of allowed local tables |
| RunProps.RunConversionsFunctional | src/org/globalqss/moveclient/process/MoveClient.java:95-184 | given distinct keys in every table that lists its own T_ID column, a whole run leaves a conversion table that maps each (table, source key) to one target |

## Left out

- `prepare()`, user name and password: parameters arrive as a record. Defaulting the credentials to the local connection's does not affect the model.
- The JDBC connection, the SQL text and the database engines are not modelled. Each query is stated as what its result means over the model of the external database. The connection is a parameter: a database, or the driver's failure text.
- ORDER BY: tables, columns and key lists come in the order the model's lists hold them. The DISTINCT foreign scan keeps first-occurrence order.
- One dictionary record per table name and per column name is assumed. Lookups take the first match.
- Case folding is ASCII only, and parseInt accepts ASCII digits only.
- A list parameter made only of commas gives an empty client list or an empty exclude list. In the source that builds `IN ()` or `NOT IN ()`, which the database rejects.
- getInt on a string value parses it, and any other non-numeric value makes the query fail. Driver-specific conversions are not modelled.
- The messages of SQL exceptions are abbreviated to a fixed text, because the driver's cause is not modelled.
- statusUpdate, log.info and the closing of statements and the connection have no effect on the outcome and are left out.
- DB.getNextID is a counter field of the process. The real allocator's sequence table, and the gaps it may leave, are not modelled.
- The final commitEx, the foreign-key checks the database runs on commit, and the rollback after an exception are not modelled. The state after an exception is not specified.
- The attachments and archives on external storage are given as two lists of items, each with its client and table. The joins with the storage provider that pick those items out are not modelled.
- Which INSERTs the local database refuses is given as a set of rows of the local database, plus every INSERT that names no column. A refusal that depends on the rows inserted before it in the same run, such as the second of two identical rows under a key constraint, is captured only as far as that set says.
- The external database is assumed to hold, physically, every table and column its dictionary lists. A column missing from a stored row reads as NULL, and a table with no rows has no data. In the source a missing `AD_Client_ID`, `<T>_ID` or table makes the count, ID or data query throw "Could not execute external query" (lines 274-278, 491-496 and 555-560); the model does not capture that exception.
- Integer overflow of target keys allocated beyond the 32-bit range is not modelled.
- Process.MoveClientProcess.ScanForeignKeys: the foreign-key query of lines 384-407 always succeeds in the model. It reads, on the external database, the referenced table F taken from the local column (line 349) with its AD_Client_ID, F_ID and UUID columns. When any of them is missing there, the source throws "Could not execute external query" at line 441, ending validation and the run. That exception is not captured: a missing F reads as a table with no rows and a missing UUID column as NULL. The same holds for the local UUID lookup and the conversion INSERT of lines 428 and 432, whose SQL failures are not modelled.
- Process.MoveClientProcess.ValidateExternalColumn: because of the gap above it always ends in a session, with the column verified when it exists locally. In the source a failing foreign-key query at line 441 throws instead, and the column is not verified.
- ValidationProps.ColumnOutcome: for the same reason it states that an existing column always gains its TABLE.COLUMN key. In the source the exception of line 441 comes first and verifies nothing.
- The UUID column of a referenced table is taken as F_UU (line 362). MTable.getUUIDColumnName is not part of this model, and any other naming it applies is not captured.
