# SQL Server to PostgreSQL migration, modelled in Dafny

The tool moves a SQL Server database into PostgreSQL in stages:

- **Schema stage** (`migrate_schema.py`): reads the catalogue of every table and orders the tables so that each comes after the tables it references. It translates column types and default expressions, and writes one DDL file. The file holds the extensions, every `CREATE TABLE`, then every foreign-key `ALTER TABLE`, then every `CREATE INDEX`.
- **Data stage** (`migrate_data.py`): copies every table's rows in batches of 10 000. It moves each identity sequence past the copied ids. It records each finished table in an append-only checkpoint file, so that a second run skips those tables.
- **Export** (`migrate_script.py`): writes the rows as `INSERT` scripts, one per table. Columns the export has to read as text are listed in a post-processing script that converts them back.
- **Verification** (`verify_migration.py`): compares the table sets, the row counts and the foreign keys of the two databases. It then adds the foreign keys PostgreSQL lacks and, when the operator confirms, drops the ones it has in excess.
- **Report and prompts** (`reports.py`, `prompts.py`): the Markdown verification report, and the prompts sent to a language model for types and defaults that have no fixed translation.
- **Schema extraction** (`postgres_schema.py`): finds the schema names a DDL file mentions.

One Dafny module per source file holds the model:

- `SchemaOrder`, `TypeMapping` and `Ddl` (schema stage);
- `MigrateData` (data stage);
- `MigrateScript` (export);
- `VerifyMigration` (verification);
- `Reports` and `Prompts` (report and prompts);
- `PostgresSchema` (schema extraction).

Four shared modules sit beside them:

- `Text`: Python's `strip`, `lower`, `split`, `join` and `str(int)`, and the quote doubling of ISO/IEC 9075-2, sections 5.2 and 5.3.
- `Order`: `sorted()`.
- `Grouping`: a `defaultdict(list)` filled row by row, and its flattening.
- `Catalog`: the catalogue rows and the `schema.table` key.

Loops of the source are methods with loop invariants, proved equal to a specification function. The properties the source promises are proved about those functions as lemmas. Objects the source mutates are classes:

- the source cursor and the checkpoint file of the data stage;
- the `casted_columns_map` owner of the export;
- the PostgreSQL constraint catalogue of the verification stage.

Database reads, user input, the clock and the language model are parameters of the operations.

## Model

| member | source | states |
|---|---|---|
| Text.MapAllSpec | migrate_schema.py:279-288 | a list comprehension whose element function may raise succeeds exactly when every element succeeds, then yields one result per element in order; otherwise it fails with the error of the first failing element |
| Text.MapAllFirstError | migrate_schema.py:279-288 | once a prefix has raised, the elements after it are not looked at |
| Text.Strip | prompts.py:33 | `strip()` never lengthens, and its result neither starts nor ends with whitespace |
| Text.StripPadded | migrate_schema.py:237 | `strip()` removes whitespace padding and nothing else: text without whitespace at its ends comes back unchanged |
| Text.StripIdempotent | migrate_schema.py:237 | stripping twice is stripping once |
| Text.Lower | migrate_schema.py:217 | `lower()` keeps the length and lowers each character on its own |
| Text.LowerIdempotent | migrate_schema.py:217 | lowering twice is lowering once |
| Text.JoinEnds | reports.py:76 | the newline-joined text starts with its first line and ends with its last |
| Text.Split | migrate_schema.py:181 | `split(c)` gives the text between the separators: at least one piece, two when `c` occurs, no piece containing `c`, and joining the pieces with `c` gives the text back |
| Text.JoinSplit | migrate_schema.py:181 | pieces free of `c`, joined with `c`, split back into the same pieces |
| Text.SplitPair | migrate_schema.py:181 | splitting `a.b` at the dot gives back `a` and `b` when neither holds a dot |
| Text.IntToStringRoundTrip | migrate_schema.py:225-228 | the decimal text of any int reads back as that int |
| Text.IntToStringInjective | migrate_schema.py:225-228 | different ints have different decimal texts |
| Text.UndoubleDouble | migrate_data.py:31-33 | doubling every delimiter is undone by undoubling |
| Text.UnquoteQuote | migrate_data.py:31-33 | a delimited form reads back as its content |
| Text.QuoteInjective | migrate_data.py:31-33 | two different strings never have the same delimited form |
| Text.DoubledDelimitersPair | migrate_data.py:31-33 | inside the delimited form every delimiter has a neighbouring delimiter, so none stands alone |
| Text.QuoteIdentRoundTrip | migrate_data.py:31-33 | `quote_ident` reads back as the identifier and is injective |
| Text.QuoteStringRoundTrip | migrate_script.py:22-23 | the string literal reads back as the string and is injective |
| Catalog.SplitKeyOfKey | migrate_schema.py:181 | the key `schema.table` of dot-free names holds a dot and splits back into the pair |
| Catalog.KeyInjective | migrate_schema.py:154 | two pairs of dot-free names with the same key are the same pair |
| Order.StrLeTotal | verify_migration.py:45 | any two strings are comparable under code-point lexicographic order |
| Order.StrLeTransitive | verify_migration.py:45 | that order is transitive |
| Order.StrLeAntisymmetric | verify_migration.py:45 | that order is antisymmetric |
| Order.SortPermutes | verify_migration.py:45 | sorting keeps exactly the elements, with their multiplicities |
| Order.SortSorted | verify_migration.py:45 | sorting by a total preorder gives an ascending sequence |
| Order.SortPairs | verify_migration.py:45 | `sorted()` of `(schema, table)` pairs is an ascending permutation of its argument |
| Order.SortStrings | reports.py:18-19 | `sorted()` of strings is an ascending permutation of its argument |
| Order.SortedStringsUnique | reports.py:18-19 | two sorted arrangements of the same strings are equal, so the result of `sorted()` does not depend on the input order |
| Grouping.InsertionOrder | migrate_schema.py:96-104 | the dict keys hold no duplicates |
| Grouping.InsertionOrderKeys | migrate_schema.py:96-104 | the dict holds exactly the keys of the rows |
| Grouping.Filter | migrate_schema.py:96-104 | a key's group holds only rows of the input with that key |
| Grouping.GroupRows | migrate_schema.py:96-104 | the `defaultdict(list)` loop gives each key at its first row, with that key's rows in input order |
| Grouping.GroupStep | migrate_schema.py:96-104 | one `append` extends the key's list and adds a new key at the end |
| Grouping.FlattenGroups | migrate_schema.py:105-114 | the flattening loop concatenates the groups in key order |
| Grouping.FilterFlatten | migrate_schema.py:105-114 | filtering the flattened items for one key gives that key's group |
| Grouping.FlattenKeepsGroups | migrate_schema.py:105-114 | after grouping and flattening, each key still has its rows in their original order |
| Grouping.FlattenPermutes | migrate_schema.py:105-114 | grouping then flattening is a permutation of the rows |
| Grouping.InsertionOrderFlatten | migrate_schema.py:105-114 | regrouping the flattened items gives back the same key order |
| Grouping.KeysHaveRows | migrate_schema.py:105-114 | every key of the dict has at least one row |
| Grouping.Regroup | migrate_schema.py:298-301 | regrouping the flattened rows, as the DDL generator does, gives the same keys in the same order with the same rows |
| Ddl.QuotedIsQuoteIdent | migrate_schema.py:295 | for a name without a double quote, the generator's `"{name}"` is the standard delimited identifier and reads back as the name |
| Ddl.ColumnTypes | migrate_schema.py:59 | every column name has an entry in `column_data_types` |
| Ddl.ColumnTypesSpec | migrate_schema.py:59 | the entry under a name is the lower-cased type of the last column of that name |
| Ddl.ColumnTypesKeys | migrate_schema.py:59 | `column_data_types` has no key that is not a column name |
| Ddl.Kept | migrate_schema.py:131-141 | the index loop keeps only rows of the input that are not on an xml column |
| Ddl.KeptExactly | migrate_schema.py:131-141 | every row not on an xml column is kept, as often as it occurs, and no xml row is |
| Ddl.IndexItemsNotXml | migrate_schema.py:135-138 | no index lists an xml column |
| Ddl.IndexItemsKeepOthers | migrate_schema.py:131-141 | no other index column is lost: a row not on an xml column has its column listed under its index name |
| Ddl.IndexRowStep | migrate_schema.py:131-141 | one turn of the index loop skips an xml row, or appends the column under its index name |
| Ddl.IndexItemsOfGrouping | migrate_schema.py:131-141 | the finished dict's items are the specified index items |
| Ddl.GroupIndexes | migrate_schema.py:131-141 | the index loop yields the specified items, none listing an xml column |
| Ddl.IndexDict | migrate_schema.py:131-141 | the loop's dict is the grouping of the kept rows by index name |
| Ddl.ReadSchema | migrate_schema.py:53-145 | None exactly for a table without columns; otherwise the columns and key as read, the foreign-key rows permuted so that each constraint keeps its rows in order and constraints keep their first-row order, and the index items |
| Ddl.StripDefinition | migrate_schema.py:288 | `strip()` of the definition removes only the blanks the empty NOT NULL and DEFAULT parts leave at the end |
| Ddl.ColumnDefinitionText | migrate_schema.py:279-288 | a definition is the quoted name and type, the identity clause exactly when IsIdentity is set, NOT NULL exactly when IS_NULLABLE is NO, then the DEFAULT clause when there is one |
| Ddl.ColumnDefinitionsSpec | migrate_schema.py:279-288 | one definition per column in column order, or the error of the first failing column |
| Ddl.DefineColumns | migrate_schema.py:279-288 | the column loop computes the specified definitions or error |
| Ddl.ForeignKeyStatements | migrate_schema.py:297-314 | one ALTER TABLE per distinct constraint name |
| Ddl.DefineForeignKeys | migrate_schema.py:297-314 | the foreign-key loop groups by constraint name, then writes one statement per group |
| Ddl.StatementPerGroup | migrate_schema.py:303-314 | statement `j` is the ALTER TABLE of the `j`-th constraint and its rows |
| Ddl.IndexStatements | migrate_schema.py:316-320 | one CREATE INDEX per index item |
| Ddl.DefineIndexes | migrate_schema.py:316-320 | the index loop writes the specified statements in item order |
| Ddl.GeneratePostgresSchema | migrate_schema.py:276-322 | `generate_postgres_schema` gives the specified CREATE TABLE, ALTER TABLE and CREATE INDEX texts, or the first column's ValueError |
| Ddl.ReadForeignKeysSameStatements | migrate_schema.py:95-114 | reading the rows through the grouping and flattening changes none of the ALTER TABLE statements |
| Ddl.Present | migrate_schema.py:376-385 | the tables handled are exactly the sorted tables whose schema was read |
| Ddl.CollectSpec | migrate_schema.py:376-385 | one CREATE TABLE per table that has columns, in sorted order; the run fails exactly when one of those tables fails |
| Ddl.CollectOk | migrate_schema.py:376-385 | the run succeeds exactly when every table with columns generates |
| Ddl.CollectCreates | migrate_schema.py:376-385 | on success the `j`-th CREATE TABLE is that of the `j`-th table with columns |
| Ddl.CollectFirstError | migrate_schema.py:376-385 | once a table has failed, the tables after it are not looked at |
| Ddl.CollectStatements | migrate_schema.py:376-385 | the main loop computes the specified statement lists or the first error |
| Ddl.WriteAll | migrate_schema.py:390-395 | writing the parts one after another appends their concatenation |
| Ddl.WriteFile | migrate_schema.py:387-395 | the file is the extension comments, then the CREATE TABLEs, ALTER TABLEs and CREATE INDEXes |
| Ddl.BuildForeignKeysMap | migrate_schema.py:356-361 | the map holds the foreign-key rows of each table whose schema was read, keyed by `schema.table` |
| Ddl.MigrateSchemas | migrate_schema.py:349-395 | an empty table list ends the run with an error and no file; otherwise, for distinct dot-free names the tables are handled in an order that permutes the input and, without a cycle, puts every table after each table it references; the file is the document of the collected statements |
| TypeMapping.MapDataType | migrate_schema.py:183-230 | a type maps exactly when its lower-cased name is in the table, otherwise the ValueError names it; a mapped type extends the table's entry or is `text` |
| TypeMapping.MapDataTypeIgnoresCase | migrate_schema.py:217-220 | the lookup ignores the case of the type name |
| TypeMapping.MapDataTypeUnsuffixed | migrate_schema.py:222-230 | a type outside the character and decimal families is the table's entry whatever the length, precision and scale |
| TypeMapping.MapDataTypeCharLength | migrate_schema.py:222-226 | a character type of length -1 becomes `text`; a positive length `n` is appended as `(n)` and reads back as `n`; any other length leaves the entry alone |
| TypeMapping.MapDataTypeDecimal | migrate_schema.py:227-228 | `decimal`/`numeric` get `(p, s)` only when both precision and scale are non-zero; otherwise `numeric` |
| TypeMapping.PrecisionScaleReadBack | migrate_schema.py:227-228 | both numbers of the `numeric(p, s)` suffix read back |
| TypeMapping.FirstMatch | migrate_schema.py:267-272 | the position of the first rule whose pattern matches: no earlier rule matches, and the rule found does |
| TypeMapping.Scan | migrate_schema.py:267-272 | the rule loop stops at the first matching rule |
| TypeMapping.MapDefaultValue | migrate_schema.py:232-274 | `map_default_value`, with its parenthesis loop and rule scan, gives the specified clause or error |
| TypeMapping.DefaultShape | migrate_schema.py:234-235 | no DEFAULT clause exactly for a missing or empty default; any other accepted default is a `DEFAULT ...` clause |
| TypeMapping.StripParensResult | migrate_schema.py:237-239 | after the loop the text is stripped and not enclosed in parentheses |
| TypeMapping.NormalizeIdempotent | migrate_schema.py:237-239 | normalising twice is normalising once |
| TypeMapping.NormalizeEnclosed | migrate_schema.py:237-239 | one more layer of enclosing parentheses changes nothing |
| TypeMapping.DefaultIgnoresParens | migrate_schema.py:234-239 | any number of parentheses around a non-empty default gives the same result as the default alone |
| TypeMapping.NoBoundaryNoMatch | migrate_schema.py:256-258 | a default starting with a quote or a minus sign matches no pattern, since every pattern starts with `\b` |
| TypeMapping.QuotedRejected | migrate_schema.py:256-274 | quoted strings, negative numbers and `''` therefore get the unmapped-default error |
| TypeMapping.RulesKeepNumbers | migrate_schema.py:241-259 | the rule table has fourteen named patterns, then the quoted-string pattern, then the number pattern |
| TypeMapping.NumberKept | migrate_schema.py:257-272 | an unsigned decimal literal is kept as it is, except that on a `bit` column `0` and `1` become FALSE and TRUE |
| TypeMapping.NewIdDefault | migrate_schema.py:242-272 | a `NEWID()` call in any case gives `DEFAULT gen_random_uuid()` |
| TypeMapping.GetUtcDateDefault | migrate_schema.py:247-272 | a `GETUTCDATE()` call in any case gives `DEFAULT (CURRENT_TIMESTAMP AT TIME ZONE 'UTC')` |
| TypeMapping.MapDataTypeEndsSolid | migrate_schema.py:183-230 | a translated type never ends in whitespace |
| TypeMapping.DefaultEndsSolid | migrate_schema.py:232-274 | a DEFAULT clause never ends in whitespace |
| SchemaOrder.Keys | migrate_schema.py:154 | one `schema.table` key per input table, in order |
| SchemaOrder.FirstOccurrences | migrate_schema.py:154 | the keys of the in-degree dict: no duplicates, exactly the input keys |
| SchemaOrder.Without | migrate_schema.py:178 | the leftover keys are exactly those not yet placed |
| SchemaOrder.EdgesChar | migrate_schema.py:156-163 | there is an edge exactly for a foreign-key row of an input table that names another input table |
| SchemaOrder.TargetsIn | migrate_schema.py:158-161 | a table's successor list holds exactly the targets of its edges |
| SchemaOrder.PendingStep | migrate_schema.py:170-173 | placing a table releases exactly its outgoing edges |
| SchemaOrder.PendingZero | migrate_schema.py:170-173 | no pending edge into a table means every table it references is placed |
| SchemaOrder.ZeroDegreeRoots | migrate_schema.py:165 | the first queue is the keys, in order, that reference no in-scope table |
| SchemaOrder.RootsIn | migrate_schema.py:165 | the queued roots are exactly the keys with no edge into them, without duplicates |
| SchemaOrder.AddEdge | migrate_schema.py:159-163 | recording one edge keeps the adjacency lists and the counts in step |
| SchemaOrder.AddRow | migrate_schema.py:159-163 | a row naming an in-scope table adds one edge; any other row adds none |
| SchemaOrder.AddTableEdges | migrate_schema.py:156-163 | one table's rows add their in-scope edges to the graph and the counts |
| SchemaOrder.BuildGraph | migrate_schema.py:156-163 | the first loop gives the adjacency lists and in-degrees of exactly the edges between input tables |
| SchemaOrder.Release | migrate_schema.py:171-174 | the inner loop lowers each successor's count and queues those that reach zero |
| SchemaOrder.ReleaseOne | migrate_schema.py:171-174 | one successor's count drops by one, and it is queued when it reaches zero |
| SchemaOrder.ReleasedAll | migrate_schema.py:168-174 | once every successor is released, the counts are those of the placed set |
| SchemaOrder.PlacedAfterRefs | migrate_schema.py:168-174 | placing a table whose count is zero keeps every table after the tables it references |
| SchemaOrder.Releasing | migrate_schema.py:168-174 | the edges out of the placed table are the ones its placement releases |
| SchemaOrder.KahnComplete | migrate_schema.py:168-174 | without a cycle, the queue runs dry only once every table is placed |
| SchemaOrder.Kahn | migrate_schema.py:168-174 | Kahn's loop places distinct input keys, each after the keys it references, starting with the roots; without a cycle it places all of them |
| SchemaOrder.KahnStep | migrate_schema.py:168-174 | one turn places the head of the queue and keeps the loop invariant |
| SchemaOrder.KahnKeys | migrate_schema.py:153-174 | the key order, and the keys Kahn's algorithm placed in reference order |
| SchemaOrder.WithLeftoversPermutes | migrate_schema.py:176-179 | the placed keys, then the rest in first-occurrence order: every key exactly once |
| SchemaOrder.TopologicalSortKeys | migrate_schema.py:153-179 | the key list before the split is a duplicate-free ordering of all keys, reference-ordered on its placed prefix, with no leftovers when there is no cycle |
| SchemaOrder.TopologicalSortTables | migrate_schema.py:151-181 | for distinct dot-free names, a permutation of the input; without a cycle, every table after each table it references |
| SchemaOrder.SplitResult | migrate_schema.py:181 | the split of the ordered keys has both properties |
| SchemaOrder.PlainResult | migrate_schema.py:181 | for dot-free names, the split tables permute the input |
| SchemaOrder.PlainOrdering | migrate_schema.py:181 | the reference order of the keys carries over to the tables |
| SchemaOrder.LevelsImplyAcyclic | migrate_schema.py:156-174 | a ranking in which each referenced table sits on a lower level rules out a cycle, so every table is placed |
| SchemaOrder.SelfReferenceIsCycle | migrate_schema.py:159-163 | a table that references itself makes the references cyclic |
| SchemaOrder.SelfReferenceLeftOver | migrate_schema.py:168-179 | a table that references itself is never placed by Kahn's algorithm: its key is in the leftover tail of the order |
| PostgresSchema.NextQuote | postgres_schema.py:51 | the position of the next quote: none before it, and a quote there unless it is the end |
| PostgresSchema.MatchAt | postgres_schema.py:51 | a match attempt captures a non-empty name without a quote and moves forward |
| PostgresSchema.MatchAtSound | postgres_schema.py:51-53 | every successful attempt has matched `"g"."h"` |
| PostgresSchema.MatchAtComplete | postgres_schema.py:51-53 | every occurrence of `"g"."h"` is matched by the attempt at its start |
| PostgresSchema.ExtractSchemas | postgres_schema.py:49-55 | the `finditer` loop collects the names of the scan |
| PostgresSchema.ScanSound | postgres_schema.py:49-55 | every name found is the first name of an occurrence of `"g"."h"`, non-empty and without a quote |
| PostgresSchema.NoSeparatorNoSchemas | postgres_schema.py:49-55 | text without `"."` mentions no schema |
| PostgresSchema.ScanSkip | postgres_schema.py:49-55 | characters without a quote among them are skipped |
| PostgresSchema.CreateTableSchema | migrate_schema.py:295 | the CREATE TABLE statement of the schema stage yields its schema, for names without quotes |
| MigrateData.CeilDivBounds | migrate_data.py:48-54 | the batch count is the least `k` with `n <= k * size` |
| MigrateData.BatchesSpec | migrate_data.py:48-54 | the batches are non-empty, hold at most `size` rows, are all full but the last, number ceil(N / size), and together are exactly the rows |
| MigrateData.Cursor.FetchMany | migrate_data.py:51 | `fetchmany(size)` takes the next `size` rows, fewer at the end |
| MigrateData.FetchBatches | migrate_data.py:48-54 | the generator yields the specified batches and, for a positive size, drains the cursor |
| MigrateData.MaxOf | migrate_data.py:78-79 | `MAX` is None exactly on an empty table, and otherwise a copied id no smaller than any other |
| MigrateData.NextValueAbove | migrate_data.py:79-85 | the value passed to `setval` is `MAX(id) + 1`: one above the largest copied id, so above every copied id, and 1 on an empty table |
| MigrateData.SetvalsSpec | migrate_data.py:77-85 | one `setval` per identity column that has a sequence, and no other |
| MigrateData.ResyncIdSequences | migrate_data.py:68-85 | the resync loop issues the specified calls |
| MigrateData.QuotedNames | migrate_data.py:111 | each column name quoted with `quote_ident`, in order |
| MigrateData.CopyTable | migrate_data.py:104-127 | one insert per batch with the quoted statement; `total` is the number of rows sent, all of the cursor's for a positive batch size; then the resync |
| MigrateData.PiecesSnoc | migrate_data.py:60 | a line boundary starts a new line; any other character extends the last one |
| MigrateData.PiecesOfSave | migrate_data.py:60-65 | after a boundary, an appended key and newline add that key as a line |
| MigrateData.SaveThenLoad | migrate_data.py:57-65 | saving a clean key adds exactly that key to the next load |
| MigrateData.SaveEndsLine | migrate_data.py:63-65 | a saved file ends at a line boundary |
| MigrateData.SavedLoads | migrate_data.py:57-65 | the saved text loads as the text before it plus the key |
| MigrateData.LoadTextContents | migrate_data.py:57-60 | a missing file loads as no keys, like an empty one |
| MigrateData.CheckpointFile.Save | migrate_data.py:63-65 | `save_checkpoint` appends the key and a newline |
| MigrateData.SaveAllThenLoad | migrate_data.py:57-65 | a file written only by `save_checkpoint` loads back every key saved, plus what it held before |
| MigrateData.RunSpec | migrate_data.py:163-176 | tables in the checkpoint are not touched; every other table is copied or rolled back, according to whether its copy raised |
| MigrateData.CopiedKeysSpec | migrate_data.py:163-176 | the checkpoint gains a key only for a committed copy |
| MigrateData.CopyTables | migrate_data.py:163-176 | the table loop gives the specified steps and appends the keys of the committed copies |
| MigrateData.Migrate | migrate_data.py:153-179 | triggers are suspended first and constraints validated last exactly when not strict; the checkpoint gains the committed keys in order |
| MigrateData.RunKeys | migrate_data.py:163-176 | a table's key is saved exactly when it was not done and its copy committed |
| MigrateData.ResumeSkipsCopied | migrate_data.py:163-176 | after a run, the next load holds the old keys and those of the committed copies and nothing else, so a second run skips exactly those tables |
| MigrateScript.HexDigit | migrate_script.py:27 | a hexadecimal digit is `0`-`9` or `a`-`f` |
| MigrateScript.UnhexHex | migrate_script.py:27 | `hex()` reads back as the same bytes |
| MigrateScript.StrLiteralRoundTrip | migrate_script.py:22-23 | a string literal reads back as the string, and distinct strings give distinct literals |
| MigrateScript.BytesLiteralRoundTrip | migrate_script.py:26-27 | a bytes literal `E'\\x<hex>'` reads back as the same bytes |
| MigrateScript.TemporalLiteral | migrate_script.py:24-25 | a date/time is quoted without escaping, so it reads back only when it holds no quote |
| MigrateScript.NullLiteral | migrate_script.py:19-28 | `NULL` comes only from None; string, date/time and bytes literals are quoted |
| MigrateScript.SelectItemSpec | migrate_script.py:54-61 | a select item is a CAST exactly for geography, hierarchyid and sql_variant, and ends with the quoted column name; a plain item is the quoted name |
| MigrateScript.CastedSpec | migrate_script.py:54-59 | exactly the columns of the three special types are recorded, in order, with their lower-cased type |
| MigrateScript.RecordWellFormed | migrate_script.py:56-59 | one append keeps `casted_columns_map` well formed: a new key goes last and is listed once, and every list is non-empty |
| MigrateScript.RecordAllSpec | migrate_script.py:56-59 | the list under the key grows by the items, a new key goes last, nothing else changes, and a key with no item is not created |
| MigrateScript.InsertLinesFromRows | migrate_script.py:79-91 | every line written is the INSERT of a row that formatted |
| MigrateScript.InsertLinesCoverRows | migrate_script.py:79-91 | every row that formatted is written |
| MigrateScript.InsertLinesCount | migrate_script.py:79-91 | at most one line per row; one per row exactly when no row failed, and none exactly when all failed |
| MigrateScript.LtreePathSpec | migrate_script.py:115 | the converted path holds no slash and starts and ends with no separator |
| MigrateScript.SplitTableKey | migrate_script.py:103-104 | a key of dot-free names splits into its schema and table |
| MigrateScript.EntriesErr | migrate_script.py:103-104 | the post-processing script fails exactly when some key does not split |
| MigrateScript.EntriesFirstError | migrate_script.py:103-104 | once a key fails, the whole script fails with that error |
| MigrateScript.EntriesStep | migrate_script.py:103-116 | one more key adds its columns' entries, or stops the script |
| MigrateScript.ColumnWritesShape | migrate_script.py:105-130 | one column writes at most one CREATE EXTENSION, for a needed extension not yet enabled, before its conversion |
| MigrateScript.ExtensionsCreated | migrate_script.py:101-121 | an extension is created exactly when some column needs it |
| MigrateScript.ExtensionsOnce | migrate_script.py:101-121 | each CREATE EXTENSION is written at most once |
| MigrateScript.ExtensionBeforeUse | migrate_script.py:101-121 | every conversion comes after the CREATE EXTENSION it needs |
| MigrateScript.Conversions | migrate_script.py:105-130 | an ltree conversion for exactly each hierarchyid column and a geometry conversion for exactly each geography column; a sql_variant column gets none |
| MigrateScript.GeometryWithoutTable | migrate_script.py:123-126 | the geometry conversion starts with `ALTER COLUMN`, with no `ALTER TABLE` before it |
| MigrateScript.Exporter.constructor | migrate_script.py:10 | `casted_columns_map` starts empty |
| MigrateScript.Exporter.Append | migrate_script.py:56 | one `append` to `casted_columns_map` |
| MigrateScript.Exporter.SafeSelectClause | migrate_script.py:40-63 | one select item per column and the column names, in order; the map gains the cast columns under the table key |
| MigrateScript.Exporter.SelectColumn | migrate_script.py:51-61 | the item of one column, recorded in the map only when it is cast |
| MigrateScript.Exporter.ExportTable | migrate_script.py:65-96 | the file holds the INSERT lines of the formatted rows; nothing is written when the query fails; when the cursor raises mid-iteration the error escapes and the file stays with the lines written so far, even none; otherwise the file is removed when no row was written |
| MigrateScript.Exporter.GeneratePostprocessSql | migrate_script.py:98-130 | the writes of the post-processing script for the recorded columns, or the error of the first key that does not split |
| MigrateScript.WriteRows | migrate_script.py:79-91 | the row loop writes the specified lines |
| MigrateScript.TableWrites | migrate_script.py:103-130 | one table's columns extend the writes and the extension set as specified |
| MigrateScript.WriteColumn | migrate_script.py:105-130 | one column's writes, and the extensions it adds |
| VerifyMigration.Partition | verify_migration.py:181-193 | missing, extra and common tables are disjoint and cover both table sets; common is the intersection |
| VerifyMigration.CompareTables | verify_migration.py:181-195 | only tables present in both databases are counted; every such table whose counts differ is reported |
| VerifyMigration.DifferingSpec | verify_migration.py:43-50 | each entry is a table of the input whose two counts differ, and every such table is reported |
| VerifyMigration.DifferingSorted | verify_migration.py:43-50 | from a sorted table order, the report is sorted and has no duplicates |
| VerifyMigration.Elements | verify_migration.py:45 | iterating a set yields each element once |
| VerifyMigration.SortedTables | verify_migration.py:45 | `sorted(tables)` yields each table once, in ascending order |
| VerifyMigration.CompareDataCounts | verify_migration.py:43-50 | exactly the tables whose counts differ, in ascending order, each once; two failed counts count as equal |
| VerifyMigration.NormalizedKeys | verify_migration.py:105-106 | the dict has one key per normalised tuple |
| VerifyMigration.FirstSeenKeys | verify_migration.py:105-106 | the dict's key order holds exactly those keys, without duplicates |
| VerifyMigration.NormalizedLast | verify_migration.py:105-106 | each key keeps the last tuple with that key |
| VerifyMigration.UnmatchedSpec | verify_migration.py:108-109 | the list holds the values of the keys the other dict lacks, in key order |
| VerifyMigration.MissingInSpec | verify_migration.py:108-109 | each reported tuple comes from one side, and the other side has no tuple with its key; every such key is reported, none twice |
| VerifyMigration.MissingKeepsLast | verify_migration.py:105-109 | a reported tuple is the last on its side with its key |
| VerifyMigration.CompareForeignKeysSpec | verify_migration.py:101-111 | a foreign key on both sides, under any constraint names, is reported in neither list, and the two lists share no key |
| VerifyMigration.AddFk | verify_migration.py:125-146 | the constraint exists afterwards exactly when it existed or the ALTER TABLE succeeded; nothing is removed; consistency is kept |
| VerifyMigration.AddFkIdempotent | verify_migration.py:125-146 | adding the same foreign key again changes nothing |
| VerifyMigration.DropFk | verify_migration.py:114-122 | a confirmed drop removes the constraint; an unconfirmed one changes nothing |
| VerifyMigration.ConfirmedExactly | verify_migration.py:117-118 | only an answer that strips to `y` or `Y` confirms |
| VerifyMigration.Target.AddMissingFk | verify_migration.py:125-146 | `add_missing_fk` changes the catalogue as specified |
| VerifyMigration.Target.PromptDropFk | verify_migration.py:114-122 | `prompt_drop_fk` changes the catalogue as specified, or fails and leaves it alone |
| VerifyMigration.Target.constructor | verify_migration.py:175 | the catalogue as read from the connection |
| VerifyMigration.Target.Sync | verify_migration.py:205-211 | every missing key is offered to `add_missing_fk`, then every extra one to `prompt_drop_fk`; the first failing drop ends the run, leaving the catalogue as the additions and the drops before it made it |
| VerifyMigration.Target.AddEveryMissing | verify_migration.py:207-208 | the add loop applies each addition in order |
| VerifyMigration.Target.DropEveryExtra | verify_migration.py:210-211 | the drop loop applies each drop in order; on a failure the catalogue is the result of the drops before the failing one, which stay committed |
| VerifyMigration.DropAllFirstError | verify_migration.py:210-211 | once a drop has failed, the later ones are not tried |
| VerifyMigration.AddAllSpec | verify_migration.py:207-208 | after the add loop every successful or already existing constraint is there, and nothing was removed |
| Prompts.FirstFive | prompts.py:17 | `sample_values[:5]`: the first five samples, or all of them when there are fewer |
| Prompts.ColumnContextPromptLines | prompts.py:1-33 | the column prompt is its lines joined by newlines; `strip()` removes only the template's outer newlines |
| Prompts.ColumnTemplate | prompts.py:1-33 | the prompt is the stripped text of its template lines |
| Prompts.ColumnContextPromptSpec | prompts.py:2-31 | the column prompt opens with the task and the table, column, type, length, precision and scale lines, and ends with the instructions; it has a default, a samples and a description line exactly when each is given |
| Prompts.SamplesOptionalText | prompts.py:16-18 | the samples line shows the first five samples joined by `, ` |
| Prompts.SamplesLineText | prompts.py:16-18 | in the whole prompt, the samples line shows the first five samples |
| Prompts.SamplesBeyondFifth | prompts.py:16-18 | samples after the fifth do not change the prompt |
| Prompts.DefaultTemplate | prompts.py:35-53 | the default prompt is the stripped text of its template lines |
| Prompts.DefaultValuePromptLines | prompts.py:35-53 | the default prompt is its lines joined by newlines |
| Prompts.DefaultValuePromptSpec | prompts.py:36-51 | the default prompt states the table, column, type and default expression, ends with the instructions, and has a description line exactly when a description is given |
| Prompts.StripFramed | prompts.py:33 | stripping a newline-framed text whose inside starts and ends visibly gives back its inside |
| Prompts.VisibleEnds | prompts.py:3-51 | both templates start with `Y` and end with a visible character: `.` for the column prompt, `/` for the default prompt |
| Reports.SchemasSpec | reports.py:14-17 | each schema is listed once, and exactly the schemas of the tables are listed |
| Reports.TablesInCount | reports.py:14-17 | a schema's list holds each of its tables as often as the input does |
| Reports.GroupBySchema | reports.py:14-17 | the `defaultdict` loop maps each schema to its tables in order |
| Reports.BuildTablesSection | reports.py:14-20 | the section built is the specified one |
| Reports.SchemaLinesOf | reports.py:18-20 | the heading, then one line per schema in the given order |
| Reports.TablesSectionSpec | reports.py:14-20 | one line per schema of the tables, sorted and without duplicates, each listing that schema's tables |
| Reports.SortedSchemas | reports.py:18 | the sorted schemas are each listed once, and exactly those of the tables |
| Reports.TablesSectionCovers | reports.py:14-20 | every migrated table is listed, on its schema's line |
| Reports.TablesSectionOrderFree | reports.py:14-20 | the iteration order of the common-table set does not change the section |
| Reports.BuildRowCountSection | reports.py:23-28 | the section built is the specified one |
| Reports.MismatchLineNames | reports.py:26 | a row-count line is a list item that names its table first |
| Reports.RowCountLineAt | reports.py:23-28 | line `i + 1` is the line of mismatch `i` |
| Reports.RowCountSectionSpec | reports.py:23-28 | the section says that all counts match exactly when there is no mismatch; otherwise one line per mismatch, in order, naming the table |
| Reports.BuildMeanSection | reports.py:31-40 | the section built is the specified one |
| Reports.MeanLineNames | reports.py:34 | a mean line is a list item that names its column and type first |
| Reports.MeanSectionSpec | reports.py:31-40 | the section says all means match exactly when there is no mismatch, otherwise lists each column with its type; the full dump is copied line for line inside the `<details>` markers |
| Reports.BuildForeignKeySection | reports.py:43-48 | the section built is the specified one |
| Reports.FailedFkLineReason | reports.py:46 | a failed-key line is a list item ending with the reason in backquotes |
| Reports.ForeignKeyLineAt | reports.py:43-48 | line `i + 1` is the line of failure `i` |
| Reports.ForeignKeySectionSpec | reports.py:43-48 | the section says all keys were added exactly when none failed; otherwise one line per failure, ending with its reason |
| Reports.FixesSectionSpec | reports.py:51-73 | fixes are asked for exactly when a check found a problem; otherwise the report closes saying all checks passed; a model's answer appears stripped |
| Reports.GenerateVerificationReport | reports.py:8-76 | the report is the newline-joined lines, section by section |
| Reports.ReportOpening | reports.py:9-14 | the report opens with its title and timestamp, and the tables section follows the header line |

## Left out

- Database access (pyodbc, psycopg2), logging, progress bars and command-line parsing are not modelled. What a query returns is a parameter:
  - catalogue rows;
  - row counts;
  - `MAX` values and sequence names;
  - whether a table's copy raised (`copyOk`);
  - whether the export's SELECT ran (`queryOk`);
  - whether an `ALTER TABLE` succeeded (`succeeds`).
- The operator's answer to `input()`, the clock reading of the report and the language model's answer are parameters.
- Calls to the language model from the schema stage are not modelled. A type or default without a fixed translation ends in the `Err` case.
- Writing files is modelled as the text or lines written. A partly written `_convert_types.sql`, left behind when a key fails to split, is not modelled.
- `validate_constraints` and the trigger suspension of the data stage are modelled as the `Step`s they contribute. Their SQL is not modelled.
- Python set iteration order is unspecified. `VerifyMigration.Elements` yields an arbitrary duplicate-free sequence. `Reports.TablesSectionOrderFree` shows that the report does not depend on it.
- Text.Lower: case folding is ASCII-only, and so are `\w` and `\d` in the IGNORECASE patterns and the number pattern. Unicode case mapping and non-ASCII digits are not modelled.
- Python regular expressions are modelled as explicit predicates over the pattern shapes the tool uses. There is no general regular-expression engine.
- `MigrateScript.LtreePathSpec` states what the `regexp_replace`/`trim` of the generated SQL does to a path. That SQL runs in PostgreSQL, not in the tool.
- `MigrateData.PiecesSnoc`: `splitlines()` is modelled up to empty pieces. `load_checkpoint` drops those pieces, so loading is exact.
- Values are carried as the text `str()` makes of them. A missing value (`None`) and an empty text are both falsy, as in Python.
- Prompt templates are modelled as lists of lines, with the source's literal text.
- `Ddl.QuotedIsQuoteIdent`: the schema stage writes `"{name}"` without doubling an embedded quote. The model keeps this, and ties it to the standard delimited identifier only for names without a quote.
- `PostgresSchema.CreateTableSchema` is proved only for names without a double quote.
- `TypeMapping.NewIdDefault` and `TypeMapping.GetUtcDateDefault` prove the translation of two named default rules, and `TypeMapping.NumberKept` that of numbers. The other named rules (`GETDATE()`, `SYSDATETIME()`, `CURRENT_TIMESTAMP`, `USER`, `SUSER_SNAME()` and the rest) are covered only by `TypeMapping.FirstMatch`: the first matching rule decides.
- The main loop of `migrate_script.py`, `migrate_data_1.py`, `data_migration.py` and `UI.py` are not part of this model. They are an older variant, a second driver and a user interface around the same operations.
- NextValueAbove: the sequence's `is_called` flag is not modelled. The two-argument `setval` sets it, so the first id drawn after the copy is one above the value passed (2 on an empty table).
- The texts of the `ValueError` of an unsplittable key (`MigrateScript.UnpackError`) and of a failed `DROP CONSTRAINT` (`VerifyMigration.MissingConstraint`) are stand-ins. Only the failure is modelled.
- Integer widths are not modelled. Python integers are unbounded, as Dafny's are.
