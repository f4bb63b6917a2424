/**
 * `generate_verification_report` (reports.py:8-76): the Markdown report
 * written at the end of a migration. The report is a list of lines built
 * section by section and joined with newlines. The clock reading and the
 * outcome of the request for suggested fixes are inputs; the report text
 * is the result (writing it to a file is not modelled).
 */
module Reports {
  import opened Text
  import opened Catalog
  import opened Order
  import VerifyMigration

  /** A column whose mean differs: the printed means and the column's type. */
  datatype MeanMismatch = MeanMismatch(schema: string, table: string, column: string,
                                       srcValue: string, dstValue: string, dataType: string)

  /** A foreign key that could not be added, with the error's text. */
  type FailedFk = (VerifyMigration.Fk, string)

  /** What asking for suggested fixes gave: the model's answer, no API key
      in the environment, or an exception with its message. */
  datatype Suggestion = Answered(text: string) | NoKey | Failed(error: string)

  const Title := "# Database Migration Verification Report\nGenerated: "
  const TablesHeading := "## Migrated Tables"
  const RowCountHeading := "\n## Row Count Mismatches"
  const AllRowsMatch := "All row counts match."
  const MeanHeading := "\n## Column-wise Mean Summary"
  const AllMeansMatch := "All numeric/datetime means match."
  const DumpOpen := "\n<details><summary>\U{1F4CA} Full Mean Dump</summary>\n\n```"
  const DumpClose := "```\n</details>"
  const ForeignKeyHeading := "\n## Foreign Keys Failed to Add"
  const AllForeignKeysAdded := "All foreign keys added successfully."
  const FixesHeading := "\n## \U{1F527} Suggested Fixes (via Gemini)"
  const NoKeyNote := "_Gemini API key not found. Unable to provide suggestions._"
  const AllPassed := "\n## \U{2705} All checks passed without critical issues."

  function Header(timestamp: string): string {
    Title + timestamp + "\n"
  }

  // ---------------------------------------------------------------------
  // Migrated tables, grouped by schema
  // ---------------------------------------------------------------------

  /** The keys of `schema_table_map` in insertion order: each schema where
      it first occurs. */
  function Schemas(tables: seq<Table>): seq<string> {
    if tables == [] then []
    else
      var init := Schemas(tables[..|tables| - 1]);
      var schema := tables[|tables| - 1].0;
      if schema in init then init else init + [schema]
  }

  /** The list `schema_table_map[schema]`: the tables of `schema`, in order. */
  function TablesIn(tables: seq<Table>, schema: string): seq<string> {
    if tables == [] then []
    else
      var last := tables[|tables| - 1];
      TablesIn(tables[..|tables| - 1], schema) + (if last.0 == schema then [last.1] else [])
  }

  /** Some table belongs to `schema`. */
  predicate HasSchema(tables: seq<Table>, schema: string) {
    exists i :: 0 <= i < |tables| && tables[i].0 == schema
  }

  /** Each schema is listed once, and exactly the schemas of the tables are. */
  lemma {:induction false} SchemasSpec(tables: seq<Table>)
    ensures Distinct(Schemas(tables))
    ensures forall s :: s in Schemas(tables) <==> HasSchema(tables, s)
  {
    if tables != [] {
      var init := tables[..|tables| - 1];
      SchemasSpec(init);
      forall s ensures HasSchema(tables, s) <==> HasSchema(init, s) || tables[|tables| - 1].0 == s {
        if i :| 0 <= i < |tables| && tables[i].0 == s {
          if i < |init| {
            assert init[i] == tables[i];
          }
        }
        if i :| 0 <= i < |init| && init[i].0 == s {
          assert tables[i] == init[i];
        }
      }
    }
  }

  /** A schema's list holds each of its tables as often as the input does. */
  lemma {:induction false} TablesInCount(tables: seq<Table>, schema: string, table: string)
    ensures multiset(TablesIn(tables, schema))[table] == multiset(tables)[(schema, table)]
  {
    if tables != [] {
      var init := tables[..|tables| - 1];
      TablesInCount(init, schema, table);
      assert tables == init + [tables[|tables| - 1]];
    }
  }

  /** The loop that fills the `defaultdict`: `keys` is its key order. */
  method GroupBySchema(tables: seq<Table>) returns (keys: seq<string>, groups: map<string, seq<string>>)
    ensures keys == Schemas(tables)
    ensures forall s :: s in groups <==> s in keys
    ensures forall s :: s in groups ==> groups[s] == TablesIn(tables, s)
  {
    keys, groups := [], map[];
    var i := 0;
    while i < |tables|
      invariant 0 <= i <= |tables|
      invariant keys == Schemas(tables[..i])
      invariant forall s :: s in groups <==> s in keys
      invariant forall s :: s in groups ==> groups[s] == TablesIn(tables[..i], s)
      invariant forall s :: s !in groups ==> TablesIn(tables[..i], s) == []
    {
      var (schema, table) := tables[i];
      assert tables[..i + 1][..i] == tables[..i];
      if schema !in groups {
        keys := keys + [schema];
        groups := groups[schema := []];
      }
      groups := groups[schema := groups[schema] + [table]];
      i := i + 1;
    }
    assert tables[..i] == tables;
  }

  /** One schema's line; its tables are listed sorted. */
  function SchemaLine(schema: string, tables: seq<string>): string {
    "- **" + schema + "**: " + Join(SortStrings(tables), ", ")
  }

  function SchemaLines(tables: seq<Table>, schemas: seq<string>): seq<string> {
    seq(|schemas|, k requires 0 <= k < |schemas| => SchemaLine(schemas[k], TablesIn(tables, schemas[k])))
  }

  function TablesSection(tables: seq<Table>): seq<string> {
    [TablesHeading] + SchemaLines(tables, SortStrings(Schemas(tables)))
  }

  lemma SchemaLinesSnoc(tables: seq<Table>, schemas: seq<string>, i: nat)
    requires i < |schemas|
    ensures SchemaLines(tables, schemas[..i + 1])
      == SchemaLines(tables, schemas[..i]) + [SchemaLine(schemas[i], TablesIn(tables, schemas[i]))]
  {
  }

  /** The section: the map is filled, then its keys are visited sorted. */
  method BuildTablesSection(tables: seq<Table>) returns (section: seq<string>)
    ensures section == TablesSection(tables)
  {
    var keys, groups := GroupBySchema(tables);
    var schemas := SortStrings(keys);
    forall s | s in schemas ensures s in groups {
      assert s in multiset(keys);
    }
    section := SchemaLinesOf(tables, schemas, groups);
  }

  /** The loop over the sorted schemas, reading each one's list from the map. */
  method SchemaLinesOf(tables: seq<Table>, schemas: seq<string>, groups: map<string, seq<string>>)
    returns (section: seq<string>)
    requires forall s :: s in schemas ==> s in groups && groups[s] == TablesIn(tables, s)
    ensures section == [TablesHeading] + SchemaLines(tables, schemas)
  {
    section := [TablesHeading];
    var i := 0;
    while i < |schemas|
      invariant 0 <= i <= |schemas|
      invariant section == [TablesHeading] + SchemaLines(tables, schemas[..i])
    {
      section := section + [SchemaLine(schemas[i], groups[schemas[i]])];
      SchemaLinesSnoc(tables, schemas, i);
      i := i + 1;
    }
    assert schemas[..i] == schemas;
  }

  /** One line per schema of the migrated tables, in sorted order and with
      no schema twice, each listing that schema's tables. */
  lemma TablesSectionSpec(tables: seq<Table>)
    ensures var schemas := SortStrings(Schemas(tables));
      && SortedBy(schemas, StrLe) && Distinct(schemas)
      && (forall s :: s in schemas <==> HasSchema(tables, s))
      && |TablesSection(tables)| == |schemas| + 1
      && forall k :: 0 <= k < |schemas| ==>
           TablesSection(tables)[k + 1] == SchemaLine(schemas[k], TablesIn(tables, schemas[k]))
  {
    SortedSchemas(tables);
    var schemas := SortStrings(Schemas(tables));
    assert TablesSection(tables) == [TablesHeading] + SchemaLines(tables, schemas);
    HeadedLines(tables, schemas);
  }

  /** Below the heading, line `k + 1` is the line of the `k`-th schema. */
  lemma HeadedLines(tables: seq<Table>, schemas: seq<string>)
    ensures var section := [TablesHeading] + SchemaLines(tables, schemas);
      && |section| == |schemas| + 1
      && forall k :: 0 <= k < |schemas| ==> section[k + 1] == SchemaLine(schemas[k], TablesIn(tables, schemas[k]))
  {
    var section := [TablesHeading] + SchemaLines(tables, schemas);
    forall k | 0 <= k < |schemas|
      ensures section[k + 1] == SchemaLine(schemas[k], TablesIn(tables, schemas[k]))
    {
      assert section[k + 1] == SchemaLines(tables, schemas)[k];
    }
  }

  /** The schemas, sorted: each once, and exactly those of the tables. */
  lemma SortedSchemas(tables: seq<Table>)
    ensures var schemas := SortStrings(Schemas(tables));
      && Distinct(schemas) && forall s :: s in schemas <==> HasSchema(tables, s)
  {
    var schemas := SortStrings(Schemas(tables));
    SchemasSpec(tables);
    SamePermutationDistinct(Schemas(tables), schemas);
    forall s ensures s in schemas <==> s in Schemas(tables) {
      assert s in schemas <==> s in multiset(schemas);
      assert s in Schemas(tables) <==> s in multiset(Schemas(tables));
    }
  }

  /** Every migrated table is listed, on the line of its schema. */
  lemma TablesSectionCovers(tables: seq<Table>, i: nat)
    requires i < |tables|
    ensures SchemaLine(tables[i].0, TablesIn(tables, tables[i].0)) in TablesSection(tables)
    ensures tables[i].1 in TablesIn(tables, tables[i].0)
  {
    var schemas := SortStrings(Schemas(tables));
    TablesSectionSpec(tables);
    assert HasSchema(tables, tables[i].0);
    var k :| 0 <= k < |schemas| && schemas[k] == tables[i].0;
    assert TablesSection(tables)[k + 1] == SchemaLine(tables[i].0, TablesIn(tables, tables[i].0));
    TablesInCount(tables, tables[i].0, tables[i].1);
    assert tables[i] in multiset(tables);
  }

  /** `common_tables` is a set: the order in which it is iterated does not
      change the section, because both the schemas and each schema's
      tables are sorted before they are printed. */
  lemma TablesSectionOrderFree(a: seq<Table>, b: seq<Table>)
    requires multiset(a) == multiset(b)
    ensures TablesSection(a) == TablesSection(b)
  {
    SchemasSpec(a);
    SchemasSpec(b);
    forall s ensures s in Schemas(a) <==> s in Schemas(b) {
      if i :| 0 <= i < |a| && a[i].0 == s {
        assert a[i] in multiset(b);
      }
      if i :| 0 <= i < |b| && b[i].0 == s {
        assert b[i] in multiset(a);
      }
    }
    DistinctMultiset(Schemas(a), Schemas(b));
    SortedStringsUnique(SortStrings(Schemas(a)), SortStrings(Schemas(b)));
    forall s ensures SortStrings(TablesIn(a, s)) == SortStrings(TablesIn(b, s)) {
      forall t ensures multiset(TablesIn(a, s))[t] == multiset(TablesIn(b, s))[t] {
        TablesInCount(a, s, t);
        TablesInCount(b, s, t);
      }
      assert multiset(TablesIn(a, s)) == multiset(TablesIn(b, s));
      SortedStringsUnique(SortStrings(TablesIn(a, s)), SortStrings(TablesIn(b, s)));
    }
  }

  // ---------------------------------------------------------------------
  // Row counts, means and foreign keys
  // ---------------------------------------------------------------------

  function MismatchLine(m: VerifyMigration.Mismatch): string {
    "- " + m.table.0 + "." + m.table.1 + ": SQL Server = " + IntOrNoneToString(m.srcCount)
      + ", PostgreSQL = " + IntOrNoneToString(m.dstCount)
  }

  function MeanLine(m: MeanMismatch): string {
    "- " + m.schema + "." + m.table + "." + m.column + " [" + m.dataType + "]: SQL Server = "
      + m.srcValue + ", PostgreSQL = " + m.dstValue
  }

  function FailedFkLine(f: FailedFk): string {
    var fk := f.0;
    "- " + fk.schema + "." + fk.table + "." + fk.column + " \U{2192} "
      + fk.refSchema + "." + fk.refTable + "." + fk.refColumn + " (" + fk.constraint + "): `" + f.1 + "`"
  }

  function MismatchLines(ms: seq<VerifyMigration.Mismatch>): seq<string> {
    seq(|ms|, i requires 0 <= i < |ms| => MismatchLine(ms[i]))
  }

  lemma MismatchLinesSnoc(ms: seq<VerifyMigration.Mismatch>, i: nat)
    requires i < |ms|
    ensures MismatchLines(ms[..i + 1]) == MismatchLines(ms[..i]) + [MismatchLine(ms[i])]
  {
  }

  function MeanLines(ms: seq<MeanMismatch>): seq<string> {
    seq(|ms|, i requires 0 <= i < |ms| => MeanLine(ms[i]))
  }

  lemma MeanLinesSnoc(ms: seq<MeanMismatch>, i: nat)
    requires i < |ms|
    ensures MeanLines(ms[..i + 1]) == MeanLines(ms[..i]) + [MeanLine(ms[i])]
  {
  }

  function FailedFkLines(fs: seq<FailedFk>): seq<string> {
    seq(|fs|, i requires 0 <= i < |fs| => FailedFkLine(fs[i]))
  }

  lemma FailedFkLinesSnoc(fs: seq<FailedFk>, i: nat)
    requires i < |fs|
    ensures FailedFkLines(fs[..i + 1]) == FailedFkLines(fs[..i]) + [FailedFkLine(fs[i])]
  {
  }

  function RowCountSection(ms: seq<VerifyMigration.Mismatch>): seq<string> {
    [RowCountHeading] + if ms == [] then [AllRowsMatch] else MismatchLines(ms)
  }

  function MeanSection(ms: seq<MeanMismatch>, allMeans: seq<string>): seq<string> {
    [MeanHeading] + (if ms == [] then [AllMeansMatch] else MeanLines(ms))
      + [DumpOpen] + allMeans + [DumpClose]
  }

  function ForeignKeySection(fs: seq<FailedFk>): seq<string> {
    [ForeignKeyHeading] + if fs == [] then [AllForeignKeysAdded] else FailedFkLines(fs)
  }

  /** The report line for the suggestion request's outcome. */
  function SuggestionLine(g: Suggestion): string {
    match g
    case Answered(text) => Strip(text)
    case NoKey => NoKeyNote
    case Failed(error) => "_Gemini suggestion failed: " + error + "_"
  }

  function FixesSection(rows: seq<VerifyMigration.Mismatch>, means: seq<MeanMismatch>,
                        fks: seq<FailedFk>, g: Suggestion): seq<string> {
    if fks != [] || means != [] || rows != [] then [FixesHeading, SuggestionLine(g)]
    else [AllPassed]
  }

  method BuildRowCountSection(ms: seq<VerifyMigration.Mismatch>) returns (section: seq<string>)
    ensures section == RowCountSection(ms)
  {
    section := [RowCountHeading];
    if ms != [] {
      var i := 0;
      while i < |ms|
        invariant 0 <= i <= |ms|
        invariant section == [RowCountHeading] + MismatchLines(ms[..i])
      {
        section := section + [MismatchLine(ms[i])];
        MismatchLinesSnoc(ms, i);
        i := i + 1;
      }
      assert ms[..i] == ms;
    } else {
      section := section + [AllRowsMatch];
    }
  }

  method BuildMeanSection(ms: seq<MeanMismatch>, allMeans: seq<string>) returns (section: seq<string>)
    ensures section == MeanSection(ms, allMeans)
  {
    section := [MeanHeading];
    if ms != [] {
      var i := 0;
      while i < |ms|
        invariant 0 <= i <= |ms|
        invariant section == [MeanHeading] + MeanLines(ms[..i])
      {
        section := section + [MeanLine(ms[i])];
        MeanLinesSnoc(ms, i);
        i := i + 1;
      }
      assert ms[..i] == ms;
    } else {
      section := section + [AllMeansMatch];
    }
    section := section + [DumpOpen];
    section := section + allMeans;
    section := section + [DumpClose];
  }

  method BuildForeignKeySection(fs: seq<FailedFk>) returns (section: seq<string>)
    ensures section == ForeignKeySection(fs)
  {
    section := [ForeignKeyHeading];
    if fs != [] {
      var i := 0;
      while i < |fs|
        invariant 0 <= i <= |fs|
        invariant section == [ForeignKeyHeading] + FailedFkLines(fs[..i])
      {
        section := section + [FailedFkLine(fs[i])];
        FailedFkLinesSnoc(fs, i);
        i := i + 1;
      }
      assert fs[..i] == fs;
    } else {
      section := section + [AllForeignKeysAdded];
    }
  }

  /** A row-count line is a list item that names its table first. */
  lemma MismatchLineNames(m: VerifyMigration.Mismatch)
    ensures MismatchLine(m)[0] == '-'
    ensures StartsWith(MismatchLine(m), "- " + m.table.0 + "." + m.table.1 + ": ")
  {
    var prefix := "- " + m.table.0 + "." + m.table.1 + ": ";
    assert MismatchLine(m) == prefix + ("SQL Server = " + IntOrNoneToString(m.srcCount)
      + ", PostgreSQL = " + IntOrNoneToString(m.dstCount));
  }

  /** A mean line is a list item that names its column and its type first. */
  lemma MeanLineNames(m: MeanMismatch)
    ensures MeanLine(m)[0] == '-'
    ensures StartsWith(MeanLine(m), "- " + m.schema + "." + m.table + "." + m.column + " [" + m.dataType + "]: ")
  {
    var prefix := "- " + m.schema + "." + m.table + "." + m.column + " [" + m.dataType + "]: ";
    assert MeanLine(m) == prefix + ("SQL Server = " + m.srcValue + ", PostgreSQL = " + m.dstValue);
  }

  /** A failed-key line is a list item that ends with the reason, quoted. */
  lemma FailedFkLineReason(f: FailedFk)
    ensures FailedFkLine(f)[0] == '-'
    ensures EndsWith(FailedFkLine(f), ": `" + f.1 + "`")
  {
    var fk := f.0;
    var head := "- " + fk.schema + "." + fk.table + "." + fk.column + " \U{2192} "
      + fk.refSchema + "." + fk.refTable + "." + fk.refColumn + " (" + fk.constraint + ")";
    assert FailedFkLine(f) == head + (": `" + f.1 + "`");
  }

  /** Line `i + 1` of the row-count section is the line of mismatch `i`. */
  lemma RowCountLineAt(ms: seq<VerifyMigration.Mismatch>, i: nat)
    requires i < |ms|
    ensures RowCountSection(ms)[i + 1][0] == '-'
    ensures StartsWith(RowCountSection(ms)[i + 1], "- " + ms[i].table.0 + "." + ms[i].table.1 + ": ")
  {
    assert RowCountSection(ms)[i + 1] == MismatchLines(ms)[i];
    MismatchLineNames(ms[i]);
  }

  /** The row-count section says that all counts match exactly when there
      is no mismatch; otherwise it has one line per mismatch, in order,
      naming the table. */
  lemma RowCountSectionSpec(ms: seq<VerifyMigration.Mismatch>)
    ensures AllRowsMatch in RowCountSection(ms) <==> ms == []
    ensures ms != [] ==> |RowCountSection(ms)| == |ms| + 1
    ensures ms != [] ==> forall i :: 0 <= i < |ms| ==>
      StartsWith(RowCountSection(ms)[i + 1], "- " + ms[i].table.0 + "." + ms[i].table.1 + ": ")
  {
    var section := RowCountSection(ms);
    if ms != [] {
      forall k | 0 <= k < |section| ensures section[k] != AllRowsMatch {
        if k == 0 {
          assert section[0][0] != AllRowsMatch[0];
        } else {
          RowCountLineAt(ms, k - 1);
        }
      }
      forall i | 0 <= i < |ms|
        ensures StartsWith(section[i + 1], "- " + ms[i].table.0 + "." + ms[i].table.1 + ": ")
      {
        RowCountLineAt(ms, i);
      }
    }
  }

  /** The mean section says that all means match exactly when there is no
      mismatch, otherwise it lists each mismatching column with its type;
      the full dump is copied line for line between the `<details>`
      markers that close the section. */
  lemma MeanSectionSpec(ms: seq<MeanMismatch>, allMeans: seq<string>)
    ensures MeanSection(ms, allMeans)[1] == AllMeansMatch <==> ms == []
    ensures ms != [] ==> forall i :: 0 <= i < |ms| ==>
      StartsWith(MeanSection(ms, allMeans)[i + 1],
                 "- " + ms[i].schema + "." + ms[i].table + "." + ms[i].column + " [" + ms[i].dataType + "]: ")
    ensures var section := MeanSection(ms, allMeans);
      var start := |section| - |allMeans| - 1;
      && start >= 3
      && section[start - 1] == DumpOpen
      && section[start..start + |allMeans|] == allMeans
      && section[|section| - 1] == DumpClose
  {
    var section := MeanSection(ms, allMeans);
    if ms != [] {
      forall i | 0 <= i < |ms|
        ensures StartsWith(section[i + 1],
                           "- " + ms[i].schema + "." + ms[i].table + "." + ms[i].column + " [" + ms[i].dataType + "]: ")
        ensures section[i + 1][0] == '-'
      {
        MeanLineNames(ms[i]);
        assert section[i + 1] == MeanLine(ms[i]);
      }
    }
  }

  /** Line `i + 1` of the foreign-key section is the line of failure `i`. */
  lemma ForeignKeyLineAt(fs: seq<FailedFk>, i: nat)
    requires i < |fs|
    ensures ForeignKeySection(fs)[i + 1][0] == '-'
    ensures EndsWith(ForeignKeySection(fs)[i + 1], ": `" + fs[i].1 + "`")
  {
    assert ForeignKeySection(fs)[i + 1] == FailedFkLines(fs)[i];
    FailedFkLineReason(fs[i]);
  }

  /** The foreign-key section says that all keys were added exactly when
      none failed; otherwise each failure has a line ending with its
      reason in backquotes. */
  lemma ForeignKeySectionSpec(fs: seq<FailedFk>)
    ensures AllForeignKeysAdded in ForeignKeySection(fs) <==> fs == []
    ensures fs != [] ==> |ForeignKeySection(fs)| == |fs| + 1
    ensures fs != [] ==> forall i :: 0 <= i < |fs| ==>
      EndsWith(ForeignKeySection(fs)[i + 1], ": `" + fs[i].1 + "`")
  {
    var section := ForeignKeySection(fs);
    if fs != [] {
      forall k | 0 <= k < |section| ensures section[k] != AllForeignKeysAdded {
        if k == 0 {
          assert section[0][0] != AllForeignKeysAdded[0];
        } else {
          ForeignKeyLineAt(fs, k - 1);
        }
      }
      forall i | 0 <= i < |fs| ensures EndsWith(section[i + 1], ": `" + fs[i].1 + "`") {
        ForeignKeyLineAt(fs, i);
      }
    }
  }

  /** Suggested fixes are asked for exactly when some check found a
      problem; otherwise the report closes by saying all checks passed. A
      model's answer is reported without surrounding whitespace. */
  lemma FixesSectionSpec(rows: seq<VerifyMigration.Mismatch>, means: seq<MeanMismatch>,
                         fks: seq<FailedFk>, g: Suggestion)
    ensures var section := FixesSection(rows, means, fks, g);
      && (section[0] == FixesHeading <==> rows != [] || means != [] || fks != [])
      && (section == [AllPassed] <==> rows == [] && means == [] && fks == [])
    ensures var section := FixesSection(rows, means, fks, g);
      g.Answered? && |section| == 2 ==>
        var line := section[1];
        line == [] || (!IsSpace(line[0]) && !IsSpace(line[|line| - 1]))
  {
    assert FixesHeading[4] != AllPassed[4];
  }

  // ---------------------------------------------------------------------
  // The report
  // ---------------------------------------------------------------------

  function ReportLines(tables: seq<Table>, rows: seq<VerifyMigration.Mismatch>, means: seq<MeanMismatch>,
                       allMeans: seq<string>, fks: seq<FailedFk>, timestamp: string, g: Suggestion): seq<string> {
    [Header(timestamp)] + TablesSection(tables) + RowCountSection(rows) + MeanSection(means, allMeans)
      + ForeignKeySection(fks) + FixesSection(rows, means, fks, g)
  }

  /** `generate_verification_report`: the lines are appended section by
      section and the file's content is their newline-joined text. */
  method GenerateVerificationReport(tables: seq<Table>, rows: seq<VerifyMigration.Mismatch>,
                                    means: seq<MeanMismatch>, allMeans: seq<string>, fks: seq<FailedFk>,
                                    timestamp: string, g: Suggestion)
    returns (report: string)
    ensures report == Join(ReportLines(tables, rows, means, allMeans, fks, timestamp, g), "\n")
  {
    var lines := [Header(timestamp)];
    var section := BuildTablesSection(tables);
    lines := lines + section;
    section := BuildRowCountSection(rows);
    lines := lines + section;
    section := BuildMeanSection(means, allMeans);
    lines := lines + section;
    section := BuildForeignKeySection(fks);
    lines := lines + section;
    if fks != [] || means != [] || rows != [] {
      lines := lines + [FixesHeading, SuggestionLine(g)];
    } else {
      lines := lines + [AllPassed];
    }
    report := Join(lines, "\n");
  }

  /** The report opens with its title and the time it was generated, and
      the table section follows the header line. */
  lemma ReportOpening(tables: seq<Table>, rows: seq<VerifyMigration.Mismatch>, means: seq<MeanMismatch>,
                      allMeans: seq<string>, fks: seq<FailedFk>, timestamp: string, g: Suggestion)
    ensures var text := Join(ReportLines(tables, rows, means, allMeans, fks, timestamp, g), "\n");
      var opening := Title + timestamp;
      |opening| <= |text| && text[..|opening|] == opening
    ensures ReportLines(tables, rows, means, allMeans, fks, timestamp, g)[1] == TablesHeading
  {
    var lines := ReportLines(tables, rows, means, allMeans, fks, timestamp, g);
    var text := Join(lines, "\n");
    JoinEnds(lines, "\n");
    assert lines[0] == Header(timestamp);
    assert text[..|Title + timestamp|] == text[..|Header(timestamp)|][..|Title + timestamp|];
  }
}
