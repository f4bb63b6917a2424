/**
 * The DDL half of the schema stage: the grouping of the foreign-key and
 * index rows read for one table, the CREATE TABLE, ALTER TABLE and
 * CREATE INDEX text generated from them, and the order in which the
 * statements of every table are written to the output file.
 */
module Ddl {
  import opened Text
  import opened Catalog
  import opened TypeMapping
  import opened Grouping
  import SchemaOrder

  // ---------------------------------------------------------------------
  // Names in the generated text
  // ---------------------------------------------------------------------

  /** `f'"{name}"'`: the generator puts names in double quotes and does
      not double a quote inside them. */
  function Quoted(name: string): string {
    "\"" + name + "\""
  }

  lemma {:induction false} DoubleNoop(s: string, q: char)
    requires q !in s
    ensures Double(s, q) == s
  {
    if s != [] {
      assert q !in s[1..];
      DoubleNoop(s[1..], q);
      assert s == [s[0]] + s[1..];
    }
  }

  /** For a name without a double quote, the generator's quoting is the
      delimited identifier of ISO/IEC 9075-2, section 5.2. */
  lemma QuotedIsQuoteIdent(name: string)
    requires '"' !in name
    ensures Quoted(name) == QuoteIdent(name)
    ensures Unquote(Quoted(name), '"') == Some(name)
  {
    DoubleNoop(name, '"');
    QuoteIdentRoundTrip(name);
  }

  function QuotedEach(names: seq<string>): (r: seq<string>)
    ensures |r| == |names|
    ensures forall i :: 0 <= i < |names| ==> r[i] == Quoted(names[i])
  {
    seq(|names|, i requires 0 <= i < |names| => Quoted(names[i]))
  }

  /** `', '.join([f'"{n}"' for n in names])`. */
  function QuotedList(names: seq<string>): string {
    Join(QuotedEach(names), ", ")
  }

  // ---------------------------------------------------------------------
  // The rows read for one table
  // ---------------------------------------------------------------------

  /** One row of the index query: index name and column name, the rows
      ordered by index name and key ordinal. */
  datatype IndexRow = IndexRow(name: string, column: string)

  /** What `get_sqlserver_schema` returns for a table that has columns:
      the column rows, the primary-key columns in ordinal order, the
      flattened foreign-key rows and the items of the `indexes` dict. */
  datatype TableSchema = TableSchema(
    columns: seq<ColumnRow>,
    primaryKeys: seq<string>,
    foreignKeys: seq<ForeignKeyRow>,
    indexes: seq<(string, seq<string>)>)

  function ConstraintOf(fk: ForeignKeyRow): string {
    fk.constraint
  }

  function IndexNameOf(r: IndexRow): string {
    r.name
  }

  /** `{col[0]: col[1].lower() for col in columns}`; a later column of the
      same name replaces an earlier one. */
  function ColumnTypes(columns: seq<ColumnRow>): (m: map<string, string>)
    ensures forall c :: c in columns ==> c.name in m
  {
    if columns == [] then map[]
    else
      var last := columns[|columns| - 1];
      var m := ColumnTypes(columns[..|columns| - 1]);
      assert forall c :: c in columns ==> c == last || c in columns[..|columns| - 1];
      m[last.name := Lower(last.dataType)]
  }

  /** The type stored under a name is the lowered type of the last column
      of that name. */
  lemma {:induction false} ColumnTypesSpec(columns: seq<ColumnRow>, i: int)
    requires 0 <= i < |columns|
    requires forall j :: i < j < |columns| ==> columns[j].name != columns[i].name
    ensures ColumnTypes(columns)[columns[i].name] == Lower(columns[i].dataType)
  {
    var init := columns[..|columns| - 1];
    if i < |columns| - 1 {
      ColumnTypesSpec(init, i);
    }
  }

  /** `column_data_types` has a key only for a column name. */
  lemma {:induction false} ColumnTypesKeys(columns: seq<ColumnRow>)
    ensures forall k :: k in ColumnTypes(columns) ==> exists c :: c in columns && c.name == k
  {
    if columns != [] {
      var init, last := columns[..|columns| - 1], columns[|columns| - 1];
      assert columns == init + [last];
      ColumnTypesKeys(init);
    }
  }

  /** `column_data_types.get(column_name) == 'xml'`. */
  predicate OnXml(r: IndexRow, types: map<string, string>) {
    r.column in types && types[r.column] == "xml"
  }

  /** The index rows the loop does not skip. */
  function Kept(rows: seq<IndexRow>, types: map<string, string>): (r: seq<IndexRow>)
    ensures forall x :: x in r ==> x in rows && !OnXml(x, types)
  {
    if rows == [] then []
    else
      var r := Kept(rows[..|rows| - 1], types);
      if OnXml(rows[|rows| - 1], types) then r else r + [rows[|rows| - 1]]
  }

  /** The loop loses no row that is not on an xml column: every such row is
      kept as often as it occurs, and an xml row never. */
  lemma {:induction false} KeptExactly(rows: seq<IndexRow>, types: map<string, string>)
    ensures forall x :: multiset(Kept(rows, types))[x] == if OnXml(x, types) then 0 else multiset(rows)[x]
    ensures forall x :: x in rows && !OnXml(x, types) ==> x in Kept(rows, types)
  {
    if rows != [] {
      var init, last := rows[..|rows| - 1], rows[|rows| - 1];
      assert rows == init + [last];
      KeptExactly(init, types);
    }
  }

  function IndexColumns(rows: seq<IndexRow>): (r: seq<string>)
    ensures |r| == |rows|
    ensures forall i :: 0 <= i < |rows| ==> r[i] == rows[i].column
  {
    seq(|rows|, i requires 0 <= i < |rows| => rows[i].column)
  }

  /** The items of the `indexes` dict built from `rows`: each index that
      keeps a column, in order of its first kept row, with its kept columns
      in row order. */
  function IndexItems(rows: seq<IndexRow>, types: map<string, string>): (r: seq<(string, seq<string>)>)
    ensures |r| == |InsertionOrder(Kept(rows, types), IndexNameOf)|
  {
    var kept := Kept(rows, types);
    var order := InsertionOrder(kept, IndexNameOf);
    seq(|order|, i requires 0 <= i < |order| => (order[i], IndexColumns(Filter(kept, IndexNameOf, order[i]))))
  }

  lemma KeptStep(rows: seq<IndexRow>, types: map<string, string>, i: nat)
    requires i < |rows|
    ensures Kept(rows[..i + 1], types) == Kept(rows[..i], types) + if OnXml(rows[i], types) then [] else [rows[i]]
  {
    assert rows[..i + 1][..i] == rows[..i];
  }

  /** `order` and `groups` are the `indexes` dict built from the kept rows. */
  ghost predicate IndexGrouped(kept: seq<IndexRow>, order: seq<string>, groups: map<string, seq<string>>) {
    && order == InsertionOrder(kept, IndexNameOf)
    && (forall k :: k in groups <==> k in order)
    && (forall k :: k in groups ==> groups[k] == IndexColumns(Filter(kept, IndexNameOf, k)))
  }

  lemma IndexGroupStep(kept: seq<IndexRow>, order: seq<string>, groups: map<string, seq<string>>, x: IndexRow)
    requires IndexGrouped(kept, order, groups)
    ensures var k := x.name;
      IndexGrouped(kept + [x],
                   if k in groups then order else order + [k],
                   groups[k := (if k in groups then groups[k] else []) + [x.column]])
  {
    var kept' := kept + [x];
    assert kept'[..|kept'| - 1] == kept;
    assert kept'[|kept'| - 1] == x;
    var k := x.name;
    var groups' := groups[k := (if k in groups then groups[k] else []) + [x.column]];
    FilterPresent(kept, IndexNameOf, k);
    forall k' | k' in groups' ensures groups'[k'] == IndexColumns(Filter(kept', IndexNameOf, k')) {
      var f := Filter(kept, IndexNameOf, k');
      if k' == k {
        assert Filter(kept', IndexNameOf, k') == f + [x];
        assert IndexColumns(f + [x]) == IndexColumns(f) + [x.column];
      } else {
        assert Filter(kept', IndexNameOf, k') == f;
      }
    }
  }

  /** No item of the `indexes` dict lists an xml column. */
  lemma IndexItemsNotXml(rows: seq<IndexRow>, types: map<string, string>)
    ensures var items := IndexItems(rows, types);
      forall i, c :: 0 <= i < |items| && c in items[i].1 ==> !(c in types && types[c] == "xml")
  {
    var items := IndexItems(rows, types);
    var kept := Kept(rows, types);
    forall i, c | 0 <= i < |items| && c in items[i].1 ensures !(c in types && types[c] == "xml") {
      var group := Filter(kept, IndexNameOf, items[i].0);
      var j :| 0 <= j < |items[i].1| && items[i].1[j] == c;
      assert group[j] in group;
    }
  }

  /** No other index column is lost: a row whose column is not xml has its
      column listed under its index's name. */
  lemma IndexItemsKeepOthers(rows: seq<IndexRow>, types: map<string, string>, x: IndexRow)
    requires x in rows && !OnXml(x, types)
    ensures var items := IndexItems(rows, types);
      exists i :: 0 <= i < |items| && items[i].0 == x.name && x.column in items[i].1
  {
    var kept := Kept(rows, types);
    var order := InsertionOrder(kept, IndexNameOf);
    var items := IndexItems(rows, types);
    KeptExactly(rows, types);
    var k :| 0 <= k < |kept| && kept[k] == x;
    InsertionOrderKeys(kept, IndexNameOf, x.name);
    assert IndexNameOf(kept[k]) == x.name;
    var i :| 0 <= i < |order| && order[i] == x.name;
    FilterCount(kept, IndexNameOf, x);
    var group := Filter(kept, IndexNameOf, x.name);
    assert x in multiset(group);
    var j :| 0 <= j < |group| && group[j] == x;
    assert items[i].1[j] == x.column;
  }

  /** One turn of the index loop. */
  lemma IndexRowStep(rows: seq<IndexRow>, types: map<string, string>, i: nat, order: seq<string>, groups: map<string, seq<string>>)
    requires i < |rows| && IndexGrouped(Kept(rows[..i], types), order, groups)
    ensures OnXml(rows[i], types) ==> IndexGrouped(Kept(rows[..i + 1], types), order, groups)
    ensures !OnXml(rows[i], types) ==>
      var k := rows[i].name;
      IndexGrouped(Kept(rows[..i + 1], types),
                   if k in groups then order else order + [k],
                   groups[k := (if k in groups then groups[k] else []) + [rows[i].column]])
  {
    KeptStep(rows, types, i);
    if OnXml(rows[i], types) {
      assert Kept(rows[..i + 1], types) == Kept(rows[..i], types);
    } else {
      assert Kept(rows[..i + 1], types) == Kept(rows[..i], types) + [rows[i]];
      IndexGroupStep(Kept(rows[..i], types), order, groups, rows[i]);
    }
  }

  /** The items of the finished dict are `IndexItems`. */
  lemma IndexItemsOfGrouping(rows: seq<IndexRow>, types: map<string, string>, order: seq<string>, groups: map<string, seq<string>>)
    requires IndexGrouped(Kept(rows, types), order, groups)
    ensures seq(|order|, i requires 0 <= i < |order| => (order[i], groups[order[i]])) == IndexItems(rows, types)
  {
    var items := seq(|order|, i requires 0 <= i < |order| => (order[i], groups[order[i]]));
    var spec := IndexItems(rows, types);
    forall i | 0 <= i < |order| ensures items[i] == spec[i] {
      assert groups[order[i]] == IndexColumns(Filter(Kept(rows, types), IndexNameOf, order[i]));
    }
  }

  /** The index loop of `get_sqlserver_schema`: rows on an xml column are
      skipped, every other row appends its column under its index name. */
  method GroupIndexes(rows: seq<IndexRow>, types: map<string, string>) returns (items: seq<(string, seq<string>)>)
    ensures items == IndexItems(rows, types)
    ensures forall i, c :: 0 <= i < |items| && c in items[i].1 ==> !(c in types && types[c] == "xml")
  {
    var order, groups := IndexDict(rows, types);
    IndexItemsOfGrouping(rows, types, order, groups);
    items := seq(|order|, i requires 0 <= i < |order| => (order[i], groups[order[i]]));
    IndexItemsNotXml(rows, types);
  }

  /** The loop itself: the `indexes` dict once every row is seen. */
  method IndexDict(rows: seq<IndexRow>, types: map<string, string>) returns (order: seq<string>, groups: map<string, seq<string>>)
    ensures IndexGrouped(Kept(rows, types), order, groups)
  {
    order := [];
    groups := map[];
    for i := 0 to |rows|
      invariant IndexGrouped(Kept(rows[..i], types), order, groups)
    {
      IndexRowStep(rows, types, i, order, groups);
      if OnXml(rows[i], types) {
        continue;
      }
      var k := rows[i].name;
      if k !in groups {
        order := order + [k];
        groups := groups[k := []];
      }
      groups := groups[k := groups[k] + [rows[i].column]];
    }
    assert rows[..|rows|] == rows;
  }

  /** The grouping part of `get_sqlserver_schema`: nothing for a table
      without columns; otherwise the foreign-key rows grouped by constraint
      name and flattened again, and the index rows grouped by index name. */
  method ReadSchema(columns: seq<ColumnRow>, primaryKeys: seq<string>, fkRows: seq<ForeignKeyRow>, indexRows: seq<IndexRow>)
    returns (r: Option<TableSchema>)
    ensures r.None? <==> columns == []
    ensures r.Some? ==> r.value.columns == columns && r.value.primaryKeys == primaryKeys
    ensures r.Some? ==> multiset(r.value.foreignKeys) == multiset(fkRows)
    ensures r.Some? ==> InsertionOrder(r.value.foreignKeys, ConstraintOf) == InsertionOrder(fkRows, ConstraintOf)
    ensures r.Some? ==> forall k :: Filter(r.value.foreignKeys, ConstraintOf, k) == Filter(fkRows, ConstraintOf, k)
    ensures r.Some? ==> r.value.indexes == IndexItems(indexRows, ColumnTypes(columns))
  {
    if columns == [] {
      return None;
    }
    var order, groups := GroupRows(fkRows, ConstraintOf);
    var flat := FlattenGroups(order, groups);
    Regroup(fkRows, ConstraintOf, order, groups);
    FlattenPermutes(fkRows, ConstraintOf, order, groups);
    var items := GroupIndexes(indexRows, ColumnTypes(columns));
    return Some(TableSchema(columns, primaryKeys, flat, items));
  }

  // ---------------------------------------------------------------------
  // generate_postgres_schema
  // ---------------------------------------------------------------------

  const IdentityClause := " GENERATED BY DEFAULT AS IDENTITY"

  function NullableClause(c: ColumnRow): string {
    if c.isNullable == "NO" then "NOT NULL" else ""
  }

  /** `pg_type` once the identity clause has been added. */
  function PgType(c: ColumnRow, mapped: string): string {
    if Truthy(c.isIdentity) then mapped + IdentityClause else mapped
  }

  /** One entry of `column_definitions`: the `ValueError` of
      `map_data_type` or, after it, of `map_default_value` is the `Err`
      case. */
  function ColumnDefinition(c: ColumnRow): Result<string, string> {
    match MapDataType(c.dataType, c.charMaxLength, c.precision, c.scale)
    case Err(e) => Err(e)
    case Ok(mapped) =>
      match MapDefault(Rules, c.columnDefault, c.dataType)
      case Err(e) => Err(e)
      case Ok(d) => Ok(Strip(Quoted(c.name) + " " + PgType(c, mapped) + " " + NullableClause(c) + " " + d))
  }

  /** What `strip()` leaves of `f'{col_name} {pg_type} {nullable} {default_value}'`
      when the type and the DEFAULT clause do not end in whitespace. */
  lemma StripDefinition(name: string, pgType: string, nullable: string, d: string)
    requires EndsSolid(pgType)
    requires nullable == "" || nullable == "NOT NULL"
    requires d == "" || EndsSolid(d)
    ensures var head := Quoted(name) + " " + pgType;
      Strip(head + " " + nullable + " " + d) ==
        if d == "" then (if nullable == "" then head else head + " NOT NULL")
        else head + " " + nullable + " " + d
  {
    var head := Quoted(name) + " " + pgType;
    assert head[0] == '"';
    assert head[|head| - 1] == pgType[|pgType| - 1];
    var text := head + " " + nullable + " " + d;
    if d == "" {
      if nullable == "" {
        assert text == [] + head + "  ";
        StripPadded([], head, "  ");
      } else {
        assert text == [] + (head + " NOT NULL") + " ";
        StripPadded([], head + " NOT NULL", " ");
      }
    } else {
      assert text[0] == '"';
      assert text[|text| - 1] == d[|d| - 1];
      StripNoop(text);
    }
  }

  /** The text of a column definition once `strip()` has run: the quoted
      name, the mapped type, the identity clause exactly when IsIdentity is
      set, `NOT NULL` exactly when IS_NULLABLE is 'NO', then the DEFAULT
      clause if there is one (after two blanks when the column is
      nullable). */
  lemma ColumnDefinitionText(c: ColumnRow, mapped: string, d: string)
    requires MapDataType(c.dataType, c.charMaxLength, c.precision, c.scale) == Ok(mapped)
    requires MapDefault(Rules, c.columnDefault, c.dataType) == Ok(d)
    ensures var head := Quoted(c.name) + " " + PgType(c, mapped);
      ColumnDefinition(c) == Ok(
        if d == "" then (if c.isNullable == "NO" then head + " NOT NULL" else head)
        else head + " " + NullableClause(c) + " " + d)
  {
    MapDataTypeEndsSolid(c.dataType, c.charMaxLength, c.precision, c.scale);
    RulesEndSolid();
    DefaultEndsSolid(Rules, c.columnDefault, c.dataType);
    PgTypeEndsSolid(c, mapped);
    StripDefinition(c.name, PgType(c, mapped), NullableClause(c), d);
  }

  lemma PgTypeEndsSolid(c: ColumnRow, mapped: string)
    requires EndsSolid(mapped)
    ensures EndsSolid(PgType(c, mapped))
  {
    var t := PgType(c, mapped);
    if Truthy(c.isIdentity) {
      assert t[|t| - 1] == IdentityClause[|IdentityClause| - 1];
    }
  }

  /** The column loop: every definition in column order, or the first
      error. */
  function ColumnDefinitions(columns: seq<ColumnRow>): Result<seq<string>, string> {
    MapAll(columns, ColumnDefinition)
  }

  /** One definition per column, in column order; the whole table fails
      with the error of its first failing column. */
  lemma ColumnDefinitionsSpec(columns: seq<ColumnRow>)
    ensures var r := ColumnDefinitions(columns);
      && (r.Ok? <==> forall i :: 0 <= i < |columns| ==> ColumnDefinition(columns[i]).Ok?)
      && (r.Ok? ==> |r.value| == |columns| && forall i :: 0 <= i < |columns| ==> ColumnDefinition(columns[i]) == Ok(r.value[i]))
      && (r.Err? ==> exists i :: 0 <= i < |columns| && ColumnDefinition(columns[i]) == Err(r.error) &&
                       forall j :: 0 <= j < i ==> ColumnDefinition(columns[j]).Ok?)
  {
    MapAllSpec(columns, ColumnDefinition);
  }

  /** `f'PRIMARY KEY ({pk_columns})'`, appended only for a non-empty key. */
  function PrimaryKeyPart(primaryKeys: seq<string>): seq<string> {
    if primaryKeys == [] then [] else ["PRIMARY KEY (" + QuotedList(primaryKeys) + ")"]
  }

  function CreateTable(schemaName: string, tableName: string, defs: seq<string>): string {
    "CREATE TABLE " + Quoted(schemaName) + "." + Quoted(tableName) + " (\n    " + Join(defs, ",\n    ") + "\n);\n\n"
  }

  function FkColumns(group: seq<ForeignKeyRow>): seq<string> {
    seq(|group|, i requires 0 <= i < |group| => group[i].column)
  }

  function RefColumns(group: seq<ForeignKeyRow>): seq<string> {
    seq(|group|, i requires 0 <= i < |group| => group[i].refColumn)
  }

  /** The ALTER TABLE statement of one constraint; the referenced table is
      taken from the constraint's first row. */
  function ForeignKeyStatement(schemaName: string, tableName: string, constraint: string, group: seq<ForeignKeyRow>): string
    requires group != []
  {
    "ALTER TABLE " + Quoted(schemaName) + "." + Quoted(tableName) + " "
    + "ADD CONSTRAINT " + Quoted(constraint) + " "
    + "FOREIGN KEY (" + QuotedList(FkColumns(group)) + ") "
    + "REFERENCES " + Quoted(group[0].refSchema) + "." + Quoted(group[0].refTable)
    + " (" + QuotedList(RefColumns(group)) + ");\n"
  }

  /** One ALTER TABLE per constraint name, in order of the constraint's
      first row, with its local and referenced columns in row order. */
  function ForeignKeyStatements(schemaName: string, tableName: string, fks: seq<ForeignKeyRow>): (r: seq<string>)
    ensures |r| == |InsertionOrder(fks, ConstraintOf)|
  {
    var order := InsertionOrder(fks, ConstraintOf);
    KeysHaveRows(fks, ConstraintOf);
    seq(|order|, i requires 0 <= i < |order| =>
      ForeignKeyStatement(schemaName, tableName, order[i], Filter(fks, ConstraintOf, order[i])))
  }

  function IndexStatement(schemaName: string, tableName: string, index: string, columns: seq<string>): string {
    "CREATE INDEX " + Quoted(index) + " ON " + Quoted(schemaName) + "." + Quoted(tableName)
    + " (" + QuotedList(columns) + ");\n"
  }

  /** One CREATE INDEX per item of the `indexes` dict, in its order. */
  function IndexStatements(schemaName: string, tableName: string, items: seq<(string, seq<string>)>): (r: seq<string>)
    ensures |r| == |items|
  {
    seq(|items|, i requires 0 <= i < |items| => IndexStatement(schemaName, tableName, items[i].0, items[i].1))
  }

  /** What `generate_postgres_schema` returns for one table. */
  datatype TableDdl = TableDdl(create: string, foreignKeys: seq<string>, indexes: seq<string>)

  function Generate(s: TableSchema, schemaName: string, tableName: string): Result<TableDdl, string> {
    match ColumnDefinitions(s.columns)
    case Err(e) => Err(e)
    case Ok(defs) =>
      Ok(TableDdl(
        CreateTable(schemaName, tableName, defs + PrimaryKeyPart(s.primaryKeys)),
        ForeignKeyStatements(schemaName, tableName, s.foreignKeys),
        IndexStatements(schemaName, tableName, s.indexes)))
  }

  /** The column loop of `generate_postgres_schema`. */
  method DefineColumns(columns: seq<ColumnRow>) returns (r: Result<seq<string>, string>)
    ensures r == ColumnDefinitions(columns)
  {
    var defs: seq<string> := [];
    for i := 0 to |columns|
      invariant MapAll(columns[..i], ColumnDefinition) == Ok(defs)
    {
      var c := columns[i];
      assert columns[..i + 1][..i] == columns[..i];
      var mapped := MapDataType(c.dataType, c.charMaxLength, c.precision, c.scale);
      if mapped.Err? {
        assert MapAll(columns[..i + 1], ColumnDefinition) == Err(mapped.error);
        MapAllFirstError(columns, ColumnDefinition, i + 1);
        return Err(mapped.error);
      }
      var d := MapDefaultValue(c.columnDefault, c.dataType);
      if d.Err? {
        assert MapAll(columns[..i + 1], ColumnDefinition) == Err(d.error);
        MapAllFirstError(columns, ColumnDefinition, i + 1);
        return Err(d.error);
      }
      var pgType := mapped.value;
      if Truthy(c.isIdentity) {
        pgType := pgType + IdentityClause;
      }
      var nullable := if c.isNullable == "NO" then "NOT NULL" else "";
      defs := defs + [Strip(Quoted(c.name) + " " + pgType + " " + nullable + " " + d.value)];
    }
    assert columns[..|columns|] == columns;
    return Ok(defs);
  }

  /** The foreign-key loop of `generate_postgres_schema`: group by
      constraint name, then one statement per group. */
  method DefineForeignKeys(schemaName: string, tableName: string, fks: seq<ForeignKeyRow>) returns (stmts: seq<string>)
    ensures stmts == ForeignKeyStatements(schemaName, tableName, fks)
  {
    var order, groups := GroupRows(fks, ConstraintOf);
    GroupsNonEmpty(fks, ConstraintOf, order, groups);
    stmts := StatementPerGroup(schemaName, tableName, order, groups);
    ghost var spec := ForeignKeyStatements(schemaName, tableName, fks);
    forall j | 0 <= j < |order| ensures stmts[j] == spec[j] {
      assert groups[order[j]] == Filter(fks, ConstraintOf, order[j]);
    }
  }

  /** `for constraint, group in fk_groups.items()`: one statement per group. */
  method StatementPerGroup(schemaName: string, tableName: string, order: seq<string>, groups: map<string, seq<ForeignKeyRow>>)
    returns (stmts: seq<string>)
    requires forall o :: o in order ==> o in groups && groups[o] != []
    ensures |stmts| == |order|
    ensures forall j :: 0 <= j < |order| ==>
      stmts[j] == ForeignKeyStatement(schemaName, tableName, order[j], groups[order[j]])
  {
    stmts := [];
    for i := 0 to |order|
      invariant |stmts| == i
      invariant forall j :: 0 <= j < i ==>
        stmts[j] == ForeignKeyStatement(schemaName, tableName, order[j], groups[order[j]])
    {
      stmts := stmts + [ForeignKeyStatement(schemaName, tableName, order[i], groups[order[i]])];
    }
  }

  /** The index loop of `generate_postgres_schema`. */
  method DefineIndexes(schemaName: string, tableName: string, items: seq<(string, seq<string>)>) returns (stmts: seq<string>)
    ensures stmts == IndexStatements(schemaName, tableName, items)
  {
    stmts := [];
    for i := 0 to |items|
      invariant stmts == IndexStatements(schemaName, tableName, items[..i])
    {
      var (index, columns) := items[i];
      stmts := stmts + [IndexStatement(schemaName, tableName, index, columns)];
      assert items[..i + 1] == items[..i] + [items[i]];
    }
    assert items[..|items|] == items;
  }

  /** `generate_postgres_schema(columns, primary_keys, foreign_keys,
      indexes, schema_name, table_name)`. */
  method GeneratePostgresSchema(s: TableSchema, schemaName: string, tableName: string) returns (r: Result<TableDdl, string>)
    ensures r == Generate(s, schemaName, tableName)
  {
    var defs := DefineColumns(s.columns);
    if defs.Err? {
      return Err(defs.error);
    }
    var columnDefinitions := defs.value;
    if s.primaryKeys != [] {
      columnDefinitions := columnDefinitions + ["PRIMARY KEY (" + QuotedList(s.primaryKeys) + ")"];
    }
    assert columnDefinitions == defs.value + PrimaryKeyPart(s.primaryKeys);
    var create := CreateTable(schemaName, tableName, columnDefinitions);
    var fkStatements := DefineForeignKeys(schemaName, tableName, s.foreignKeys);
    var indexStatements := DefineIndexes(schemaName, tableName, s.indexes);
    return Ok(TableDdl(create, fkStatements, indexStatements));
  }

  /** Reading the rows through `get_sqlserver_schema`'s grouping and
      flattening changes none of the ALTER TABLE statements. */
  lemma ReadForeignKeysSameStatements(fkRows: seq<ForeignKeyRow>, read: seq<ForeignKeyRow>, schemaName: string, tableName: string)
    requires InsertionOrder(read, ConstraintOf) == InsertionOrder(fkRows, ConstraintOf)
    requires forall k :: Filter(read, ConstraintOf, k) == Filter(fkRows, ConstraintOf, k)
    ensures ForeignKeyStatements(schemaName, tableName, read) == ForeignKeyStatements(schemaName, tableName, fkRows)
  {
    var a := ForeignKeyStatements(schemaName, tableName, read);
    var b := ForeignKeyStatements(schemaName, tableName, fkRows);
    forall i | 0 <= i < |a| ensures a[i] == b[i] {
      var k := InsertionOrder(read, ConstraintOf)[i];
      assert Filter(read, ConstraintOf, k) == Filter(fkRows, ConstraintOf, k);
    }
  }

  // ---------------------------------------------------------------------
  // main: the order of the output file
  // ---------------------------------------------------------------------

  const ExtensionComments: string :=
    "-- Enable PostGIS extension for geometry type\n"
    + "CREATE EXTENSION IF NOT EXISTS postgis;\n\n"
    + "-- Enable ltree extension for hierarchical data\n"
    + "CREATE EXTENSION IF NOT EXISTS ltree;\n\n"

  /** Writing the statements one after another. */
  function Concat(parts: seq<string>): string {
    if parts == [] then [] else Concat(parts[..|parts| - 1]) + parts[|parts| - 1]
  }

  /** The three lists `main` collects. */
  datatype Statements = Statements(creates: seq<string>, foreignKeys: seq<string>, indexes: seq<string>)

  /** The file: the extension comments, every CREATE TABLE, every ALTER
      TABLE, every CREATE INDEX. */
  function Document(st: Statements): string {
    ExtensionComments + Concat(st.creates) + Concat(st.foreignKeys) + Concat(st.indexes)
  }

  /** `generate_postgres_schema` for the table `t`. */
  function GenerateFor(s: TableSchema, t: Table): Result<TableDdl, string> {
    Generate(s, t.0, t.1)
  }

  /** `schemas` holds what `get_sqlserver_schema` returned for each table
      that has columns; a table missing from it is skipped. The first
      `ValueError` of `gen` ends the run. */
  function Collect(sorted: seq<Table>, schemas: map<Table, TableSchema>, gen: (TableSchema, Table) -> Result<TableDdl, string>): Result<Statements, string> {
    if sorted == [] then Ok(Statements([], [], []))
    else
      match Collect(sorted[..|sorted| - 1], schemas, gen)
      case Err(e) => Err(e)
      case Ok(st) =>
        var t := sorted[|sorted| - 1];
        if t !in schemas then Ok(st)
        else
          match gen(schemas[t], t)
          case Err(e) => Err(e)
          case Ok(ddl) => Ok(Statements(st.creates + [ddl.create], st.foreignKeys + ddl.foreignKeys, st.indexes + ddl.indexes))
  }

  /** The tables of `sorted` whose schema was read, in order. */
  function Present(sorted: seq<Table>, schemas: map<Table, TableSchema>): (r: seq<Table>)
    ensures forall t :: t in r <==> t in sorted && t in schemas
  {
    if sorted == [] then []
    else
      var r := Present(sorted[..|sorted| - 1], schemas);
      var t := sorted[|sorted| - 1];
      assert forall u :: u in sorted <==> u in sorted[..|sorted| - 1] || u == t;
      if t in schemas then r + [t] else r
  }

  /** One CREATE TABLE per table that has columns, in the order of
      `sorted`; the run fails exactly when one of those tables fails. */
  lemma CollectSpec(sorted: seq<Table>, schemas: map<Table, TableSchema>, gen: (TableSchema, Table) -> Result<TableDdl, string>)
    ensures var r := Collect(sorted, schemas, gen); var w := Present(sorted, schemas);
      && (r.Ok? <==> forall j :: 0 <= j < |w| ==> gen(schemas[w[j]], w[j]).Ok?)
      && (r.Ok? ==> |r.value.creates| == |w| &&
                    forall j :: 0 <= j < |w| ==> r.value.creates[j] == gen(schemas[w[j]], w[j]).value.create)
  {
    CollectOk(sorted, schemas, gen);
    CollectCreates(sorted, schemas, gen);
  }

  /** Every table of `w` has a schema and generates without error. */
  predicate AllGenerate(w: seq<Table>, schemas: map<Table, TableSchema>, gen: (TableSchema, Table) -> Result<TableDdl, string>) {
    forall j :: 0 <= j < |w| ==> w[j] in schemas && gen(schemas[w[j]], w[j]).Ok?
  }

  lemma AllGenerateSnoc(w0: seq<Table>, t: Table, schemas: map<Table, TableSchema>, gen: (TableSchema, Table) -> Result<TableDdl, string>)
    ensures AllGenerate(w0 + [t], schemas, gen) <==> AllGenerate(w0, schemas, gen) && t in schemas && gen(schemas[t], t).Ok?
  {
    assert forall j :: 0 <= j < |w0| ==> (w0 + [t])[j] == w0[j];
    assert (w0 + [t])[|w0|] == t;
  }

  lemma {:induction false} CollectOk(sorted: seq<Table>, schemas: map<Table, TableSchema>, gen: (TableSchema, Table) -> Result<TableDdl, string>)
    ensures Collect(sorted, schemas, gen).Ok? <==> AllGenerate(Present(sorted, schemas), schemas, gen)
  {
    if sorted != [] {
      var init := sorted[..|sorted| - 1];
      var t := sorted[|sorted| - 1];
      var w0 := Present(init, schemas);
      CollectOk(init, schemas, gen);
      if t in schemas {
        assert Present(sorted, schemas) == w0 + [t];
        AllGenerateSnoc(w0, t, schemas, gen);
      } else {
        assert Present(sorted, schemas) == w0;
      }
    }
  }

  lemma {:induction false} CollectCreates(sorted: seq<Table>, schemas: map<Table, TableSchema>, gen: (TableSchema, Table) -> Result<TableDdl, string>)
    ensures var r := Collect(sorted, schemas, gen); var w := Present(sorted, schemas);
      r.Ok? ==> AllGenerate(w, schemas, gen) && |r.value.creates| == |w| &&
                forall j :: 0 <= j < |w| ==> r.value.creates[j] == gen(schemas[w[j]], w[j]).value.create
  {
    CollectOk(sorted, schemas, gen);
    if sorted != [] {
      var init := sorted[..|sorted| - 1];
      var t := sorted[|sorted| - 1];
      var w0 := Present(init, schemas);
      CollectCreates(init, schemas, gen);
      if t in schemas && Collect(init, schemas, gen).Ok? && gen(schemas[t], t).Ok? {
        var st := Collect(init, schemas, gen).value;
        var c := st.creates + [gen(schemas[t], t).value.create];
        var w := w0 + [t];
        assert Present(sorted, schemas) == w;
        assert Collect(sorted, schemas, gen).value.creates == c;
        forall j | 0 <= j < |w| ensures c[j] == gen(schemas[w[j]], w[j]).value.create {
          if j < |w0| {
            assert c[j] == st.creates[j] && w[j] == w0[j];
          }
        }
      } else if t !in schemas {
        assert Present(sorted, schemas) == w0;
      }
    }
  }

  /** Once a table has failed, the rest are not looked at. */
  lemma {:induction false} CollectFirstError(sorted: seq<Table>, schemas: map<Table, TableSchema>, gen: (TableSchema, Table) -> Result<TableDdl, string>, n: nat)
    requires n <= |sorted| && Collect(sorted[..n], schemas, gen).Err?
    ensures Collect(sorted, schemas, gen) == Collect(sorted[..n], schemas, gen)
    decreases |sorted|
  {
    if n == |sorted| {
      assert sorted[..n] == sorted;
    } else {
      var init := sorted[..|sorted| - 1];
      assert init[..n] == sorted[..n];
      CollectFirstError(init, schemas, gen, n);
    }
  }

  function DocumentOf(r: Result<Statements, string>): Result<string, string> {
    match r
    case Ok(st) => Ok(Document(st))
    case Err(e) => Err(e)
  }

  /** `foreign_keys_map`: the foreign-key rows of every table whose schema
      was read, keyed by `schema.table`. */
  function ForeignKeysMap(tables: seq<Table>, schemas: map<Table, TableSchema>): map<string, seq<ForeignKeyRow>> {
    if tables == [] then map[]
    else
      var m := ForeignKeysMap(tables[..|tables| - 1], schemas);
      var t := tables[|tables| - 1];
      if t in schemas then m[Key(t) := schemas[t].foreignKeys] else m
  }

  /** `for stmt in parts: f.write(stmt)`. */
  method WriteAll(text: string, parts: seq<string>) returns (out: string)
    ensures out == text + Concat(parts)
  {
    out := text;
    for i := 0 to |parts|
      invariant out == text + Concat(parts[..i])
    {
      out := out + parts[i];
      assert parts[..i + 1][..i] == parts[..i];
    }
    assert parts[..|parts|] == parts;
  }

  /** Writing the file: the extension comments, then the three lists. */
  method WriteFile(st: Statements) returns (text: string)
    ensures text == Document(st)
  {
    text := ExtensionComments;
    text := WriteAll(text, st.creates);
    text := WriteAll(text, st.foreignKeys);
    text := WriteAll(text, st.indexes);
  }

  /** The loop of `main` that fills `foreign_keys_map`. */
  method BuildForeignKeysMap(tables: seq<Table>, schemas: map<Table, TableSchema>) returns (fkMap: map<string, seq<ForeignKeyRow>>)
    ensures fkMap == ForeignKeysMap(tables, schemas)
  {
    fkMap := map[];
    for i := 0 to |tables|
      invariant fkMap == ForeignKeysMap(tables[..i], schemas)
    {
      assert tables[..i + 1][..i] == tables[..i];
      var t := tables[i];
      if t in schemas {
        fkMap := fkMap[Key(t) := schemas[t].foreignKeys];
      }
    }
    assert tables[..|tables|] == tables;
  }

  /** The loop of `main` over the sorted tables: one
      `generate_postgres_schema` per table that has columns. */
  method CollectStatements(sorted: seq<Table>, schemas: map<Table, TableSchema>) returns (r: Result<Statements, string>)
    ensures r == Collect(sorted, schemas, GenerateFor)
  {
    var creates: seq<string> := [];
    var fks: seq<string> := [];
    var indexes: seq<string> := [];
    for i := 0 to |sorted|
      invariant Collect(sorted[..i], schemas, GenerateFor) == Ok(Statements(creates, fks, indexes))
    {
      assert sorted[..i + 1][..i] == sorted[..i];
      var t := sorted[i];
      if t in schemas {
        var ddl := GeneratePostgresSchema(schemas[t], t.0, t.1);
        assert ddl == GenerateFor(schemas[t], t);
        if ddl.Err? {
          CollectFirstError(sorted, schemas, GenerateFor, i + 1);
          return Err(ddl.error);
        }
        creates := creates + [ddl.value.create];
        fks := fks + ddl.value.foreignKeys;
        indexes := indexes + ddl.value.indexes;
      }
    }
    assert sorted[..|sorted|] == sorted;
    return Ok(Statements(creates, fks, indexes));
  }

  /** `main` after the table list has been read: an empty list ends the
      run before any file is written; otherwise the foreign-key map, the
      topological sort, one `generate_postgres_schema` per sorted table
      that has columns, and the file in the order extensions, CREATE
      TABLEs, ALTER TABLEs, CREATE INDEXes. */
  method MigrateSchemas(tables: seq<Table>, schemas: map<Table, TableSchema>) returns (sorted: seq<Table>, r: Result<string, string>)
    ensures PlainTables(tables) ==> multiset(sorted) == multiset(tables)
    ensures PlainTables(tables) && SchemaOrder.AcyclicReferences(tables, ForeignKeysMap(tables, schemas)) ==>
      forall i, j :: (0 <= i < |sorted| && 0 <= j < |sorted| &&
        SchemaOrder.References(ForeignKeysMap(tables, schemas), sorted[j], sorted[i])) ==> i < j
    ensures tables == [] ==> sorted == [] && r.Err?
    ensures tables != [] ==> r == DocumentOf(Collect(sorted, schemas, GenerateFor))
  {
    if tables == [] {
      return [], Err("No tables found or error occurred. Exiting.");
    }
    var fkMap := BuildForeignKeysMap(tables, schemas);
    ghost var keys: seq<string>;
    ghost var ordered: nat;
    sorted, keys, ordered := SchemaOrder.TopologicalSortTables(tables, fkMap);
    var st := CollectStatements(sorted, schemas);
    match st
    case Err(e) =>
      r := Err(e);
    case Ok(statements) =>
      var text := WriteFile(statements);
      r := Ok(text);
  }
}
