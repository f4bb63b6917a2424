/**
 * The export stage (`migrate_script.py`): SQL Server rows written out as
 * PostgreSQL INSERT scripts, one per table, and a post-processing script
 * that converts back the columns the export had to read as text
 * (geography, hierarchyid, sql_variant).
 */
module MigrateScript {
  import opened Text
  import opened Catalog

  // ---------------------------------------------------------------------
  // quote_literal
  // ---------------------------------------------------------------------

  newtype Byte = x: int | 0 <= x < 256

  /** The values a fetched row holds, told apart as `quote_literal` does.
      Date/time values and everything else are carried as their `str(val)`. */
  datatype Value =
    | Null                    // None
    | Str(s: string)          // str
    | Temporal(text: string)  // datetime.datetime, datetime.date, datetime.time
    | Bytes(b: seq<Byte>)     // bytes
    | Other(text: string)     // any other value, as str(val)

  /** One lower-case hexadecimal digit, as `bytes.hex()` writes it. */
  function HexDigit(n: int): (c: char)
    requires 0 <= n < 16
    ensures ('0' <= c <= '9') || ('a' <= c <= 'f')
  {
    if n < 10 then ('0' as int + n) as char else ('a' as int + n - 10) as char
  }

  function HexValue(c: char): Option<int> {
    if '0' <= c <= '9' then Some(c as int - '0' as int)
    else if 'a' <= c <= 'f' then Some(c as int - 'a' as int + 10)
    else None
  }

  /** `val.hex()`: two digits per byte, high nibble first. */
  function Hex(b: seq<Byte>): (r: string)
    ensures |r| == 2 * |b|
  {
    if b == [] then []
    else [HexDigit(b[0] as int / 16), HexDigit(b[0] as int % 16)] + Hex(b[1..])
  }

  /** `bytes.fromhex` restricted to the digits `Hex` writes. */
  function Unhex(s: string): Option<seq<Byte>>
    decreases |s|
  {
    if s == [] then Some([])
    else if |s| == 1 then None
    else
      match (HexValue(s[0]), HexValue(s[1]), Unhex(s[2..]))
      case (Some(hi), Some(lo), Some(rest)) =>
        if 0 <= hi < 16 && 0 <= lo < 16 then Some([(hi * 16 + lo) as Byte] + rest) else None
      case _ => None
  }

  lemma {:induction false} UnhexHex(b: seq<Byte>)
    ensures Unhex(Hex(b)) == Some(b)
  {
    if b != [] {
      var h := Hex(b);
      var x := b[0] as int;
      assert h[2..] == Hex(b[1..]);
      assert HexValue(h[0]) == Some(x / 16);
      assert HexValue(h[1]) == Some(x % 16);
      UnhexHex(b[1..]);
      assert [b[0]] + b[1..] == b;
    }
  }

  /** `quote_literal`, migrate_script.py:19-28. */
  function QuoteLiteral(v: Value): string {
    match v
    case Null => "NULL"
    case Str(s) => QuoteString(s)
    case Temporal(t) => "'" + t + "'"
    case Bytes(b) => "E'\\\\x" + Hex(b) + "'"
    case Other(t) => t
  }

  /** Reads an `E'\\x…'` bytea literal back into its bytes. */
  function DecodeBytea(t: string): Option<seq<Byte>> {
    if |t| >= 6 && t[..5] == "E'\\\\x" && t[|t| - 1] == '\'' then Unhex(t[5..|t| - 1]) else None
  }

  /** A string literal reads back as the string, with its quotes undoubled
      (ISO/IEC 9075-2, section 5.3), and distinct strings give distinct
      literals. */
  lemma StrLiteralRoundTrip(s: string)
    ensures Unquote(QuoteLiteral(Str(s)), '\'') == Some(s)
    ensures forall t :: QuoteLiteral(Str(t)) == QuoteLiteral(Str(s)) ==> t == s
  {
    QuoteStringRoundTrip(s);
  }

  /** A bytes value written as `E'\\x<hex>'` reads back as the same bytes. */
  lemma BytesLiteralRoundTrip(b: seq<Byte>)
    ensures DecodeBytea(QuoteLiteral(Bytes(b))) == Some(b)
  {
    var t := QuoteLiteral(Bytes(b));
    assert t[..5] == "E'\\\\x";
    assert t[5..|t| - 1] == Hex(b);
    UnhexHex(b);
  }

  /** A date/time is wrapped in quotes without escaping: its text reads
      back only when it holds no quote of its own. */
  lemma {:induction false} TemporalLiteral(t: string)
    requires '\'' !in t
    ensures Unquote(QuoteLiteral(Temporal(t)), '\'') == Some(t)
  {
    NoQuoteUndoubled(t);
    var l := QuoteLiteral(Temporal(t));
    assert l[1..|l| - 1] == t;
  }

  lemma {:induction false} NoQuoteUndoubled(t: string)
    requires '\'' !in t
    ensures Undouble(t, '\'') == Some(t)
  {
    if t != [] {
      assert t[0] in t;
      assert forall k :: 0 <= k < |t[1..]| ==> t[1..][k] == t[k + 1];
      NoQuoteUndoubled(t[1..]);
      assert [t[0]] + t[1..] == t;
    }
  }

  /** `NULL` comes only from None: string, date/time and bytes literals are
      all quoted. */
  lemma NullLiteral(v: Value)
    requires !v.Other?
    ensures QuoteLiteral(v) == "NULL" <==> v.Null?
  {
    var l := QuoteLiteral(v);
    if !v.Null? {
      assert l[0] == '\'' || l[0] == 'E';
    }
  }

  // ---------------------------------------------------------------------
  // get_safe_select_clause
  // ---------------------------------------------------------------------

  /** The lower-cased data types that cannot be read as they are. */
  predicate IsCast(dtype: string) {
    dtype == "geography" || dtype == "hierarchyid" || dtype == "sql_variant"
  }

  /** The select item for one column, migrate_script.py:54-61. */
  function SelectItem(col: string, dtype: string): string {
    var q := QuoteIdent(col);
    if dtype == "geography" then "CAST(" + q + " AS VARCHAR(2048)) AS " + q
    else if dtype == "hierarchyid" || dtype == "sql_variant" then "CAST(" + q + " AS VARCHAR) AS " + q
    else q
  }

  /** A column as INFORMATION_SCHEMA.COLUMNS gives it: (COLUMN_NAME, DATA_TYPE). */
  type Column = (string, string)

  /** The select list, one item per column in ordinal order. */
  function SelectList(columns: seq<Column>): seq<string> {
    seq(|columns|, i requires 0 <= i < |columns| => SelectItem(columns[i].0, Lower(columns[i].1)))
  }

  lemma SelectListSnoc(columns: seq<Column>, i: nat)
    requires i < |columns|
    ensures SelectList(columns[..i + 1]) == SelectList(columns[..i]) + [SelectItem(columns[i].0, Lower(columns[i].1))]
  {
    var a := SelectList(columns[..i + 1]);
    var b := SelectList(columns[..i]) + [SelectItem(columns[i].0, Lower(columns[i].1))];
    assert |a| == |b|;
    forall k | 0 <= k < |a|
      ensures a[k] == b[k]
    {
      assert columns[..i + 1][k] == columns[k];
    }
  }

  /** The columns recorded in `casted_columns_map`, with the lower-cased type. */
  function Casted(columns: seq<Column>): seq<Column> {
    if columns == [] then []
    else
      var c := columns[|columns| - 1];
      Casted(columns[..|columns| - 1]) + (if IsCast(Lower(c.1)) then [(c.0, Lower(c.1))] else [])
  }

  lemma CastedSnoc(columns: seq<Column>, i: nat)
    requires i < |columns|
    ensures var c := columns[i];
      Casted(columns[..i + 1]) == Casted(columns[..i]) + (if IsCast(Lower(c.1)) then [(c.0, Lower(c.1))] else [])
  {
    assert columns[..i + 1][..i] == columns[..i];
  }

  /** A select item is a CAST exactly for the three special types; either
      way it is named after its column, and a plain item is just the quoted
      column name. */
  lemma SelectItemSpec(col: string, dtype: string)
    ensures var item := SelectItem(col, dtype);
      && ((|item| >= 5 && item[..5] == "CAST(") <==> IsCast(dtype))
      && |item| >= |QuoteIdent(col)|
      && item[|item| - |QuoteIdent(col)|..] == QuoteIdent(col)
      && (!IsCast(dtype) ==> Unquote(item, '"') == Some(col))
  {
    var q := QuoteIdent(col);
    var item := SelectItem(col, dtype);
    if !IsCast(dtype) {
      QuoteIdentRoundTrip(col);
      assert item[0] == '"';
    } else {
      assert item[..5] == "CAST(";
    }
  }

  /** Exactly the columns of the three special types are recorded, in
      order, with their lower-cased type. */
  lemma {:induction false} CastedSpec(columns: seq<Column>)
    ensures forall x :: x in Casted(columns) ==>
      IsCast(x.1) && exists i :: 0 <= i < |columns| && columns[i].0 == x.0 && Lower(columns[i].1) == x.1
    ensures forall i :: 0 <= i < |columns| && IsCast(Lower(columns[i].1)) ==>
      (columns[i].0, Lower(columns[i].1)) in Casted(columns)
    ensures |Casted(columns)| <= |columns|
  {
    if columns != [] {
      var init := columns[..|columns| - 1];
      CastedSpec(init);
      forall x | x in Casted(columns)
        ensures IsCast(x.1) && exists i :: 0 <= i < |columns| && columns[i].0 == x.0 && Lower(columns[i].1) == x.1
      {
        if x in Casted(init) {
          var i :| 0 <= i < |init| && init[i].0 == x.0 && Lower(init[i].1) == x.1;
          assert columns[i] == init[i];
        } else {
          assert columns[|columns| - 1].0 == x.0;
        }
      }
      forall i | 0 <= i < |columns| && IsCast(Lower(columns[i].1))
        ensures (columns[i].0, Lower(columns[i].1)) in Casted(columns)
      {
        if i < |init| {
          assert columns[i] == init[i];
        }
      }
    }
  }

  /** The contents of `casted_columns_map`: its keys in insertion order (a
      defaultdict iterates in that order) and the list under each key. */
  datatype CastMap = CastMap(order: seq<string>, columns: map<string, seq<Column>>)

  /** A key is created by its first append, so every listed key holds a
      non-empty list and is listed once. */
  ghost predicate WellFormed(m: CastMap) {
    && Distinct(m.order)
    && (forall k :: k in m.columns <==> k in m.order)
    && (forall k :: k in m.columns ==> m.columns[k] != [])
  }

  /** `casted_columns_map[key].append(item)`. */
  function Record(m: CastMap, key: string, item: Column): CastMap {
    if key in m.columns then CastMap(m.order, m.columns[key := m.columns[key] + [item]])
    else CastMap(m.order + [key], m.columns[key := [item]])
  }

  function RecordAll(m: CastMap, key: string, items: seq<Column>): CastMap {
    if items == [] then m
    else Record(RecordAll(m, key, items[..|items| - 1]), key, items[|items| - 1])
  }

  lemma RecordAllSnoc(m: CastMap, key: string, items: seq<Column>, x: Column)
    ensures RecordAll(m, key, items + [x]) == Record(RecordAll(m, key, items), key, x)
    ensures RecordAll(m, key, items + []) == RecordAll(m, key, items)
  {
    assert (items + [x])[..|items|] == items;
    assert items + [] == items;
  }

  /** One more column of the loop of `get_safe_select_clause`. */
  lemma RecordStep(m: CastMap, key: string, columns: seq<Column>, i: nat, next: CastMap)
    requires i < |columns|
    requires var c := columns[i];
      var before := RecordAll(m, key, Casted(columns[..i]));
      next == if IsCast(Lower(c.1)) then Record(before, key, (c.0, Lower(c.1))) else before
    ensures next == RecordAll(m, key, Casted(columns[..i + 1]))
  {
    var c := columns[i];
    CastedSnoc(columns, i);
    RecordAllSnoc(m, key, Casted(columns[..i]), (c.0, Lower(c.1)));
  }

  /** One append keeps the map well formed: a new key goes last and is
      listed once, and every list stays non-empty. */
  lemma RecordWellFormed(m: CastMap, key: string, item: Column)
    requires WellFormed(m)
    ensures WellFormed(Record(m, key, item))
  {
    if key !in m.columns {
      assert key !in m.order;
      var r := Record(m, key, item);
      forall i, j | 0 <= i < j < |r.order|
        ensures r.order[i] != r.order[j]
      {
        if j == |m.order| {
          assert m.order[i] in m.order;
        }
      }
    }
  }

  lemma {:induction false} RecordAllWellFormed(m: CastMap, key: string, items: seq<Column>)
    requires WellFormed(m)
    ensures WellFormed(RecordAll(m, key, items))
  {
    if items != [] {
      RecordAllWellFormed(m, key, items[..|items| - 1]);
      RecordWellFormed(RecordAll(m, key, items[..|items| - 1]), key, items[|items| - 1]);
    }
  }

  /** The list under `key` grows by `items`, a new key goes last in the
      iteration order, nothing else changes, and a key that gets no item is
      not created. */
  lemma {:induction false} RecordAllSpec(m: CastMap, key: string, items: seq<Column>)
    ensures var r := RecordAll(m, key, items);
      && (items == [] ==> r == m)
      && (items != [] ==> key in r.columns && r.columns[key] == (if key in m.columns then m.columns[key] else []) + items)
      && (items != [] ==> r.order == if key in m.columns then m.order else m.order + [key])
      && (forall k :: k != key ==> (k in r.columns <==> k in m.columns))
      && (forall k :: k != key && k in m.columns ==> r.columns[k] == m.columns[k])
  {
    if items != [] {
      var init := items[..|items| - 1];
      var last := items[|items| - 1];
      RecordAllSpec(m, key, init);
      var r0 := RecordAll(m, key, init);
      var base := if key in m.columns then m.columns[key] else [];
      if init == [] {
        assert r0 == m;
        assert items == [last];
      } else {
        assert r0.columns[key] == base + init;
        assert (base + init) + [last] == base + items;
      }
    }
  }

  // ---------------------------------------------------------------------
  // INSERT lines of export_table
  // ---------------------------------------------------------------------

  function QuotedNames(names: seq<string>): seq<string> {
    seq(|names|, i requires 0 <= i < |names| => QuoteIdent(names[i]))
  }

  function Literals(values: seq<Value>): seq<string> {
    seq(|values|, i requires 0 <= i < |values| => QuoteLiteral(values[i]))
  }

  /** One INSERT statement, migrate_script.py:82-86. */
  function InsertLine(schema: string, table: string, names: seq<string>, values: seq<Value>): string {
    "INSERT INTO " + QuoteIdent(schema) + "." + QuoteIdent(table)
      + " (" + Join(QuotedNames(names), ", ") + ") VALUES ("
      + Join(Literals(values), ", ") + ");\n"
  }

  /** A fetched row: its values, or None when formatting it raised. */
  type FetchedRow = Option<seq<Value>>

  /** The lines written for the rows, in order, skipping failed rows. */
  function InsertLines(schema: string, table: string, names: seq<string>, rows: seq<FetchedRow>): seq<string> {
    if rows == [] then []
    else
      var init := InsertLines(schema, table, names, rows[..|rows| - 1]);
      match rows[|rows| - 1]
      case Some(values) => init + [InsertLine(schema, table, names, values)]
      case None => init
  }

  /** Every line written is the INSERT of a row that formatted. */
  lemma {:induction false} InsertLinesFromRows(schema: string, table: string, names: seq<string>, rows: seq<FetchedRow>)
    ensures forall i :: 0 <= i < |InsertLines(schema, table, names, rows)| ==>
      exists j :: 0 <= j < |rows| && rows[j].Some?
        && InsertLines(schema, table, names, rows)[i] == InsertLine(schema, table, names, rows[j].value)
  {
    if rows != [] {
      var init := rows[..|rows| - 1];
      InsertLinesFromRows(schema, table, names, init);
      var l0 := InsertLines(schema, table, names, init);
      assert forall i :: 0 <= i < |l0| ==> exists j :: 0 <= j < |init| && init[j].Some? && l0[i] == InsertLine(schema, table, names, init[j].value);
      var lines := InsertLines(schema, table, names, rows);
      forall i | 0 <= i < |lines|
        ensures exists j :: 0 <= j < |rows| && rows[j].Some? && lines[i] == InsertLine(schema, table, names, rows[j].value)
      {
        if i < |l0| {
          var j :| 0 <= j < |init| && init[j].Some? && l0[i] == InsertLine(schema, table, names, init[j].value);
          assert rows[j] == init[j];
          assert lines[i] == l0[i];
        } else {
          var last := rows[|rows| - 1];
          assert last.Some?;
          assert lines == l0 + [InsertLine(schema, table, names, last.value)];
          assert lines[i] == InsertLine(schema, table, names, rows[|rows| - 1].value);
        }
      }
      assert forall i :: 0 <= i < |lines| ==> exists j :: 0 <= j < |rows| && rows[j].Some? && lines[i] == InsertLine(schema, table, names, rows[j].value);
    } else {
      assert InsertLines(schema, table, names, rows) == [];
    }
  }

  /** Every row that formatted is written. */
  lemma {:induction false} InsertLinesCoverRows(schema: string, table: string, names: seq<string>, rows: seq<FetchedRow>)
    ensures forall j :: 0 <= j < |rows| && rows[j].Some? ==>
      InsertLine(schema, table, names, rows[j].value) in InsertLines(schema, table, names, rows)
  {
    if rows != [] {
      var init := rows[..|rows| - 1];
      InsertLinesCoverRows(schema, table, names, init);
      assert forall j :: 0 <= j < |init| ==> rows[j] == init[j];
    }
  }

  /** At most one line per row; one line for every row exactly when no row
      failed, and none exactly when every row failed. */
  lemma {:induction false} InsertLinesCount(schema: string, table: string, names: seq<string>, rows: seq<FetchedRow>)
    ensures var lines := InsertLines(schema, table, names, rows);
      && |lines| <= |rows|
      && (|lines| == |rows| <==> forall j :: 0 <= j < |rows| ==> rows[j].Some?)
      && (lines == [] <==> forall j :: 0 <= j < |rows| ==> rows[j].None?)
  {
    if rows != [] {
      var init := rows[..|rows| - 1];
      InsertLinesCount(schema, table, names, init);
      assert forall j :: 0 <= j < |init| ==> rows[j] == init[j];
    }
  }

  // ---------------------------------------------------------------------
  // generate_postprocess_sql
  // ---------------------------------------------------------------------

  /** One `f.write` of the post-processing script. */
  datatype Write =
    | Comment(text: string)
    | CreateExtension(name: string)
    | ToLtree(schema: string, table: string, column: string)
    | ToGeometry(column: string)

  /** The text of each write, migrate_script.py:108-130. The geometry
      conversion is written without an `ALTER TABLE` prefix. */
  function Render(w: Write): string {
    match w
    case Comment(t) => t
    case CreateExtension(n) => "CREATE EXTENSION IF NOT EXISTS " + n + ";\n\n"
    case ToLtree(s, t, c) =>
      "ALTER TABLE " + QuoteIdent(s) + "." + QuoteIdent(t)
        + " ALTER COLUMN " + QuoteIdent(c) + " TYPE ltree "
        + "USING regexp_replace(trim(both '/' from " + QuoteIdent(c) + "::text), '/', '.', 'g')::ltree;\n\n"
    case ToGeometry(c) =>
      "ALTER COLUMN " + QuoteIdent(c) + " TYPE geometry "
        + "USING CASE WHEN " + QuoteIdent(c) + " ~ '^\\\\s*(POINT|LINE|POLYGON|MULTI)' "
        + "THEN ST_GeomFromText(" + QuoteIdent(c) + ") ELSE NULL END;\n\n"
  }

  /** The extension a conversion needs. */
  function Needs(w: Write): string {
    if w.ToLtree? then "ltree" else if w.ToGeometry? then "postgis" else ""
  }

  /** What the ltree conversion's USING expression makes of a hierarchyid
      path such as `/1/2/`: the outer slashes trimmed, the inner ones
      turned into dots. */
  function TrimSlashes(v: string): string
    decreases |v|
  {
    if v != [] && v[0] == '/' then TrimSlashes(v[1..])
    else if v != [] && v[|v| - 1] == '/' then TrimSlashes(v[..|v| - 1])
    else v
  }

  function SlashesToDots(v: string): (r: string)
    ensures |r| == |v|
  {
    if v == [] then [] else [if v[0] == '/' then '.' else v[0]] + SlashesToDots(v[1..])
  }

  function LtreePath(v: string): string {
    SlashesToDots(TrimSlashes(v))
  }

  /** The converted path holds no slash: every separator became a dot, and
      no dot is added at either end. */
  lemma {:induction false} LtreePathSpec(v: string)
    ensures '/' !in LtreePath(v)
    ensures var t := TrimSlashes(v); t == [] || (t[0] != '/' && t[|t| - 1] != '/')
  {
    NoSlashAfterDots(TrimSlashes(v));
    TrimSlashesEnds(v);
  }

  lemma {:induction false} NoSlashAfterDots(v: string)
    ensures '/' !in SlashesToDots(v)
  {
    if v != [] {
      NoSlashAfterDots(v[1..]);
    }
  }

  lemma {:induction false} TrimSlashesEnds(v: string)
    ensures var t := TrimSlashes(v); t == [] || (t[0] != '/' && t[|t| - 1] != '/')
    decreases |v|
  {
    if v != [] && v[0] == '/' {
      TrimSlashesEnds(v[1..]);
    } else if v != [] && v[|v| - 1] == '/' {
      TrimSlashesEnds(v[..|v| - 1]);
    }
  }

  /** One recorded column, with the table key it came under and the
      schema and table that key splits into. */
  datatype Entry = Entry(full: string, schema: string, table: string, column: string, dtype: string)

  /** `schema, table = full_table.split(".")`: raises unless there is
      exactly one dot. */
  function SplitTable(full: string): Option<(string, string)> {
    var parts := Split(full, '.');
    if |parts| == 2 then Some((parts[0], parts[1])) else None
  }

  lemma SplitTableKey(t: Table)
    requires Plain(t)
    ensures SplitTable(Key(t)) == Some(t)
  {
    assert Key(t) == t.0 + ['.'] + t.1;
    SplitPair(t.0, t.1, '.');
  }

  function EntriesOf(full: string, schema: string, table: string, cols: seq<Column>): seq<Entry> {
    seq(|cols|, i requires 0 <= i < |cols| => Entry(full, schema, table, cols[i].0, cols[i].1))
  }

  lemma EntriesOfSnoc(full: string, schema: string, table: string, cols: seq<Column>, j: nat)
    requires j < |cols|
    ensures EntriesOf(full, schema, table, cols[..j + 1])
      == EntriesOf(full, schema, table, cols[..j]) + [Entry(full, schema, table, cols[j].0, cols[j].1)]
  {
    var a := EntriesOf(full, schema, table, cols[..j + 1]);
    var b := EntriesOf(full, schema, table, cols[..j]) + [Entry(full, schema, table, cols[j].0, cols[j].1)];
    assert |a| == |b|;
    forall k | 0 <= k < |a|
      ensures a[k] == b[k]
    {
      assert cols[..j + 1][k] == cols[k];
    }
  }

  /** The `ValueError` that `schema, table = full_table.split(".")` raises.
      Only the failure is modelled: the text is a stand-in naming the key,
      not Python's own message. */
  function UnpackError(key: string): string {
    "ValueError: cannot unpack " + key
  }

  /** The recorded columns in iteration order, or the error of the first
      key that does not split into a schema and a table. */
  function Entries(order: seq<string>, columns: map<string, seq<Column>>): Result<seq<Entry>, string>
    requires forall k :: k in order ==> k in columns
  {
    if order == [] then Ok([])
    else
      var key := order[|order| - 1];
      match Entries(order[..|order| - 1], columns)
      case Err(e) => Err(e)
      case Ok(es) =>
        match SplitTable(key)
        case None => Err(UnpackError(key))
        case Some(st) => Ok(es + EntriesOf(key, st.0, st.1, columns[key]))
  }

  /** The post-processing script fails exactly when some key does not split. */
  lemma {:induction false} EntriesErr(order: seq<string>, columns: map<string, seq<Column>>)
    requires forall k :: k in order ==> k in columns
    ensures Entries(order, columns).Err? <==> exists k :: k in order && SplitTable(k).None?
  {
    if order != [] {
      var init := order[..|order| - 1];
      EntriesErr(init, columns);
      assert forall k :: k in init ==> k in order;
      if exists k :: k in order && SplitTable(k).None? {
        var k :| k in order && SplitTable(k).None?;
        if k !in init {
          assert k == order[|order| - 1];
        }
      }
      assert order == init + [order[|order| - 1]];
    }
  }

  /** Once a prefix of the keys fails, the whole script fails with that error. */
  lemma {:induction false} EntriesFirstError(order: seq<string>, columns: map<string, seq<Column>>, n: nat)
    requires forall k :: k in order ==> k in columns
    requires n <= |order|
    requires Entries(order[..n], columns).Err?
    ensures Entries(order, columns) == Entries(order[..n], columns)
    decreases |order| - n
  {
    if n < |order| {
      assert order[..n + 1][..n] == order[..n];
      EntriesFirstError(order, columns, n + 1);
    } else {
      assert order[..n] == order;
    }
  }

  /** One more key: its columns join the entries, or it stops the script. */
  lemma EntriesStep(order: seq<string>, columns: map<string, seq<Column>>, i: nat)
    requires forall k :: k in order ==> k in columns
    requires i < |order|
    ensures var key := order[i];
      match Entries(order[..i], columns)
      case Err(e) => Entries(order[..i + 1], columns) == Err(e)
      case Ok(es) =>
        match SplitTable(key)
        case None => Entries(order[..i + 1], columns) == Err(UnpackError(key))
        case Some(st) => Entries(order[..i + 1], columns) == Ok(es + EntriesOf(key, st.0, st.1, columns[key]))
  {
    assert order[..i + 1][..i] == order[..i];
    assert order[..i + 1][i] == order[i];
  }
  /** The extension a column of this type needs. */
  function Added(e: Entry): set<string> {
    if e.dtype == "hierarchyid" then {"ltree"}
    else if e.dtype == "geography" then {"postgis"}
    else {}
  }

  /** The `extensions` set after the given columns. */
  function Extensions(es: seq<Entry>): set<string> {
    if es == [] then {} else Extensions(es[..|es| - 1]) + Added(es[|es| - 1])
  }

  /** The writes for one column, given the extensions already enabled,
      migrate_script.py:106-130. */
  function ColumnWrites(e: Entry, ext: set<string>): seq<Write> {
    if e.dtype == "hierarchyid" then
      (if "ltree" !in ext then [Comment("-- Enable ltree extension\n"), CreateExtension("ltree")] else [])
        + [Comment("-- Convert " + e.full + "." + e.column + " from VARCHAR to ltree\n"),
           ToLtree(e.schema, e.table, e.column)]
    else if e.dtype == "geography" then
      (if "postgis" !in ext then [Comment("-- Enable PostGIS extension\n"), CreateExtension("postgis")] else [])
        + [Comment("-- Convert " + e.full + "." + e.column + " from VARCHAR to geometry\n"),
           ToGeometry(e.column)]
    else if e.dtype == "sql_variant" then
      [Comment("-- Manual review needed for " + e.full + "." + e.column + " (sql_variant)\n\n")]
    else []
  }

  /** The whole script for the given columns. */
  function Writes(es: seq<Entry>): seq<Write> {
    if es == [] then []
    else
      var init := es[..|es| - 1];
      Writes(init) + ColumnWrites(es[|es| - 1], Extensions(init))
  }

  lemma WritesSnoc(es: seq<Entry>, e: Entry)
    ensures Writes(es + [e]) == Writes(es) + ColumnWrites(e, Extensions(es))
    ensures Extensions(es + [e]) == Extensions(es) + Added(e)
  {
    assert (es + [e])[..|es|] == es;
  }

  /** The shape of one column's writes `c`, given the extensions `ext`
      already enabled and the ones `added` the column needs: at most one
      `CREATE EXTENSION`, in second place, for a needed extension not yet
      enabled; a conversion needs one of `added` and, when that one was
      not enabled, comes after its `CREATE EXTENSION`. */
  predicate Shape(c: seq<Write>, ext: set<string>, added: set<string>) {
    && (forall k :: 0 <= k < |c| && c[k].CreateExtension? ==> k == 1 && c[k].name in added && c[k].name !in ext)
    && (forall n :: n in added && n !in ext ==> |c| > 1 && c[1] == CreateExtension(n))
    && (forall k :: 0 <= k < |c| && (c[k].ToLtree? || c[k].ToGeometry?) ==>
          && Needs(c[k]) in added
          && (Needs(c[k]) !in ext ==> 1 < k && c[1] == CreateExtension(Needs(c[k]))))
  }

  lemma ColumnWritesShape(e: Entry, ext: set<string>)
    ensures Shape(ColumnWrites(e, ext), ext, Added(e))
  {
  }

  /** No write repeats an earlier `CREATE EXTENSION`. */
  predicate CreatedOnce(w: seq<Write>) {
    forall i, j :: 0 <= i < j < |w| && w[i].CreateExtension? ==> w[j] != w[i]
  }

  /** Each conversion follows the `CREATE EXTENSION` it needs. */
  predicate CreatedBeforeUse(w: seq<Write>) {
    forall j :: 0 <= j < |w| && (w[j].ToLtree? || w[j].ToGeometry?) ==>
      exists i :: 0 <= i < j && w[i] == CreateExtension(Needs(w[j]))
  }

  /** The extensions created so far are `ext`. */
  ghost predicate CreatesExactly(w: seq<Write>, ext: set<string>) {
    forall n :: CreateExtension(n) in w <==> n in ext
  }

  lemma CreatedAppend(w0: seq<Write>, c: seq<Write>, ext: set<string>, added: set<string>)
    requires CreatesExactly(w0, ext) && Shape(c, ext, added)
    ensures CreatesExactly(w0 + c, ext + added)
  {
    forall n
      ensures CreateExtension(n) in c <==> n in added && n !in ext
    {
      if CreateExtension(n) in c {
        var k :| 0 <= k < |c| && c[k] == CreateExtension(n);
      }
    }
  }

  lemma OnceAppend(w0: seq<Write>, c: seq<Write>, ext: set<string>, added: set<string>)
    requires CreatesExactly(w0, ext) && Shape(c, ext, added) && CreatedOnce(w0)
    ensures CreatedOnce(w0 + c)
  {
    var w := w0 + c;
    forall i, j | 0 <= i < j < |w| && w[i].CreateExtension?
      ensures w[j] != w[i]
    {
      if j >= |w0| {
        assert w[j] == c[j - |w0|];
        if i < |w0| {
          assert w0[i] in w0;
        } else {
          assert w[i] == c[i - |w0|];
        }
      }
    }
  }

  lemma BeforeUseAppend(w0: seq<Write>, c: seq<Write>, ext: set<string>, added: set<string>)
    requires CreatesExactly(w0, ext) && Shape(c, ext, added) && CreatedBeforeUse(w0)
    ensures CreatedBeforeUse(w0 + c)
  {
    var w := w0 + c;
    forall j | 0 <= j < |w| && (w[j].ToLtree? || w[j].ToGeometry?)
      ensures exists i :: 0 <= i < j && w[i] == CreateExtension(Needs(w[j]))
    {
      if j < |w0| {
        assert w[j] == w0[j];
        var i :| 0 <= i < j && w0[i] == CreateExtension(Needs(w0[j]));
        assert w[i] == w0[i];
      } else {
        var n := Needs(w[j]);
        assert w[j] == c[j - |w0|];
        if n in ext {
          assert CreateExtension(n) in w0;
          var i :| 0 <= i < |w0| && w0[i] == CreateExtension(n);
          assert w[i] == w0[i];
        } else {
          assert w[|w0| + 1] == c[1];
        }
      }
    }
  }

  /** An extension is created exactly when some column needs it. */
  lemma {:induction false} ExtensionsCreated(es: seq<Entry>)
    ensures CreatesExactly(Writes(es), Extensions(es))
  {
    if es != [] {
      var init := es[..|es| - 1];
      var e := es[|es| - 1];
      ExtensionsCreated(init);
      ColumnWritesShape(e, Extensions(init));
      CreatedAppend(Writes(init), ColumnWrites(e, Extensions(init)), Extensions(init), Added(e));
    }
  }

  /** Each `CREATE EXTENSION` is written at most once. */
  lemma {:induction false} ExtensionsOnce(es: seq<Entry>)
    ensures CreatedOnce(Writes(es))
  {
    if es != [] {
      var init := es[..|es| - 1];
      var e := es[|es| - 1];
      ExtensionsOnce(init);
      ExtensionsCreated(init);
      ColumnWritesShape(e, Extensions(init));
      OnceAppend(Writes(init), ColumnWrites(e, Extensions(init)), Extensions(init), Added(e));
    }
  }

  /** Every conversion comes after the `CREATE EXTENSION` it needs. */
  lemma {:induction false} ExtensionBeforeUse(es: seq<Entry>)
    ensures CreatedBeforeUse(Writes(es))
  {
    if es != [] {
      var init := es[..|es| - 1];
      var e := es[|es| - 1];
      ExtensionBeforeUse(init);
      ExtensionsCreated(init);
      ColumnWritesShape(e, Extensions(init));
      BeforeUseAppend(Writes(init), ColumnWrites(e, Extensions(init)), Extensions(init), Added(e));
    }
  }

  /** The columns of a given type and the conversions written for them. */
  ghost predicate LtreeFor(w: seq<Write>, es: seq<Entry>) {
    forall s, t, c :: ToLtree(s, t, c) in w <==>
      exists k :: 0 <= k < |es| && es[k].dtype == "hierarchyid" && es[k].schema == s && es[k].table == t && es[k].column == c
  }

  ghost predicate GeometryFor(w: seq<Write>, es: seq<Entry>) {
    forall c :: ToGeometry(c) in w <==> exists k :: 0 <= k < |es| && es[k].dtype == "geography" && es[k].column == c
  }

  lemma ConversionsAppend(w0: seq<Write>, c: seq<Write>, es: seq<Entry>)
    requires es != []
    requires LtreeFor(w0, es[..|es| - 1]) && GeometryFor(w0, es[..|es| - 1])
    requires LtreeFor(c, [es[|es| - 1]]) && GeometryFor(c, [es[|es| - 1]])
    ensures LtreeFor(w0 + c, es) && GeometryFor(w0 + c, es)
  {
    var init := es[..|es| - 1];
    assert forall k :: 0 <= k < |init| ==> es[k] == init[k];
    assert es[|init|] == [es[|es| - 1]][0];
    forall s, t, col | ToLtree(s, t, col) in w0 + c
      ensures exists k :: 0 <= k < |es| && es[k].dtype == "hierarchyid" && es[k].schema == s && es[k].table == t && es[k].column == col
    {
      if ToLtree(s, t, col) in w0 {
        var k :| 0 <= k < |init| && init[k].dtype == "hierarchyid" && init[k].schema == s && init[k].table == t && init[k].column == col;
        assert es[k] == init[k];
      } else {
        assert ToLtree(s, t, col) in c;
      }
    }
    forall col | ToGeometry(col) in w0 + c
      ensures exists k :: 0 <= k < |es| && es[k].dtype == "geography" && es[k].column == col
    {
      if ToGeometry(col) in w0 {
        var k :| 0 <= k < |init| && init[k].dtype == "geography" && init[k].column == col;
        assert es[k] == init[k];
      } else {
        assert ToGeometry(col) in c;
      }
    }
  }

  lemma ColumnConversions(e: Entry, ext: set<string>)
    ensures LtreeFor(ColumnWrites(e, ext), [e]) && GeometryFor(ColumnWrites(e, ext), [e])
  {
    var c := ColumnWrites(e, ext);
    forall s, t, col
      ensures ToLtree(s, t, col) in c <==> e.dtype == "hierarchyid" && e.schema == s && e.table == t && e.column == col
    {
    }
    forall col
      ensures ToGeometry(col) in c <==> e.dtype == "geography" && e.column == col
    {
    }
    assert [e][0] == e;
  }

  /** An ltree conversion is written exactly for each hierarchyid column,
      and a geometry conversion exactly for each geography column: a
      sql_variant column gets no conversion. */
  lemma {:induction false} Conversions(es: seq<Entry>)
    ensures LtreeFor(Writes(es), es) && GeometryFor(Writes(es), es)
  {
    if es != [] {
      var init := es[..|es| - 1];
      var e := es[|es| - 1];
      Conversions(init);
      ColumnConversions(e, Extensions(init));
      ConversionsAppend(Writes(init), ColumnWrites(e, Extensions(init)), es);
    }
  }


  /** The geometry conversion is not a complete statement: it starts
      `ALTER COLUMN`, with no `ALTER TABLE` before it. */
  lemma GeometryWithoutTable(c: string)
    ensures var r := Render(ToGeometry(c));
      && r[..13] == "ALTER COLUMN "
      && r[..12] != "ALTER TABLE "
  {
    var r := Render(ToGeometry(c));
    assert r[..13] == "ALTER COLUMN ";
    assert r[..12][6] == 'C';
  }

  // ---------------------------------------------------------------------
  // The exporter: casted_columns_map and the three operations over it
  // ---------------------------------------------------------------------

  class Exporter {
    /** The keys of `casted_columns_map`, in insertion order. */
    var order: seq<string>
    /** The list under each key. */
    var casted: map<string, seq<Column>>

    function Map(): CastMap
      reads this
    {
      CastMap(order, casted)
    }

    ghost predicate Valid()
      reads this
    {
      WellFormed(Map())
    }

    constructor()
      ensures Valid() && order == [] && casted == map[]
    {
      order := [];
      casted := map[];
    }

    /** `casted_columns_map[key].append(item)`. */
    method Append(key: string, item: Column)
      requires Valid()
      modifies this
      ensures Valid()
      ensures Map() == Record(old(Map()), key, item)
    {
      RecordWellFormed(Map(), key, item);
      if key in casted {
        casted := casted[key := casted[key] + [item]];
      } else {
        order := order + [key];
        casted := casted[key := [item]];
      }
    }

    /** `get_safe_select_clause`, migrate_script.py:48-63, over the column
        rows the catalogue query returns. */
    method SafeSelectClause(schema: string, table: string, columns: seq<Column>)
      returns (selectClauses: seq<string>, outputColumns: seq<string>)
      requires Valid()
      modifies this
      ensures Valid()
      ensures selectClauses == SelectList(columns)
      ensures outputColumns == Names(columns)
      ensures Map() == RecordAll(old(Map()), Key((schema, table)), Casted(columns))
    {
      var key := schema + "." + table;
      selectClauses := [];
      outputColumns := [];
      var i := 0;
      while i < |columns|
        invariant 0 <= i <= |columns|
        invariant selectClauses == SelectList(columns[..i])
        invariant outputColumns == Names(columns[..i])
        invariant Map() == RecordAll(old(Map()), key, Casted(columns[..i]))
        invariant Valid()
      {
        var col, dtype := columns[i].0, Lower(columns[i].1);
        outputColumns := outputColumns + [col];
        ghost var before := Map();
        var item := SelectColumn(key, col, dtype);
        selectClauses := selectClauses + [item];
        SelectListSnoc(columns, i);
        NamesSnoc(columns, i);
        RecordStep(old(Map()), key, columns, i, Map());
        i := i + 1;
      }
      assert columns[..i] == columns;
    }

    /** The body of the loop of `get_safe_select_clause`,
        migrate_script.py:54-61, for one column and its lower-cased type. */
    method SelectColumn(key: string, col: string, dtype: string) returns (item: string)
      requires Valid()
      modifies this
      ensures Valid()
      ensures item == SelectItem(col, dtype)
      ensures Map() == if IsCast(dtype) then Record(old(Map()), key, (col, dtype)) else old(Map())
    {
      if dtype == "geography" {
        item := "CAST(" + QuoteIdent(col) + " AS VARCHAR(2048)) AS " + QuoteIdent(col);
        Append(key, (col, dtype));
      } else if dtype == "hierarchyid" || dtype == "sql_variant" {
        item := "CAST(" + QuoteIdent(col) + " AS VARCHAR) AS " + QuoteIdent(col);
        Append(key, (col, dtype));
      } else {
        item := QuoteIdent(col);
      }
    }

    /** `export_table`, migrate_script.py:65-96. `queryOk` is whether the
        SELECT ran; `rows` are the rows the cursor yielded, and
        `fetchFailed` is whether `for row in cur` then raised. The result
        is the file's lines, or None when nothing is left on disk: a failed
        query returns before the file is opened, and a file that received
        no row is unlinked. An error raised by the cursor escapes the
        function (`raised`) before the unlink, so the file stays with the
        lines written so far, even when there are none. */
    method ExportTable(schema: string, table: string, columns: seq<Column>, queryOk: bool,
                       rows: seq<FetchedRow>, fetchFailed: bool)
      returns (file: Option<seq<string>>, rowCount: nat, raised: bool)
      requires Valid()
      modifies this
      ensures Valid()
      ensures Map() == RecordAll(old(Map()), Key((schema, table)), Casted(columns))
      ensures raised <==> queryOk && fetchFailed
      ensures rowCount == (if queryOk then |InsertLines(schema, table, Names(columns), rows)| else 0)
      ensures file == (if queryOk && (fetchFailed || rowCount > 0)
                       then Some(InsertLines(schema, table, Names(columns), rows)) else None)
    {
      var selectClauses, outputColumns := SafeSelectClause(schema, table, columns);
      if !queryOk {
        return None, 0, false;
      }
      var lines := WriteRows(schema, table, outputColumns, rows);
      rowCount := |lines|;
      if fetchFailed {
        return Some(lines), rowCount, true;
      }
      raised := false;
      if rowCount == 0 {
        file := None;
      } else {
        file := Some(lines);
      }
    }

    /** `generate_postprocess_sql`, migrate_script.py:98-130: the writes of
        `_convert_types.sql`, or the error that stops it. */
    method GeneratePostprocessSql() returns (r: Result<seq<Write>, string>)
      requires Valid()
      ensures match Entries(order, casted)
        case Ok(es) => r == Ok(Writes(es))
        case Err(e) => r == Err(e)
    {
      assert forall k :: k in order ==> k in casted;
      var writes: seq<Write> := [];
      var extensions: set<string> := {};
      ghost var done: seq<Entry> := [];
      var i := 0;
      while i < |order|
        invariant 0 <= i <= |order|
        invariant Entries(order[..i], casted) == Ok(done)
        invariant writes == Writes(done)
        invariant extensions == Extensions(done)
      {
        var fullTable := order[i];
        EntriesStep(order, casted, i);
        var parts := Split(fullTable, '.');
        if |parts| != 2 {
          EntriesFirstError(order, casted, i + 1);
          return Err(UnpackError(fullTable));
        }
        var schema, table := parts[0], parts[1];
        var columns := casted[fullTable];
        writes, extensions, done := TableWrites(fullTable, schema, table, columns, writes, extensions, done);
        i := i + 1;
      }
      assert order[..i] == order;
      r := Ok(writes);
    }
  }

  /** `[col for col, _ in columns]`. */
  function Names(columns: seq<Column>): seq<string> {
    seq(|columns|, i requires 0 <= i < |columns| => columns[i].0)
  }

  lemma NamesSnoc(columns: seq<Column>, i: nat)
    requires i < |columns|
    ensures Names(columns[..i + 1]) == Names(columns[..i]) + [columns[i].0]
  {
    var a := Names(columns[..i + 1]);
    var b := Names(columns[..i]) + [columns[i].0];
    assert |a| == |b|;
    forall k | 0 <= k < |a|
      ensures a[k] == b[k]
    {
      assert columns[..i + 1][k] == columns[k];
    }
  }

  /** The row loop of `export_table`, migrate_script.py:79-91. */
  method WriteRows(schema: string, table: string, names: seq<string>, rows: seq<FetchedRow>)
    returns (lines: seq<string>)
    ensures lines == InsertLines(schema, table, names, rows)
  {
    lines := [];
    var rowCount := 0;
    for i := 0 to |rows|
      invariant lines == InsertLines(schema, table, names, rows[..i])
      invariant rowCount == |lines|
    {
      assert rows[..i + 1][..i] == rows[..i];
      match rows[i]
      case Some(values) =>
        var insertStmt := InsertLine(schema, table, names, values);
        lines := lines + [insertStmt];
        rowCount := rowCount + 1;
      case None =>
    }
    assert rows[..|rows|] == rows;
  }

  /** The inner loop of `generate_postprocess_sql` over one table's columns. */
  method TableWrites(fullTable: string, schema: string, table: string, columns: seq<Column>,
                     writes0: seq<Write>, extensions0: set<string>, ghost done0: seq<Entry>)
    returns (writes: seq<Write>, extensions: set<string>, ghost done: seq<Entry>)
    requires writes0 == Writes(done0) && extensions0 == Extensions(done0)
    ensures done == done0 + EntriesOf(fullTable, schema, table, columns)
    ensures writes == Writes(done) && extensions == Extensions(done)
  {
    writes, extensions, done := writes0, extensions0, done0;
    for j := 0 to |columns|
      invariant done == done0 + EntriesOf(fullTable, schema, table, columns[..j])
      invariant writes == Writes(done) && extensions == Extensions(done)
    {
      var e := Entry(fullTable, schema, table, columns[j].0, columns[j].1);
      EntriesOfSnoc(fullTable, schema, table, columns, j);
      WritesSnoc(done, e);
      writes, extensions := WriteColumn(e, writes, extensions);
      done := done + [e];
    }
    assert columns[..|columns|] == columns;
  }

  /** The body of the inner loop of `generate_postprocess_sql`,
      migrate_script.py:106-130. */
  method WriteColumn(e: Entry, writes0: seq<Write>, extensions0: set<string>)
    returns (writes: seq<Write>, extensions: set<string>)
    ensures writes == writes0 + ColumnWrites(e, extensions0)
    ensures extensions == extensions0 + Added(e)
  {
    writes, extensions := writes0, extensions0;
    var col := e.column;
    if e.dtype == "hierarchyid" {
      if "ltree" !in extensions {
        writes := writes + [Comment("-- Enable ltree extension\n")];
        writes := writes + [CreateExtension("ltree")];
        extensions := extensions + {"ltree"};
      }
      writes := writes + [Comment("-- Convert " + e.full + "." + col + " from VARCHAR to ltree\n")];
      writes := writes + [ToLtree(e.schema, e.table, col)];
    } else if e.dtype == "geography" {
      if "postgis" !in extensions {
        writes := writes + [Comment("-- Enable PostGIS extension\n")];
        writes := writes + [CreateExtension("postgis")];
        extensions := extensions + {"postgis"};
      }
      writes := writes + [Comment("-- Convert " + e.full + "." + col + " from VARCHAR to geometry\n")];
      writes := writes + [ToGeometry(col)];
    } else if e.dtype == "sql_variant" {
      writes := writes + [Comment("-- Manual review needed for " + e.full + "." + col + " (sql_variant)\n\n")];
    }
  }
}
