/**
 * Column type and column default translation of the schema stage
 * (`map_data_type` and `map_default_value` in migrate_schema.py).
 *
 * Types are looked up, lower-cased, in a fixed table; the character family
 * takes a length suffix and `decimal`/`numeric` a precision/scale suffix.
 * Defaults are stripped of whitespace and enclosing parentheses, then a
 * `bit` column tries the two boolean literals, and finally an ordered table
 * of case-insensitive full-match patterns is scanned; the first pattern that
 * matches decides the PostgreSQL default. Anything unmatched is an error.
 */
module TypeMapping {
  import opened Text
  import opened Catalog

  // ---------------------------------------------------------------------
  // map_data_type
  // ---------------------------------------------------------------------

  /** The SQL Server type (lower case) to PostgreSQL type table. */
  const Types: map<string, string> := map[
    "int" := "integer",
    "bigint" := "bigint",
    "smallint" := "smallint",
    "tinyint" := "smallint",
    "bit" := "boolean",
    "decimal" := "numeric",
    "numeric" := "numeric",
    "money" := "numeric(19,4)",
    "smallmoney" := "numeric(10,4)",
    "float" := "double precision",
    "real" := "real",
    "date" := "date",
    "datetime" := "timestamp",
    "datetime2" := "timestamp",
    "smalldatetime" := "timestamp",
    "time" := "time",
    "char" := "character",
    "varchar" := "character varying",
    "text" := "text",
    "nchar" := "character",
    "nvarchar" := "character varying",
    "ntext" := "text",
    "binary" := "bytea",
    "varbinary" := "bytea",
    "image" := "bytea",
    "uniqueidentifier" := "uuid",
    "xml" := "xml",
    "geography" := "geometry /* requires PostGIS extension */",
    "hierarchyid" := "ltree /* requires ltree extension */"
  ]

  /** Types whose maximum length is carried over. */
  predicate IsCharType(t: string) {
    t in {"varchar", "nvarchar", "char", "nchar"}
  }

  /** Types whose precision and scale are carried over. */
  predicate IsDecimalType(t: string) {
    t in {"decimal", "numeric"}
  }

  function UnmappedType(t: string): string {
    "Unmapped SQL Server data type '" + t + "' detected. Please add a mapping."
  }

  /** `map_data_type(sqlserver_type, char_max_length, numeric_precision,
      numeric_scale)`; the `ValueError` is the `Err` case. */
  function MapDataType(sqlType: string, charMaxLength: Option<int>, precision: Option<int>, scale: Option<int>): (r: Result<string, string>)
    ensures r.Ok? <==> Lower(sqlType) in Types
    ensures r.Err? ==> r.error == UnmappedType(Lower(sqlType))
    ensures r.Ok? ==> r.value == "text" || Types[Lower(sqlType)] <= r.value
  {
    var t := Lower(sqlType);
    if t !in Types then Err(UnmappedType(t))
    else if IsCharType(t) then
      if charMaxLength == Some(-1) then Ok("text")
      else if Truthy(charMaxLength) && charMaxLength.value > 0 then
        Ok(Types[t] + "(" + IntToString(charMaxLength.value) + ")")
      else Ok(Types[t])
    else if IsDecimalType(t) && Truthy(precision) && Truthy(scale) then
      Ok(Types[t] + "(" + IntToString(precision.value) + ", " + IntToString(scale.value) + ")")
    else Ok(Types[t])
  }

  /** The lookup ignores the case of the SQL Server type name. */
  lemma MapDataTypeIgnoresCase(a: string, b: string, charMaxLength: Option<int>, precision: Option<int>, scale: Option<int>)
    requires EqualsIgnoreCase(a, b)
    ensures MapDataType(a, charMaxLength, precision, scale) == MapDataType(b, charMaxLength, precision, scale)
  {
  }

  /** A type outside the character and decimal families is returned exactly
      as the table maps it, whatever the length, precision and scale. */
  lemma MapDataTypeUnsuffixed(sqlType: string, charMaxLength: Option<int>, precision: Option<int>, scale: Option<int>)
    requires Lower(sqlType) in Types
    requires !IsCharType(Lower(sqlType)) && !IsDecimalType(Lower(sqlType))
    ensures MapDataType(sqlType, charMaxLength, precision, scale) == Ok(Types[Lower(sqlType)])
  {
  }

  /** A character type of length -1 (`max`) becomes `text`; a positive
      length `n` is appended as `(n)`, and the number in the parentheses reads
      back as `n`; any other length leaves the mapped type alone. */
  lemma MapDataTypeCharLength(sqlType: string, charMaxLength: Option<int>, precision: Option<int>, scale: Option<int>)
    requires IsCharType(Lower(sqlType))
    ensures var r := MapDataType(sqlType, charMaxLength, precision, scale);
      var base := Types[Lower(sqlType)];
      && r.Ok?
      && (charMaxLength == Some(-1) ==> r.value == "text")
      && (charMaxLength.Some? && charMaxLength.value > 0 ==>
            |r.value| > |base| + 2 && r.value[..|base|] == base && r.value[|base|] == '('
            && r.value[|r.value| - 1] == ')'
            && ParseInt(r.value[|base| + 1..|r.value| - 1]) == Some(charMaxLength.value))
      && (charMaxLength.None? || (charMaxLength.value <= 0 && charMaxLength.value != -1) ==> r.value == base)
  {
    var base := Types[Lower(sqlType)];
    if charMaxLength.Some? && charMaxLength.value > 0 {
      var n := charMaxLength.value;
      var v := base + "(" + IntToString(n) + ")";
      assert v[..|base|] == base;
      assert v[|base| + 1..|v| - 1] == IntToString(n);
      IntToStringRoundTrip(n);
    }
  }

  /** `decimal`/`numeric` get `(p, s)` only when both precision and scale
      are non-zero; both numbers read back from the suffix. A scale of 0 or
      NULL keeps the bare `numeric`. */
  lemma MapDataTypeDecimal(sqlType: string, charMaxLength: Option<int>, precision: Option<int>, scale: Option<int>)
    requires IsDecimalType(Lower(sqlType))
    ensures var r := MapDataType(sqlType, charMaxLength, precision, scale);
      && r.Ok?
      && (!Truthy(precision) || !Truthy(scale) ==> r.value == "numeric")
      && (Truthy(precision) && Truthy(scale) ==> PrecisionScaleSuffix(r.value, precision.value, scale.value))
  {
    DecimalBase(Lower(sqlType));
    if Truthy(precision) && Truthy(scale) {
      PrecisionScaleReadBack(precision.value, scale.value);
    }
  }

  lemma DecimalBase(t: string)
    requires IsDecimalType(t)
    ensures t in Types && Types[t] == "numeric"
  {
  }

  /** `v` is `numeric(<p>, <s>)` with the two numbers reading back as `p`
      and `s`. */
  predicate PrecisionScaleSuffix(v: string, p: int, s: int) {
    && |v| > 9 && v[..8] == "numeric(" && v[|v| - 1] == ')'
    && var parts := Split(v[8..|v| - 1], ',');
       && |parts| == 2 && parts[1] != [] && parts[1][0] == ' '
       && ParseInt(parts[0]) == Some(p)
       && ParseInt(parts[1][1..]) == Some(s)
  }

  lemma PrecisionScaleReadBack(p: int, s: int)
    ensures PrecisionScaleSuffix("numeric" + "(" + IntToString(p) + ", " + IntToString(s) + ")", p, s)
  {
    var ps := IntToString(p);
    var ss := IntToString(s);
    var v := "numeric" + "(" + ps + ", " + ss + ")";
    assert v[..8] == "numeric(";
    assert v[8..|v| - 1] == ps + [','] + (" " + ss);
    NoCommaInNumber(p);
    NoCommaInNumber(s);
    SplitPair(ps, " " + ss, ',');
    assert (" " + ss)[1..] == ss;
    IntToStringRoundTrip(p);
    IntToStringRoundTrip(s);
  }

  lemma NoCommaInNumber(i: int)
    ensures ',' !in IntToString(i)
  {
    var r := IntToString(i);
    if i < 0 {
      assert r[1..] == NatToString(-i);
      assert forall k :: 1 <= k < |r| ==> r[k] == r[1..][k - 1];
    }
  }

  // ---------------------------------------------------------------------
  // map_default_value: the rule table
  // ---------------------------------------------------------------------

  /** Python's `\w` on the characters the default patterns can meet:
      letters, digits and the underscore. */
  predicate IsWordChar(c: char) {
    ('a' <= c <= 'z') || ('A' <= c <= 'Z') || IsDigit(c) || c == '_'
  }

  /** `\b` at the start of a full match: the first character is a word
      character. */
  predicate BoundaryAtStart(v: string) {
    |v| > 0 && IsWordChar(v[0])
  }

  /** `\b` at the end of a full match: the last character is a word
      character. */
  predicate BoundaryAtEnd(v: string) {
    |v| > 0 && IsWordChar(v[|v| - 1])
  }

  /** `\d+(\.\d+)?`. */
  predicate Numeral(s: string) {
    var i := IndexOf(s, '.');
    if i == |s| then |s| > 0 && AllDigits(s)
    else 0 < i < |s| - 1 && AllDigits(s[..i]) && AllDigits(s[i + 1..])
  }

  /** The shapes of the patterns of the default table, each a full match
      under IGNORECASE. */
  datatype Pattern =
    | Call(name: string)  // \bNAME\(\s*\)
    | Word(name: string)  // \bNAME
    | QuotedString        // \b'[^']*'
    | Number              // \b-?\d+(\.\d+)?\b
    | EmptyString         // \b''

  predicate Matches(p: Pattern, v: string) {
    match p
    case Call(name) =>
      && BoundaryAtStart(v)
      && |v| >= |name| + 2
      && EqualsIgnoreCase(v[..|name|], name)
      && v[|name|] == '('
      && AllSpace(v[|name| + 1..|v| - 1])
      && v[|v| - 1] == ')'
    case Word(name) =>
      BoundaryAtStart(v) && EqualsIgnoreCase(v, name)
    case QuotedString =>
      && BoundaryAtStart(v)
      && |v| >= 2 && v[0] == '\'' && v[|v| - 1] == '\''
      && '\'' !in v[1..|v| - 1]
    case Number =>
      && BoundaryAtStart(v)
      && (Numeral(v) || (|v| > 0 && v[0] == '-' && Numeral(v[1..])))
      && BoundaryAtEnd(v)
    case EmptyString =>
      BoundaryAtStart(v) && v == "''"
  }

  /** A replacement is either fixed text or the matched text itself. */
  datatype Replacement = Fixed(text: string) | MatchedText

  datatype Rule = Rule(pattern: Pattern, replacement: Replacement)

  const Utc := "(CURRENT_TIMESTAMP AT TIME ZONE 'UTC')"

  /** `default_mapping`, in its insertion order. */
  const Rules: seq<Rule> := [
    Rule(Call("NEWID"), Fixed("gen_random_uuid()")),
    Rule(Call("NEWSEQUENTIALID"), Fixed("gen_random_uuid()")),
    Rule(Call("GETDATE"), Fixed("CURRENT_TIMESTAMP")),
    Rule(Call("SYSDATETIME"), Fixed("CURRENT_TIMESTAMP")),
    Rule(Call("SYSUTCDATETIME"), Fixed(Utc)),
    Rule(Call("GETUTCDATE"), Fixed(Utc)),
    Rule(Word("CURRENT_TIMESTAMP"), Fixed("CURRENT_TIMESTAMP")),
    Rule(Word("CURRENT_USER"), Fixed("CURRENT_USER")),
    Rule(Word("SESSION_USER"), Fixed("SESSION_USER")),
    Rule(Word("SYSTEM_USER"), Fixed("CURRENT_USER")),
    Rule(Word("USER"), Fixed("CURRENT_USER")),
    Rule(Call("SUSER_SNAME"), Fixed("CURRENT_USER")),
    Rule(Call("HOST_NAME"), Fixed("inet_client_addr()")),
    Rule(Word("NULL"), Fixed("NULL")),
    Rule(QuotedString, MatchedText),
    Rule(Number, MatchedText),
    Rule(EmptyString, Fixed("''"))
  ]

  function Apply(rule: Rule, v: string): string {
    match rule.replacement
    case Fixed(text) => text
    case MatchedText => v
  }

  /** The position of the first rule whose pattern matches `v`, or `|rules|`
      when none does. */
  function FirstMatch(rules: seq<Rule>, v: string): (i: nat)
    ensures i <= |rules|
    ensures forall j :: 0 <= j < i ==> !Matches(rules[j].pattern, v)
    ensures i < |rules| ==> Matches(rules[i].pattern, v)
  {
    if rules == [] then 0
    else if Matches(rules[0].pattern, v) then 0
    else 1 + FirstMatch(rules[1..], v)
  }

  // ---------------------------------------------------------------------
  // map_default_value: normalisation and the whole translation
  // ---------------------------------------------------------------------

  /** `v.startswith('(') and v.endswith(')')`. */
  predicate Enclosed(v: string) {
    |v| > 0 && v[0] == '(' && v[|v| - 1] == ')'
  }

  /** The `while` loop: drop one pair of enclosing parentheses and the
      whitespace inside them, as long as the text starts with `(` and ends
      with `)`. */
  function StripParens(v: string): string
    decreases |v|
  {
    if Enclosed(v) then StripParens(Strip(v[1..|v| - 1]))
    else v
  }

  /** The default text the rules are matched against. */
  function Normalize(d: string): string {
    StripParens(Strip(d))
  }

  function UnmappedDefault(v: string, sqlType: string): string {
    "Unmapped default value '" + v + "' for type '" + sqlType + "' detected. Please add a mapping."
  }

  /** `f'DEFAULT {replacement}'`. */
  function DefaultClause(text: string): string {
    "DEFAULT " + text
  }

  /** What `map_default_value(default_value, sqlserver_type)` returns when
      its pattern table is `rules`; the `ValueError` is the `Err` case. */
  function MapDefault(rules: seq<Rule>, defaultValue: Option<string>, sqlType: string): Result<string, string> {
    if defaultValue.None? || defaultValue.value == [] then Ok("")
    else MapNormalized(rules, Normalize(defaultValue.value), sqlType)
  }

  /** The part of `map_default_value` after the parenthesis loop: the `bit`
      literals, then the first matching pattern of the table. */
  function MapNormalized(rules: seq<Rule>, v: string, sqlType: string): Result<string, string> {
    if Lower(sqlType) == "bit" && Matches(Word("0"), v) then Ok("DEFAULT FALSE")
    else if Lower(sqlType) == "bit" && Matches(Word("1"), v) then Ok("DEFAULT TRUE")
    else
      var i := FirstMatch(rules, v);
      if i < |rules| then Ok(DefaultClause(Apply(rules[i], v)))
      else Err(UnmappedDefault(v, sqlType))
  }

  /** `map_default_value`: the parenthesis loop and the scan of the rule
      table. */
  method MapDefaultValue(defaultValue: Option<string>, sqlType: string) returns (r: Result<string, string>)
    ensures r == MapDefault(Rules, defaultValue, sqlType)
  {
    if defaultValue.None? || defaultValue.value == [] {
      return Ok("");
    }
    var v := Strip(defaultValue.value);
    while Enclosed(v)
      invariant StripParens(v) == Normalize(defaultValue.value)
      decreases |v|
    {
      v := Strip(v[1..|v| - 1]);
    }
    if Lower(sqlType) == "bit" {
      if Matches(Word("0"), v) {
        return Ok("DEFAULT FALSE");
      }
      if Matches(Word("1"), v) {
        return Ok("DEFAULT TRUE");
      }
    }
    var i := Scan(Rules, v);
    if i < |Rules| {
      return Ok(DefaultClause(Apply(Rules[i], v)));
    }
    return Err(UnmappedDefault(v, sqlType));
  }

  /** The `for pattern, replacement in default_mapping.items()` loop: the
      position of the first pattern that fully matches. */
  method Scan(rules: seq<Rule>, v: string) returns (i: nat)
    ensures i == FirstMatch(rules, v)
  {
    i := 0;
    while i < |rules|
      invariant i <= |rules|
      invariant forall j :: 0 <= j < i ==> !Matches(rules[j].pattern, v)
    {
      if Matches(rules[i].pattern, v) {
        return;
      }
      i := i + 1;
    }
  }

  // ---------------------------------------------------------------------
  // Properties of the translation
  // ---------------------------------------------------------------------

  /** Text that neither starts nor ends with whitespace. */
  predicate Stripped(v: string) {
    v == [] || (!IsSpace(v[0]) && !IsSpace(v[|v| - 1]))
  }

  /** A missing or empty default, and only that, gives no DEFAULT clause;
      every other accepted default is a `DEFAULT ...` clause. */
  lemma DefaultShape(rules: seq<Rule>, defaultValue: Option<string>, sqlType: string)
    ensures MapDefault(rules, defaultValue, sqlType) == Ok("") <==> defaultValue.None? || defaultValue.value == []
    ensures var r := MapDefault(rules, defaultValue, sqlType);
      r.Ok? && r.value != "" ==> |r.value| >= 8 && r.value[..8] == "DEFAULT "
  {
    if defaultValue.Some? && defaultValue.value != [] {
      NormalizedShape(rules, Normalize(defaultValue.value), sqlType);
    }
  }

  lemma NormalizedShape(rules: seq<Rule>, v: string, sqlType: string)
    ensures var r := MapNormalized(rules, v, sqlType);
      r.Ok? ==> |r.value| >= 8 && r.value[..8] == "DEFAULT "
  {
    var r := MapNormalized(rules, v, sqlType);
    if r.Ok? {
      var i := FirstMatch(rules, v);
      if Lower(sqlType) == "bit" && (Matches(Word("0"), v) || Matches(Word("1"), v)) {
      } else {
        assert r.value == DefaultClause(Apply(rules[i], v));
      }
    }
  }

  /** The normalised text is stripped and not enclosed in parentheses. */
  lemma {:induction false} StripParensResult(v: string)
    requires Stripped(v)
    ensures Stripped(StripParens(v)) && !Enclosed(StripParens(v))
    decreases |v|
  {
    if Enclosed(v) {
      StripParensResult(Strip(v[1..|v| - 1]));
    }
  }

  /** Normalising twice is normalising once. */
  lemma NormalizeIdempotent(d: string)
    ensures Normalize(Normalize(d)) == Normalize(d)
  {
    StripParensResult(Strip(d));
    var n := Normalize(d);
    StripNoop(n);
  }

  /** One more layer of parentheses changes nothing. */
  lemma NormalizeEnclosed(x: string)
    ensures Normalize("(" + x + ")") == Normalize(x)
  {
    StripEnclosedNoop(x);
    UnwrapEnclosed(x);
  }

  lemma StripEnclosedNoop(x: string)
    ensures Strip("(" + x + ")") == "(" + x + ")"
  {
    StripNoop("(" + x + ")");
  }

  lemma UnwrapEnclosed(x: string)
    ensures StripParens("(" + x + ")") == StripParens(Strip(x))
  {
    var e := "(" + x + ")";
    assert e[1..|e| - 1] == x;
  }

  /** `k` layers of parentheses around `x`. */
  function Enclose(x: string, k: nat): string {
    if k == 0 then x else "(" + Enclose(x, k - 1) + ")"
  }

  lemma {:induction false} NormalizeLayers(x: string, k: nat, y: string)
    requires y == Enclose(x, k)
    ensures Normalize(y) == Normalize(x)
  {
    if k > 0 {
      var e := Enclose(x, k - 1);
      NormalizeLayers(x, k - 1, e);
      NormalizeEnclosed(e);
    }
  }

  /** `((0))` is translated as `0` is: any number of enclosing parentheses
      around a non-empty default is ignored. */
  lemma DefaultIgnoresParens(rules: seq<Rule>, x: string, k: nat, sqlType: string)
    requires x != []
    ensures MapDefault(rules, Some(Enclose(x, k)), sqlType) == MapDefault(rules, Some(x), sqlType)
  {
    var y := Enclose(x, k);
    NormalizeLayers(x, k, y);
    EncloseLength(x, k);
  }

  lemma {:induction false} EncloseLength(x: string, k: nat)
    ensures |Enclose(x, k)| == |x| + 2 * k
  {
    if k > 0 {
      EncloseLength(x, k - 1);
    }
  }

  /** Every pattern begins with `\b`, so a default that starts with a quote
      or a minus sign matches none of them: quoted strings, negative numbers
      and `''` are rejected. */
  lemma {:induction false} NoBoundaryNoMatch(rules: seq<Rule>, v: string)
    requires v != [] && (v[0] == '\'' || v[0] == '-')
    ensures FirstMatch(rules, v) == |rules|
  {
    if rules != [] {
      NoBoundaryNoMatch(rules[1..], v);
    }
  }

  /** A default whose normalised text starts with a quote or a minus sign
      gets the unmapped-default error, whatever the column type. */
  lemma QuotedRejected(rules: seq<Rule>, v: string, sqlType: string)
    requires v != [] && (v[0] == '\'' || v[0] == '-')
    ensures MapNormalized(rules, v, sqlType) == Err(UnmappedDefault(v, sqlType))
  {
    NoBoundaryNoMatch(rules, v);
  }

  /** A pattern that starts with an upper-case name: the function-call and
      keyword patterns. */
  predicate Named(p: Pattern) {
    (p.Call? || p.Word?) && p.name != [] && 'A' <= p.name[0] <= 'Z'
  }

  /** The shape of the table that decides numeric defaults: fourteen named
      patterns, the quoted-string pattern, then the number pattern, which
      keeps the matched text. */
  predicate NumbersKeptBy(rules: seq<Rule>) {
    && |rules| > 15
    && (forall j :: 0 <= j < 14 ==> Named(rules[j].pattern))
    && rules[14].pattern == QuotedString
    && rules[15] == Rule(Number, MatchedText)
  }

  lemma RulesKeepNumbers()
    ensures NumbersKeptBy(Rules)
  {
  }

  lemma NamedRejectsDigit(p: Pattern, v: string)
    requires Named(p) && v != [] && IsDigit(v[0])
    ensures !Matches(p, v)
  {
    var n := p.name;
    assert 'a' <= Lower(n)[0] <= 'z';
    if p.Call? && |v| >= |n| {
      assert Lower(v[..|n|])[0] == v[0];
    } else if p.Word? && |v| == |n| {
      assert Lower(v)[0] == v[0];
    }
  }

  lemma NumeralEnds(v: string)
    requires Numeral(v)
    ensures IsDigit(v[0]) && IsDigit(v[|v| - 1])
  {
    var i := IndexOf(v, '.');
    if i < |v| {
      assert v[..i][0] == v[0];
      assert v[i + 1..][|v| - i - 2] == v[|v| - 1];
    }
  }

  /** An unsigned decimal literal is kept verbatim (`42` gives
      `DEFAULT 42`), except that a `bit` column turns `0` and `1` into the
      boolean literals first. */
  lemma NumberKept(rules: seq<Rule>, v: string, sqlType: string)
    requires NumbersKeptBy(rules) && Numeral(v)
    ensures MapNormalized(rules, v, sqlType) ==
      if Lower(sqlType) == "bit" && v == "0" then Ok("DEFAULT FALSE")
      else if Lower(sqlType) == "bit" && v == "1" then Ok("DEFAULT TRUE")
      else Ok(DefaultClause(v))
  {
    NumeralEnds(v);
    forall j | 0 <= j < 14 ensures !Matches(rules[j].pattern, v) {
      NamedRejectsDigit(rules[j].pattern, v);
    }
    assert FirstMatch(rules, v) == 15;
  }

  /** A `NEWID()` call, in any case and with any blanks between the
      parentheses, gives `DEFAULT gen_random_uuid()`. */
  lemma NewIdDefault(v: string, sqlType: string)
    requires Matches(Call("NEWID"), v)
    ensures MapNormalized(Rules, v, sqlType) == Ok(DefaultClause("gen_random_uuid()"))
  {
    assert |Lower(v)| > 1;
    assert FirstMatch(Rules, v) == 0;
  }

  /** A call matched by `Call(name)` spells `name` in any case. */
  lemma CallLetter(name: string, v: string, i: nat)
    requires Matches(Call(name), v) && i < |name|
    ensures LowerChar(v[i]) == LowerChar(name[i])
  {
    assert Lower(v[..|name|])[i] == LowerChar(v[i]);
    assert Lower(name)[i] == LowerChar(name[i]);
  }

  /** Two function names with different initials match different calls. */
  lemma CallsDiffer(a: string, b: string, v: string)
    requires Matches(Call(a), v) && a != [] && b != []
    requires LowerChar(a[0]) != LowerChar(b[0])
    ensures !Matches(Call(b), v)
  {
    CallLetter(a, v, 0);
    if Matches(Call(b), v) {
      CallLetter(b, v, 0);
    }
  }

  /** The shape of the table that decides `GETUTCDATE()`: five function
      calls that are either `GETDATE()` or start with another letter, then
      `GETUTCDATE()` with the UTC expression. */
  predicate UtcKeptBy(rules: seq<Rule>) {
    && |rules| > 5
    && (forall j :: 0 <= j < 5 ==>
          rules[j].pattern == Call("GETDATE") ||
          (rules[j].pattern.Call? && rules[j].pattern.name != [] && LowerChar(rules[j].pattern.name[0]) != 'g'))
    && rules[5] == Rule(Call("GETUTCDATE"), Fixed(Utc))
  }

  lemma RulesKeepUtc()
    ensures UtcKeptBy(Rules)
  {
  }

  /** Under such a table a `GETUTCDATE()` call gives the UTC expression. */
  lemma UtcDefault(rules: seq<Rule>, v: string, sqlType: string)
    requires UtcKeptBy(rules) && Matches(Call("GETUTCDATE"), v)
    ensures MapNormalized(rules, v, sqlType) == Ok(DefaultClause(Utc))
  {
    EarlyCallsMiss(rules, v);
    assert |Lower(v)| > 1;
    var i := FirstMatch(rules, v);
    assert !(i < 5);
    assert !(i > 5);
  }

  /** None of the five calls before it matches a `GETUTCDATE()` call. */
  lemma EarlyCallsMiss(rules: seq<Rule>, v: string)
    requires UtcKeptBy(rules) && Matches(Call("GETUTCDATE"), v)
    ensures forall j :: 0 <= j < 5 ==> !Matches(rules[j].pattern, v)
  {
    var g := "GETUTCDATE";
    CallLetter(g, v, 0);
    CallLetter(g, v, 7);
    forall j | 0 <= j < 5 ensures !Matches(rules[j].pattern, v) {
      if rules[j].pattern != Call("GETDATE") {
        CallsDiffer(g, rules[j].pattern.name, v);
      }
    }
  }

  /** A `GETUTCDATE()` call, in any case and with any blanks between the
      parentheses, gives `DEFAULT (CURRENT_TIMESTAMP AT TIME ZONE 'UTC')`. */
  lemma GetUtcDateDefault(v: string, sqlType: string)
    requires Matches(Call("GETUTCDATE"), v)
    ensures MapNormalized(Rules, v, sqlType) == Ok(DefaultClause(Utc))
  {
    RulesKeepUtc();
    UtcDefault(Rules, v, sqlType);
  }

  // ---------------------------------------------------------------------
  // Trailing text: what the `strip()` of a column definition meets
  // ---------------------------------------------------------------------

  /** Non-empty text that does not end in whitespace. */
  predicate EndsSolid(s: string) {
    s != [] && !IsSpace(s[|s| - 1])
  }

  lemma TypesEndSolid(t: string)
    requires t in Types
    ensures EndsSolid(Types[t])
  {
  }

  /** A translated type never ends in whitespace. */
  lemma MapDataTypeEndsSolid(sqlType: string, charMaxLength: Option<int>, precision: Option<int>, scale: Option<int>)
    ensures var r := MapDataType(sqlType, charMaxLength, precision, scale);
      r.Ok? ==> EndsSolid(r.value)
  {
    var t := Lower(sqlType);
    if t in Types {
      TypesEndSolid(t);
    }
  }

  /** Every fixed replacement of `rules` ends in a non-space character. */
  predicate FixedEndSolid(rules: seq<Rule>) {
    forall i :: 0 <= i < |rules| && rules[i].replacement.Fixed? ==> EndsSolid(rules[i].replacement.text)
  }

  lemma RulesEndSolid()
    ensures FixedEndSolid(Rules)
  {
  }

  lemma MatchesNonEmpty(p: Pattern, v: string)
    requires Matches(p, v)
    ensures v != []
  {
  }

  /** A DEFAULT clause never ends in whitespace. */
  lemma DefaultEndsSolid(rules: seq<Rule>, defaultValue: Option<string>, sqlType: string)
    requires FixedEndSolid(rules)
    ensures var r := MapDefault(rules, defaultValue, sqlType);
      r.Ok? && r.value != "" ==> EndsSolid(r.value)
  {
    if defaultValue.Some? && defaultValue.value != [] {
      StripParensResult(Strip(defaultValue.value));
      NormalizedEndsSolid(rules, Normalize(defaultValue.value), sqlType);
    }
  }

  lemma NormalizedEndsSolid(rules: seq<Rule>, v: string, sqlType: string)
    requires FixedEndSolid(rules) && Stripped(v)
    ensures var r := MapNormalized(rules, v, sqlType);
      r.Ok? ==> EndsSolid(r.value)
  {
    var i := FirstMatch(rules, v);
    if i < |rules| {
      MatchesNonEmpty(rules[i].pattern, v);
      var text := Apply(rules[i], v);
      assert DefaultClause(text)[|DefaultClause(text)| - 1] == text[|text| - 1];
    }
  }
}
