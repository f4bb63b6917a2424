/**
 * The prompts sent to the language model when a column type or a default
 * value has no fixed translation (prompts.py). Each is a template with a
 * fixed heading, labelled lines for the column's facts, optional lines for
 * the arguments that are given, and fixed instructions; the text is
 * stripped of surrounding whitespace. Values are given as the text
 * Python's `str()` makes of them.
 */
module Prompts {
  import opened Text

  /** Python truthiness of an optional text: neither `None` nor empty. */
  predicate Given(x: Option<string>) {
    x.Some? && x.value != []
  }

  /** The arguments of `build_column_context_prompt`; `sampleValues` holds
      the text of each sample, and is empty when there are none. */
  datatype ColumnRequest = ColumnRequest(
    tableName: string, columnName: string, sqlserverType: string,
    charMaxLength: Option<int>, numericPrecision: Option<int>, numericScale: Option<int>,
    defaultValue: Option<string>, sampleValues: seq<string>, customDescription: Option<string>)

  /** The arguments of `build_default_value_prompt`. */
  datatype DefaultRequest = DefaultRequest(
    tableName: string, columnName: string, sqlserverType: string,
    defaultValue: string, customDescription: Option<string>)

  /** `sample_values[:5]`. */
  function FirstFive(samples: seq<string>): (r: seq<string>)
    ensures |r| <= 5 && |r| <= |samples| && r == samples[..|r|]
    ensures |samples| <= 5 ==> r == samples
    ensures |samples| >= 5 ==> |r| == 5
  {
    if |samples| <= 5 then samples else samples[..5]
  }

  // The long sentences are split into pieces so that their first and last
  // characters are within reach of the verifier.
  const ColumnHint := "If the data type needs a PostgreSQL "
    + "extension like PostGIS or ltree, mention the mapped datatype as varchar, "
    + "and add the required extension in your output. For example:"
  const ColumnReturn := "Return only the PostgreSQL datatype "
    + "and the required PostgreSQL extension in comment in a single line."
  const ColumnTask := "You are converting a SQL Server column "
    + "definition to a PostgreSQL-compatible type."
  const DefaultTask := "You are converting a SQL Server default "
    + "value to a PostgreSQL-compatible DEFAULT clause."
  const DefaultLabel := "Default Value: "
  const SamplesLabel := "Sample Values: "
  const DescriptionLabel := "Description: "

  /** The closing triple-quoted string of each template, line by line. */
  const ColumnInstructions: seq<string> := [
    "", "",
    ColumnHint,
    "    input: geography",
    "    output:\"varchar /* requires " + "PostGIS extension */\"",
    "    input: hierarchyid",
    "    output: \"varchar /* requires " + "ltree extension */\"",
    "    ",
    ColumnReturn]

  const DefaultInstructions: seq<string> := [
    "",
    "Return only the PostgreSQL DEFAULT " + "expression on a single line.",
    "If this value requires a PostgreSQL "
      + "extension (e.g., PostGIS for geometry), include a comment like:",
    "    ST_GeomFromText('POINT(0 0)', 4326) " + "/* requires PostGIS */"]

  // ---------------------------------------------------------------------
  // The templates. Each triple-quoted literal of the source is written as
  // its lines, each followed by a newline (`Unlines`); the optional lines
  // are appended as the source appends them, and the text is stripped.
  // ---------------------------------------------------------------------

  /** The opening f-string of `build_column_context_prompt` after its first
      newline: the task and the column's facts. */
  function ColumnFacts(c: ColumnRequest): seq<string> {
    [ColumnTask, "",
     "Table: " + c.tableName, "Column: " + c.columnName, "SQL Server Type: " + c.sqlserverType,
     "Length: " + IntOrNoneToString(c.charMaxLength),
     "Precision: " + IntOrNoneToString(c.numericPrecision),
     "Scale: " + IntOrNoneToString(c.numericScale)]
  }

  /** The opening f-string of `build_default_value_prompt` after its first
      newline. */
  function DefaultFacts(d: DefaultRequest): seq<string> {
    [DefaultTask, "",
     "Table: " + d.tableName, "Column: " + d.columnName, "SQL Server Type: " + d.sqlserverType,
     "Default Expression: " + d.defaultValue]
  }

  /** `build_column_context_prompt` (prompts.py:1-33). */
  function BuildColumnContextPrompt(c: ColumnRequest): string {
    var prompt := "\n" + Unlines(ColumnFacts(c));
    var prompt := if Given(c.defaultValue) then prompt + DefaultLabel + c.defaultValue.value + "\n" else prompt;
    var prompt := if c.sampleValues != [] then
        prompt + SamplesLabel + Join(FirstFive(c.sampleValues), ", ") + "\n"
      else prompt;
    var prompt := if Given(c.customDescription) then prompt + DescriptionLabel + c.customDescription.value + "\n" else prompt;
    var prompt := prompt + Unlines(ColumnInstructions);
    Strip(prompt)
  }

  /** `build_default_value_prompt` (prompts.py:35-53). */
  function BuildDefaultValuePrompt(d: DefaultRequest): string {
    var prompt := "\n" + Unlines(DefaultFacts(d));
    var prompt := if Given(d.customDescription) then prompt + DescriptionLabel + d.customDescription.value + "\n" else prompt;
    var prompt := prompt + Unlines(DefaultInstructions);
    Strip(prompt)
  }

  // ---------------------------------------------------------------------
  // The same prompts as lists of lines
  // ---------------------------------------------------------------------

  function DefaultValueLines(value: Option<string>): seq<string> {
    if Given(value) then [DefaultLabel + value.value] else []
  }

  function SampleLines(samples: seq<string>): seq<string> {
    if samples != [] then [SamplesLabel + Join(FirstFive(samples), ", ")] else []
  }

  function DescriptionLines(description: Option<string>): seq<string> {
    if Given(description) then [DescriptionLabel + description.value] else []
  }

  function ColumnOptional(c: ColumnRequest): seq<string> {
    DefaultValueLines(c.defaultValue) + SampleLines(c.sampleValues) + DescriptionLines(c.customDescription)
  }

  function ColumnLines(c: ColumnRequest): seq<string> {
    ColumnFacts(c) + ColumnOptional(c) + ColumnInstructions
  }

  function DefaultLines(d: DefaultRequest): seq<string> {
    DefaultFacts(d) + DescriptionLines(d.customDescription) + DefaultInstructions
  }

  // ---------------------------------------------------------------------
  // The concatenated text is the lines, and `strip()` removes only the
  // template's outer newlines
  // ---------------------------------------------------------------------

  /** Stripping a text framed by newlines whose inside starts and ends with
      a visible character gives back its inside. */
  lemma StripFramed(lines: seq<string>)
    requires lines != [] && lines[0] != [] && lines[|lines| - 1] != []
    requires !IsSpace(lines[0][0]) && !IsSpace(lines[|lines| - 1][|lines[|lines| - 1]| - 1])
    ensures Strip("\n" + Unlines(lines)) == Join(lines, "\n")
  {
    var inside := Join(lines, "\n");
    UnlinesJoin(lines);
    JoinEnds(lines, "\n");
    assert inside[0] == inside[..|lines[0]|][0];
    var last := lines[|lines| - 1];
    assert inside[|inside| - 1] == inside[|inside| - |last|..][|last| - 1];
    assert "\n" + Unlines(lines) == "\n" + inside + "\n";
    StripPadded("\n", inside, "\n");
  }

  /** Appending an optional line as the source does appends its `Unlines`. */
  lemma AppendLine(prompt: string, lines: seq<string>, tag: string, value: string)
    requires lines == [] || lines == [tag + value]
    ensures (if lines != [] then prompt + tag + value + "\n" else prompt) == prompt + Unlines(lines)
  {
    if lines == [] {
      assert prompt + Unlines(lines) == prompt;
    }
  }

  /** Both templates start with "You" and end with a visible character:
      a full stop for the column prompt, the `/` closing the PostGIS
      comment for the default prompt. */
  lemma VisibleEnds(first: string, last: string)
    requires first == ColumnTask || first == DefaultTask
    requires last == ColumnReturn || last == DefaultInstructions[3]
    ensures first != [] && first[0] == 'Y' && !IsSpace(first[0])
    ensures last != [] && last[|last| - 1] == (if last == ColumnReturn then '.' else '/')
    ensures !IsSpace(last[|last| - 1])
  {
    assert first[0] == 'Y';
    assert last[|last| - 1] == '.' || last[|last| - 1] == '/';
  }

  lemma Associate<T>(a: seq<T>, b: seq<T>, c: seq<T>)
    ensures (a + b) + c == a + (b + c)
  {
  }

  lemma ColumnTemplate(c: ColumnRequest)
    ensures BuildColumnContextPrompt(c) == Strip("\n" + Unlines(ColumnLines(c)))
  {
    var f, v, s, e := ColumnFacts(c), DefaultValueLines(c.defaultValue), SampleLines(c.sampleValues),
      DescriptionLines(c.customDescription);
    var p0 := "\n" + Unlines(f);
    AppendLine(p0, v, DefaultLabel, if Given(c.defaultValue) then c.defaultValue.value else []);
    var p1 := p0 + Unlines(v);
    AppendLine(p1, s, SamplesLabel, Join(FirstFive(c.sampleValues), ", "));
    var p2 := p1 + Unlines(s);
    AppendLine(p2, e, DescriptionLabel, if Given(c.customDescription) then c.customDescription.value else []);
    UnlinesAppend(f, v);
    Associate("\n", Unlines(f), Unlines(v));
    UnlinesAppend(f + v, s);
    Associate("\n", Unlines(f + v), Unlines(s));
    UnlinesAppend(f + v + s, e);
    Associate("\n", Unlines(f + v + s), Unlines(e));
    UnlinesAppend(f + v + s + e, ColumnInstructions);
    Associate("\n", Unlines(f + v + s + e), Unlines(ColumnInstructions));
    Associate(f, v, s);
    Associate(f, v + s, e);
  }

  /** `build_column_context_prompt` returns its lines joined by newlines:
      `strip()` removes only the template's first and last newline. */
  lemma ColumnContextPromptLines(c: ColumnRequest)
    ensures BuildColumnContextPrompt(c) == Join(ColumnLines(c), "\n")
  {
    ColumnTemplate(c);
    var lines := ColumnLines(c);
    assert lines[0] == ColumnTask;
    assert lines[|lines| - 1] == ColumnReturn;
    VisibleEnds(ColumnTask, ColumnReturn);
    StripFramed(lines);
  }

  lemma DefaultTemplate(d: DefaultRequest)
    ensures BuildDefaultValuePrompt(d) == Strip("\n" + Unlines(DefaultLines(d)))
  {
    var f, e := DefaultFacts(d), DescriptionLines(d.customDescription);
    AppendLine("\n" + Unlines(f), e, DescriptionLabel, if Given(d.customDescription) then d.customDescription.value else []);
    UnlinesAppend(f, e);
    Associate("\n", Unlines(f), Unlines(e));
    UnlinesAppend(f + e, DefaultInstructions);
    Associate("\n", Unlines(f + e), Unlines(DefaultInstructions));
  }

  /** `build_default_value_prompt` returns its lines joined by newlines. */
  lemma DefaultValuePromptLines(d: DefaultRequest)
    ensures BuildDefaultValuePrompt(d) == Join(DefaultLines(d), "\n")
  {
    DefaultTemplate(d);
    var lines := DefaultLines(d);
    assert lines[0] == DefaultTask;
    assert lines[|lines| - 1] == DefaultInstructions[3];
    VisibleEnds(DefaultTask, DefaultInstructions[3]);
    StripFramed(lines);
  }

  // ---------------------------------------------------------------------
  // Which lines a prompt has
  // ---------------------------------------------------------------------

  /** Some line of the prompt starts with `tag`. */
  predicate HasLine(lines: seq<string>, tag: string) {
    exists i :: 0 <= i < |lines| && StartsWith(lines[i], tag)
  }

  /** The labels of the optional lines start with "De" or "Sa". */
  predicate OptionalLabel(tag: string) {
    |tag| >= 2 && ((tag[0] == 'D' && tag[1] == 'e') || (tag[0] == 'S' && tag[1] == 'a'))
  }

  /** A line that does not start with "De" or "Sa", as no fixed line does. */
  predicate Unlabelled(line: string) {
    |line| < 2 || !((line[0] == 'D' && line[1] == 'e') || (line[0] == 'S' && line[1] == 'a'))
  }

  lemma FixedLinesUnlabelled(fixed: seq<string>, tag: string)
    requires OptionalLabel(tag)
    requires forall line :: line in fixed ==> Unlabelled(line)
    ensures !HasLine(fixed, tag)
  {
    forall i | 0 <= i < |fixed| ensures !StartsWith(fixed[i], tag) {
      assert fixed[i] in fixed;
    }
  }

  lemma ColumnFixedUnlabelled(c: ColumnRequest)
    ensures forall line :: line in ColumnFacts(c) ==> Unlabelled(line)
    ensures forall line :: line in ColumnInstructions ==> Unlabelled(line)
  {
    var f := ColumnFacts(c);
    assert f[0][0] == 'Y' && f[2][0] == 'T' && f[3][0] == 'C' && f[4][1] == 'Q';
    assert f[5][0] == 'L' && f[6][0] == 'P' && f[7][1] == 'c';
    var ins := ColumnInstructions;
    assert ins[2][0] == 'I' && ins[3][0] == ' ' && ins[4][0] == ' ' && ins[5][0] == ' ';
    assert ins[6][0] == ' ' && ins[8][0] == 'R';
  }

  /** No fixed line of a default-value prompt starts with `Description: `;
      its facts carry the default expression last. */
  lemma DefaultFixedUntagged(d: DefaultRequest)
    ensures DefaultFacts(d) == DefaultFacts(d)[..5] + ["Default Expression: " + d.defaultValue]
    ensures forall line :: line in DefaultFacts(d)[..5] ==> Unlabelled(line)
    ensures forall line :: line in DefaultInstructions ==> Unlabelled(line)
  {
    var f := DefaultFacts(d);
    assert f[0][0] == 'Y' && f[2][0] == 'T' && f[3][0] == 'C' && f[4][1] == 'Q';
    var ins := DefaultInstructions;
    assert ins[1][0] == 'R' && ins[2][0] == 'I' && ins[3][0] == ' ';
  }

  /** A line that starts with a tag is present exactly when one of the
      parts holds it. */
  lemma HasLineAppend(a: seq<string>, b: seq<string>, tag: string)
    ensures HasLine(a + b, tag) <==> HasLine(a, tag) || HasLine(b, tag)
  {
    if i :| 0 <= i < |a + b| && StartsWith((a + b)[i], tag) {
      if i >= |a| {
        assert (a + b)[i] == b[i - |a|];
      }
    }
    if i :| 0 <= i < |b| && StartsWith(b[i], tag) {
      assert (a + b)[|a| + i] == b[i];
    }
    if i :| 0 <= i < |a| && StartsWith(a[i], tag) {
      assert (a + b)[i] == a[i];
    }
  }

  /** Each optional line starts with its own label and with neither of
      the other two. */
  lemma OptionalLineLabels(x: string)
    ensures StartsWith(DefaultLabel + x, DefaultLabel)
    ensures !StartsWith(DefaultLabel + x, SamplesLabel) && !StartsWith(DefaultLabel + x, DescriptionLabel)
    ensures StartsWith(SamplesLabel + x, SamplesLabel)
    ensures !StartsWith(SamplesLabel + x, DefaultLabel) && !StartsWith(SamplesLabel + x, DescriptionLabel)
    ensures StartsWith(DescriptionLabel + x, DescriptionLabel)
    ensures !StartsWith(DescriptionLabel + x, DefaultLabel) && !StartsWith(DescriptionLabel + x, SamplesLabel)
  {
    assert (DefaultLabel + x)[..|DefaultLabel|] == DefaultLabel;
    assert (SamplesLabel + x)[..|SamplesLabel|] == SamplesLabel;
    assert (DescriptionLabel + x)[..|DescriptionLabel|] == DescriptionLabel;
    assert (DefaultLabel + x)[2] == 'f' && (SamplesLabel + x)[0] == 'S' && (DescriptionLabel + x)[2] == 's';
  }

  /** An optional part of at most one line has a line with a given tag
      exactly when its line starts with it. */
  lemma HasSingleLine(lines: seq<string>, line: string, tag: string)
    requires lines == [] || lines == [line]
    ensures HasLine(lines, tag) <==> lines != [] && StartsWith(line, tag)
  {
    if lines != [] {
      assert lines[0] == line;
    }
  }

  /** The optional lines of a column prompt, each with its own label. */
  lemma ColumnOptionalLines(c: ColumnRequest)
    ensures HasLine(ColumnOptional(c), DefaultLabel) <==> Given(c.defaultValue)
    ensures HasLine(ColumnOptional(c), SamplesLabel) <==> c.sampleValues != []
    ensures HasLine(ColumnOptional(c), DescriptionLabel) <==> Given(c.customDescription)
  {
    var v, s, e := DefaultValueLines(c.defaultValue), SampleLines(c.sampleValues), DescriptionLines(c.customDescription);
    var dv := if Given(c.defaultValue) then c.defaultValue.value else "";
    var sv := Join(FirstFive(c.sampleValues), ", ");
    var ev := if Given(c.customDescription) then c.customDescription.value else "";
    OptionalLineLabels(dv);
    OptionalLineLabels(sv);
    OptionalLineLabels(ev);
    OptionalPartLines(v, s, e, DefaultLabel + dv, SamplesLabel + sv, DescriptionLabel + ev, DefaultLabel);
    OptionalPartLines(v, s, e, DefaultLabel + dv, SamplesLabel + sv, DescriptionLabel + ev, SamplesLabel);
    OptionalPartLines(v, s, e, DefaultLabel + dv, SamplesLabel + sv, DescriptionLabel + ev, DescriptionLabel);
  }

  lemma OptionalPartLines(v: seq<string>, s: seq<string>, e: seq<string>, vl: string, sl: string, el: string, tag: string)
    requires v == [] || v == [vl]
    requires s == [] || s == [sl]
    requires e == [] || e == [el]
    ensures HasLine(v + s + e, tag) <==>
      (v != [] && StartsWith(vl, tag)) || (s != [] && StartsWith(sl, tag)) || (e != [] && StartsWith(el, tag))
  {
    HasLineAppend(v, s, tag);
    HasLineAppend(v + s, e, tag);
    HasSingleLine(v, vl, tag);
    HasSingleLine(s, sl, tag);
    HasSingleLine(e, el, tag);
  }

  /** A column prompt always opens with the task and the table, column,
      type, length, precision and scale lines, in that order, and ends
      with the instructions; it has a `Default Value:` line exactly when a
      default is given, a `Sample Values:` line exactly when samples are,
      and a `Description:` line exactly when a description is. */
  lemma ColumnContextPromptSpec(c: ColumnRequest)
    ensures var lines := ColumnLines(c);
      && |lines| >= 17
      && lines[..8] == [ColumnTask, "", "Table: " + c.tableName, "Column: " + c.columnName,
                        "SQL Server Type: " + c.sqlserverType,
                        "Length: " + IntOrNoneToString(c.charMaxLength),
                        "Precision: " + IntOrNoneToString(c.numericPrecision),
                        "Scale: " + IntOrNoneToString(c.numericScale)]
      && lines[|lines| - 9..] == ColumnInstructions
    ensures HasLine(ColumnLines(c), DefaultLabel) <==> Given(c.defaultValue)
    ensures HasLine(ColumnLines(c), SamplesLabel) <==> c.sampleValues != []
    ensures HasLine(ColumnLines(c), DescriptionLabel) <==> Given(c.customDescription)
  {
    var lines := ColumnLines(c);
    assert lines[..8] == ColumnFacts(c);
    assert lines[|lines| - 9..] == ColumnInstructions;
    ColumnOptionalLines(c);
    ColumnFixedUnlabelled(c);
    forall tag | tag in {DefaultLabel, SamplesLabel, DescriptionLabel}
      ensures HasLine(lines, tag) <==> HasLine(ColumnOptional(c), tag)
    {
      FixedLinesUnlabelled(ColumnFacts(c), tag);
      FixedLinesUnlabelled(ColumnInstructions, tag);
      HasLineAppend(ColumnFacts(c), ColumnOptional(c), tag);
      HasLineAppend(ColumnFacts(c) + ColumnOptional(c), ColumnInstructions, tag);
    }
  }

  /** The optional line that starts with `Sample Values: ` shows the
      first five samples, joined by ", ". */
  lemma SamplesOptionalText(c: ColumnRequest)
    ensures forall k :: 0 <= k < |ColumnOptional(c)| ==>
      StartsWith(ColumnOptional(c)[k], SamplesLabel) ==>
        ColumnOptional(c)[k] == SamplesLabel + Join(FirstFive(c.sampleValues), ", ")
  {
    var o := ColumnOptional(c);
    var v, s := DefaultValueLines(c.defaultValue), SampleLines(c.sampleValues);
    forall k | 0 <= k < |o|
      ensures StartsWith(o[k], SamplesLabel) ==> o[k] == SamplesLabel + Join(FirstFive(c.sampleValues), ", ")
    {
      if k < |v| {
        OptionalLineLabels(c.defaultValue.value);
      } else if k >= |v| + |s| {
        OptionalLineLabels(c.customDescription.value);
        assert o[k] == DescriptionLines(c.customDescription)[k - |v| - |s|];
      }
    }
  }

  /** The samples line shows the first five samples, joined by ", ". */
  lemma SamplesLineText(c: ColumnRequest)
    ensures forall i :: 0 <= i < |ColumnLines(c)| ==>
      StartsWith(ColumnLines(c)[i], SamplesLabel) ==>
        ColumnLines(c)[i] == SamplesLabel + Join(FirstFive(c.sampleValues), ", ")
  {
    var f, o := ColumnFacts(c), ColumnOptional(c);
    var lines := ColumnLines(c);
    ColumnFixedUnlabelled(c);
    FixedLinesUnlabelled(f, SamplesLabel);
    FixedLinesUnlabelled(ColumnInstructions, SamplesLabel);
    SamplesOptionalText(c);
    forall i | 0 <= i < |lines|
      ensures StartsWith(lines[i], SamplesLabel) ==> lines[i] == SamplesLabel + Join(FirstFive(c.sampleValues), ", ")
    {
      if i < |f| {
        assert lines[i] == f[i];
      } else if i >= |f| + |o| {
        assert lines[i] == ColumnInstructions[i - |f| - |o|];
      } else {
        assert lines[i] == o[i - |f|];
      }
    }
  }

  /** Only the first five samples matter. */
  lemma SamplesBeyondFifth(c: ColumnRequest, more: seq<string>)
    requires |c.sampleValues| >= 5
    ensures BuildColumnContextPrompt(c.(sampleValues := c.sampleValues + more)) == BuildColumnContextPrompt(c)
  {
    var c' := c.(sampleValues := c.sampleValues + more);
    assert (c.sampleValues + more)[..5] == c.sampleValues[..5];
    assert ColumnOptional(c') == ColumnOptional(c);
    ColumnContextPromptLines(c);
    ColumnContextPromptLines(c');
  }

  /** A default-value prompt always states the table, column, type and the
      default expression, and has a `Description:` line exactly when a
      description is given. */
  lemma DefaultValuePromptSpec(d: DefaultRequest)
    ensures var lines := DefaultLines(d);
      && lines[..6] == [DefaultTask, "", "Table: " + d.tableName, "Column: " + d.columnName,
                        "SQL Server Type: " + d.sqlserverType, "Default Expression: " + d.defaultValue]
      && lines[|lines| - 4..] == DefaultInstructions
    ensures HasLine(DefaultLines(d), DescriptionLabel) <==> Given(d.customDescription)
  {
    var f, e := DefaultFacts(d), DescriptionLines(d.customDescription);
    var lines := DefaultLines(d);
    assert lines[..6] == f;
    assert lines[|lines| - 4..] == DefaultInstructions;
    DefaultFixedUntagged(d);
    var expr := "Default Expression: " + d.defaultValue;
    assert !StartsWith(expr, DescriptionLabel) by {
      assert expr[2] == 'f';
    }
    FixedLinesUnlabelled(f[..5], DescriptionLabel);
    HasSingleLine([expr], expr, DescriptionLabel);
    HasLineAppend(f[..5], [expr], DescriptionLabel);
    FixedLinesUnlabelled(DefaultInstructions, DescriptionLabel);
    HasLineAppend(f, e, DescriptionLabel);
    HasLineAppend(f + e, DefaultInstructions, DescriptionLabel);
    var ev := if Given(d.customDescription) then d.customDescription.value else "";
    OptionalLineLabels(ev);
    HasSingleLine(e, DescriptionLabel + ev, DescriptionLabel);
  }
}
