/**
 * `extract_schemas` (postgres_schema.py:49-55): the schema names a
 * generated DDL file mentions, found by scanning it for the pattern
 * `"([^"]+)"\."[^"]+"` as `re.finditer` does.
 */
module PostgresSchema {
  import opened Text
  import Ddl

  /** The first `"` at or after `from`, or `|s|` when there is none. */
  function NextQuote(s: string, from: nat): (r: nat)
    requires from <= |s|
    ensures from <= r <= |s|
    ensures forall p :: from <= p < r ==> s[p] != '"'
    ensures r < |s| ==> s[r] == '"'
    decreases |s| - from
  {
    if from == |s| || s[from] == '"' then from else NextQuote(s, from + 1)
  }

  /** One attempt of the pattern at position `i`: the captured name and
      where the match ends. Each `[^"]+` can only stop at the next quote,
      so there is at most one way to match. */
  function MatchAt(s: string, i: nat): (r: Option<(string, nat)>)
    requires i <= |s|
    ensures r.Some? ==> i < r.value.1 <= |s| && r.value.0 != [] && '"' !in r.value.0
  {
    if i < |s| && s[i] == '"' then
      var j := NextQuote(s, i + 1);
      if j > i + 1 && j + 2 < |s| && s[j + 1] == '.' && s[j + 2] == '"' then
        var k := NextQuote(s, j + 3);
        if k > j + 3 && k < |s| then
          Some((s[i + 1..j], k + 1))
        else None
      else None
    else None
  }

  /** What the pattern matches, stated directly: `"g"."h"` at `i`, for
      non-empty names with no quote in them. */
  predicate MatchesAt(s: string, i: nat, g: string, h: string) {
    && g != [] && h != [] && '"' !in g && '"' !in h
    && i + |g| + |h| + 5 <= |s|
    && s[i..i + |g| + |h| + 5] == "\"" + g + "\".\"" + h + "\""
  }

  /** Every attempt that succeeds matches `"g"."h"`. */
  lemma MatchAtSound(s: string, i: nat)
    requires i <= |s| && MatchAt(s, i).Some?
    ensures var m := MatchAt(s, i).value;
      exists h :: MatchesAt(s, i, m.0, h) && m.1 == i + |m.0| + |h| + 5
  {
    var j := NextQuote(s, i + 1);
    var k := NextQuote(s, j + 3);
    assert MatchAt(s, i) == Some((s[i + 1..j], k + 1));
    QuoteFree(s, j + 3, k);
    QuotedPair(s, i, j, k);
    assert MatchesAt(s, i, s[i + 1..j], s[j + 3..k]);
  }

  /** The text between `from` and the next quote holds no quote. */
  lemma QuoteFree(s: string, from: nat, k: nat)
    requires from <= |s| && k == NextQuote(s, from)
    ensures '"' !in s[from..k]
  {
    forall c | c in s[from..k] ensures c != '"' {
      var p :| 0 <= p < k - from && s[from..k][p] == c;
      assert s[from..k][p] == s[from + p];
    }
  }

  /** Quotes at `i`, `j + 2` and `k` with a dot at `j + 1` frame two names. */
  lemma QuotedPair(s: string, i: nat, j: nat, k: nat)
    requires i < j && j + 3 <= k < |s|
    requires s[i] == '"' && s[j] == '"' && s[j + 1] == '.' && s[j + 2] == '"' && s[k] == '"'
    ensures s[i..k + 1] == "\"" + s[i + 1..j] + "\".\"" + s[j + 3..k] + "\""
  {
    assert s[i..k + 1] == s[i..i + 1] + s[i + 1..j] + s[j..j + 3] + s[j + 3..k] + s[k..k + 1];
    assert s[i..i + 1] == "\"" && s[k..k + 1] == "\"";
    assert s[j..j + 3] == "\".\"";
  }

  /** Every occurrence of `"g"."h"` is found by an attempt at its start. */
  lemma MatchAtComplete(s: string, i: nat, g: string, h: string)
    requires MatchesAt(s, i, g, h)
    ensures MatchAt(s, i) == Some((g, i + |g| + |h| + 5))
  {
    var n := |g| + |h| + 5;
    var u := "\"" + g + "\".\"" + h + "\"";
    assert forall p :: 0 <= p < n ==> s[i + p] == u[p] by {
      forall p | 0 <= p < n ensures s[i + p] == u[p] {
        assert s[i..i + n][p] == s[i + p];
      }
    }
    assert forall p :: 0 <= p < |g| ==> s[i + 1 + p] == g[p] by {
      forall p | 0 <= p < |g| ensures s[i + 1 + p] == g[p] {
        assert u[1 + p] == g[p];
      }
    }
    assert forall p :: 0 <= p < |h| ==> s[i + |g| + 4 + p] == h[p] by {
      forall p | 0 <= p < |h| ensures s[i + |g| + 4 + p] == h[p] {
        assert u[|g| + 4 + p] == h[p];
      }
    }
    assert s[i] == u[0];
    assert s[i + |g| + 1] == u[|g| + 1];
    assert s[i + |g| + 2] == u[|g| + 2];
    assert s[i + |g| + 3] == u[|g| + 3];
    assert s[i + n - 1] == u[n - 1];
    NoQuoteBetween(s, i + 1, g);
    NoQuoteBetween(s, i + |g| + 4, h);
    var j := NextQuote(s, i + 1);
    assert j == i + 1 + |g|;
    assert s[i + 1..j] == g;
    var k := NextQuote(s, j + 3);
    assert k == j + 3 + |h|;
  }

  /** A quote-free name occupying `s[from..from + |g|]` holds no quote. */
  lemma NoQuoteBetween(s: string, from: nat, g: string)
    requires from + |g| <= |s| && '"' !in g
    requires forall p :: 0 <= p < |g| ==> s[from + p] == g[p]
    ensures forall p :: from <= p < from + |g| ==> s[p] != '"'
  {
    forall p | from <= p < from + |g| ensures s[p] != '"' {
      assert g[p - from] in g;
    }
  }

  /** The names `finditer` captures from position `i` on: after a match the
      search resumes at its end, otherwise one character further. */
  function Scan(s: string, i: nat): set<string>
    requires i <= |s|
    decreases |s| - i
  {
    if i == |s| then {}
    else
      match MatchAt(s, i)
      case Some(m) => {m.0} + Scan(s, m.1)
      case None => Scan(s, i + 1)
  }

  /** `extract_schemas`: a set filled inside the `finditer` loop. */
  method ExtractSchemas(sqlContent: string) returns (schemas: set<string>)
    ensures schemas == Scan(sqlContent, 0)
  {
    schemas := {};
    var i := 0;
    while i < |sqlContent|
      invariant 0 <= i <= |sqlContent|
      invariant schemas + Scan(sqlContent, i) == Scan(sqlContent, 0)
      decreases |sqlContent| - i
    {
      match MatchAt(sqlContent, i)
      case Some(m) =>
        schemas := schemas + {m.0};
        i := m.1;
      case None =>
        i := i + 1;
    }
  }

  /** Every name found is the first name of an occurrence of `"g"."h"`:
      non-empty and free of quotes. */
  lemma {:induction false} ScanSound(s: string, i: nat)
    requires i <= |s|
    ensures forall g :: g in Scan(s, i) ==> exists p, h :: i <= p && MatchesAt(s, p, g, h)
    ensures forall g :: g in Scan(s, i) ==> g != [] && '"' !in g
    decreases |s| - i
  {
    if i < |s| {
      match MatchAt(s, i)
      case Some(m) =>
        ScanSound(s, m.1);
        MatchAtSound(s, i);
      case None =>
        ScanSound(s, i + 1);
    }
  }

  /** The three characters `"."` start at `p`. */
  predicate SeparatorAt(s: string, p: nat) {
    p + 3 <= |s| && s[p] == '"' && s[p + 1] == '.' && s[p + 2] == '"'
  }

  /** Text without the three characters `"."` mentions no schema. */
  lemma NoSeparatorNoSchemas(s: string)
    requires forall p: nat :: !SeparatorAt(s, p)
    ensures Scan(s, 0) == {}
  {
    ScanSound(s, 0);
    if g :| g in Scan(s, 0) {
      var p, h :| 0 <= p && MatchesAt(s, p, g, h);
      var n := |g| + |h| + 5;
      var u := "\"" + g + "\".\"" + h + "\"";
      var q := p + |g| + 1;
      assert s[p..p + n][|g| + 1] == s[q] && u[|g| + 1] == '"';
      assert s[p..p + n][|g| + 2] == s[q + 1] && u[|g| + 2] == '.';
      assert s[p..p + n][|g| + 3] == s[q + 2] && u[|g| + 3] == '"';
      assert SeparatorAt(s, q);
    }
  }

  /** Characters with no quote among them are skipped one at a time. */
  lemma {:induction false} ScanSkip(s: string, i: nat, n: nat)
    requires i <= n <= |s|
    requires forall p :: i <= p < n ==> s[p] != '"'
    ensures Scan(s, i) == Scan(s, n)
    decreases n - i
  {
    if i < n {
      ScanSkip(s, i + 1, n);
    }
  }

  /** The CREATE TABLE statement the schema stage writes
      (migrate_schema.py:295) yields its schema, for names free of quotes. */
  lemma CreateTableSchema(schemaName: string, tableName: string, defs: seq<string>)
    requires schemaName != [] && tableName != []
    requires '"' !in schemaName && '"' !in tableName
    ensures schemaName in Scan(Ddl.CreateTable(schemaName, tableName, defs), 0)
  {
    var s := Ddl.CreateTable(schemaName, tableName, defs);
    var pre := "CREATE TABLE ";
    var head := Ddl.Quoted(schemaName) + "." + Ddl.Quoted(tableName);
    var rest := " (\n    " + Join(defs, ",\n    ") + "\n);\n\n";
    assert s == pre + head + rest;
    assert head == "\"" + schemaName + "\".\"" + tableName + "\"";
    Infix(pre, head, rest);
    assert MatchesAt(s, |pre|, schemaName, tableName);
    MatchAtComplete(s, |pre|, schemaName, tableName);
    assert '"' !in pre;
    PrefixNoQuote(pre, head + rest);
    ScanSkip(s, 0, |pre|);
  }

  /** A quote-free prefix contributes no quote. */
  lemma PrefixNoQuote(pre: string, tail: string)
    requires '"' !in pre
    ensures forall p :: 0 <= p < |pre| ==> (pre + tail)[p] != '"'
  {
    forall p | 0 <= p < |pre| ensures (pre + tail)[p] != '"' {
      assert (pre + tail)[p] == pre[p];
    }
  }

  /** The middle part of a concatenation, recovered by slicing. */
  lemma Infix(a: string, b: string, c: string)
    ensures (a + b + c)[|a|..|a| + |b|] == b
  {
    assert (a + b + c)[|a|..|a| + |b|] == (a + b)[|a|..];
  }
}
