/**
 * The data stage: every table's rows are read from SQL Server in batches
 * and inserted into PostgreSQL, identity sequences are moved past the
 * copied ids, and each finished table is recorded in an append-only
 * checkpoint file so that a second run skips it. The source cursor and
 * the checkpoint file are objects; whether a table's copy raises is an
 * input.
 */
module MigrateData {
  import opened Text
  import opened Catalog

  /** `BATCH_SIZE`. */
  const BatchSize: nat := 10000

  /** A fetched row: one value per column, `None` for NULL. */
  type Row = seq<Option<string>>

  function Min(a: nat, b: nat): nat {
    if a <= b then a else b
  }

  // ---------------------------------------------------------------------
  // Batches
  // ---------------------------------------------------------------------

  /** The batches `fetch_batches` yields from a cursor holding `rows`
      when `fetchmany(size)` returns the next `size` rows, fewer at the end. */
  function Batches(rows: seq<Row>, size: nat): seq<seq<Row>>
    decreases |rows|
  {
    if size == 0 || rows == [] then []
    else
      var n := Min(size, |rows|);
      [rows[..n]] + Batches(rows[n..], size)
  }

  function Flat(bs: seq<seq<Row>>): seq<Row> {
    if bs == [] then [] else bs[0] + Flat(bs[1..])
  }

  lemma {:induction false} FlatSnoc(bs: seq<seq<Row>>, b: seq<Row>)
    ensures Flat(bs + [b]) == Flat(bs) + b
  {
    if bs != [] {
      assert (bs + [b])[1..] == bs[1..] + [b];
      FlatSnoc(bs[1..], b);
    }
  }

  /** ceil(n / d), the number of batches of `d` rows `n` rows make. */
  function CeilDiv(n: nat, d: nat): nat
    requires d > 0
    decreases n
  {
    if n == 0 then 0 else if n <= d then 1 else 1 + CeilDiv(n - d, d)
  }

  /** `CeilDiv(n, d)` is the least `k` with `n <= k * d`. */
  lemma {:induction false} CeilDivBounds(n: nat, d: nat)
    requires d > 0
    ensures n <= CeilDiv(n, d) * d
    ensures n > 0 ==> (CeilDiv(n, d) - 1) * d < n
    decreases n
  {
    if n > d {
      CeilDivBounds(n - d, d);
      var k := CeilDiv(n - d, d);
      assert (k + 1) * d == k * d + d;
      assert k * d == (k - 1) * d + d;
    }
  }

  /** The batches are non-empty, hold at most `size` rows, all but the last
      are full, there are ceil(N / size) of them, and together they are
      exactly the cursor's rows. */
  lemma {:induction false} BatchesSpec(rows: seq<Row>, size: nat)
    requires size > 0
    ensures var bs := Batches(rows, size);
      && Flat(bs) == rows
      && |bs| == CeilDiv(|rows|, size)
      && (forall i :: 0 <= i < |bs| ==> 0 < |bs[i]| <= size)
      && (forall i :: 0 <= i < |bs| - 1 ==> |bs[i]| == size)
    decreases |rows|
  {
    if rows != [] {
      var n := Min(size, |rows|);
      var bs := Batches(rows, size);
      var rest := Batches(rows[n..], size);
      BatchesSpec(rows[n..], size);
      assert bs == [rows[..n]] + rest;
      assert bs[1..] == rest;
      assert rows == rows[..n] + rows[n..];
      assert forall i :: 1 <= i < |bs| ==> bs[i] == rest[i - 1];
    }
  }

  /** A DB-API cursor over the rows of `SELECT * FROM ...`. */
  class Cursor {
    var remaining: seq<Row>

    constructor(rows: seq<Row>)
      ensures remaining == rows
    {
      remaining := rows;
    }

    /** `fetchmany(size)`: the next `size` rows, fewer at the end. */
    method FetchMany(size: nat) returns (batch: seq<Row>)
      modifies this
      ensures batch == old(remaining)[..Min(size, |old(remaining)|)]
      ensures remaining == old(remaining)[|batch|..]
    {
      batch := remaining[..Min(size, |remaining|)];
      remaining := remaining[|batch|..];
    }
  }

  /** `fetch_batches`: fetch until the first empty batch. */
  method FetchBatches(cur: Cursor, size: nat) returns (batches: seq<seq<Row>>)
    modifies cur
    ensures batches == Batches(old(cur.remaining), size)
    ensures size > 0 ==> cur.remaining == []
  {
    batches := [];
    while true
      invariant Batches(old(cur.remaining), size) == batches + Batches(cur.remaining, size)
      decreases |cur.remaining|
    {
      var rows := cur.FetchMany(size);
      if rows == [] {
        break;
      }
      batches := batches + [rows];
    }
  }

  // ---------------------------------------------------------------------
  // Identity sequences
  // ---------------------------------------------------------------------

  /** `MAX(col)`: `None` on an empty table, otherwise the largest value. */
  function MaxOf(values: seq<int>): (r: Option<int>)
    ensures r.None? <==> values == []
    ensures r.Some? ==> r.value in values && forall v :: v in values ==> v <= r.value
  {
    if values == [] then None
    else
      var init, last := values[..|values| - 1], values[|values| - 1];
      assert values == init + [last];
      match MaxOf(init)
      case None => Some(last)
      case Some(m) => Some(if m < last then last else m)
  }

  /** `(max_val or 0) + 1`. */
  function NextValue(max: Option<int>): int {
    (if Truthy(max) then max.value else 0) + 1
  }

  /** The value passed to `setval` is `MAX(id) + 1`: one above the largest
      copied id, so above every copied id, and 1 on an empty table. */
  lemma NextValueAbove(values: seq<int>)
    ensures forall v :: v in values ==> v < NextValue(MaxOf(values))
    ensures values != [] ==> NextValue(MaxOf(values)) - 1 in values
    ensures values == [] ==> NextValue(MaxOf(values)) == 1
  {
  }

  /** An identity column of the copied table: its `MAX`, and what
      `pg_get_serial_sequence` returned for it. */
  datatype IdentityColumn = IdentityColumn(name: string, max: Option<int>, sequence: Option<string>)

  predicate HasSequence(c: IdentityColumn) {
    c.sequence.Some? && c.sequence.value != ""
  }

  /** The `setval(seq, max_val + 1)` calls of `resync_id_sequences`. */
  function Setvals(cols: seq<IdentityColumn>): seq<(string, int)> {
    if cols == [] then []
    else
      var c := cols[|cols| - 1];
      var r := Setvals(cols[..|cols| - 1]);
      if HasSequence(c) then r + [(c.sequence.value, NextValue(c.max))] else r
  }

  /** One call per column that has a sequence, and no other. */
  lemma {:induction false} SetvalsSpec(cols: seq<IdentityColumn>)
    ensures forall c :: c in cols && HasSequence(c) ==> (c.sequence.value, NextValue(c.max)) in Setvals(cols)
    ensures forall s :: s in Setvals(cols) ==> exists c :: c in cols && HasSequence(c) && s == (c.sequence.value, NextValue(c.max))
  {
    if cols != [] {
      var init := cols[..|cols| - 1];
      SetvalsSpec(init);
      assert forall c :: c in cols ==> c in init || c == cols[|cols| - 1];
      assert forall c :: c in init ==> c in cols;
    }
  }

  method ResyncIdSequences(cols: seq<IdentityColumn>) returns (calls: seq<(string, int)>)
    ensures calls == Setvals(cols)
  {
    calls := [];
    for i := 0 to |cols|
      invariant calls == Setvals(cols[..i])
    {
      assert cols[..i + 1][..i] == cols[..i];
      var c := cols[i];
      var maxVal := if Truthy(c.max) then c.max.value else 0;
      if c.sequence.Some? && c.sequence.value != "" {
        calls := calls + [(c.sequence.value, maxVal + 1)];
      }
    }
    assert cols[..|cols|] == cols;
  }

  // ---------------------------------------------------------------------
  // Copying one table
  // ---------------------------------------------------------------------

  function QuotedNames(names: seq<string>): (r: seq<string>)
    ensures |r| == |names| && forall i :: 0 <= i < |names| ==> r[i] == QuoteIdent(names[i])
  {
    if names == [] then [] else QuotedNames(names[..|names| - 1]) + [QuoteIdent(names[|names| - 1])]
  }

  /** The statement `execute_values` expands once per batch. */
  function InsertSql(schema: string, table: string, columns: seq<string>): string {
    "INSERT INTO " + QuoteIdent(schema) + "." + QuoteIdent(table) + " (" + Join(QuotedNames(columns), ", ") + ") VALUES %s"
  }

  /** `copy_table`: one `execute_values` call per batch, `total` the number
      of rows sent, then the sequence resync. With a positive batch size
      every row of the cursor is sent. */
  method CopyTable(src: Cursor, schema: string, table: string, columns: seq<string>,
                   identity: seq<IdentityColumn>, batchSize: nat)
    returns (sql: string, calls: seq<seq<Row>>, total: nat, setvals: seq<(string, int)>)
    modifies src
    ensures sql == InsertSql(schema, table, columns)
    ensures calls == Batches(old(src.remaining), batchSize)
    ensures total == |Flat(calls)|
    ensures batchSize > 0 ==> total == |old(src.remaining)|
    ensures setvals == Setvals(identity)
  {
    ghost var rows := src.remaining;
    sql := InsertSql(schema, table, columns);
    var batches := FetchBatches(src, batchSize);
    calls := [];
    total := 0;
    for i := 0 to |batches|
      invariant calls == batches[..i] && total == |Flat(calls)|
    {
      FlatSnoc(calls, batches[i]);
      calls := calls + [batches[i]];
      total := total + |batches[i]|;
    }
    assert batches[..|batches|] == batches;
    if batchSize > 0 {
      BatchesSpec(rows, batchSize);
    }
    setvals := ResyncIdSequences(identity);
  }

  // ---------------------------------------------------------------------
  // The checkpoint file
  // ---------------------------------------------------------------------

  /** The characters at which `str.splitlines()` ends a line. */
  predicate LineBoundary(c: char) {
    || c == '\n' || c == '\r' || c == '\U{0B}' || c == '\U{0C}'
    || ('\U{1C}' <= c <= '\U{1E}')
    || c == '\U{85}' || c == '\U{2028}' || c == '\U{2029}'
  }

  /** The text between line boundaries. It differs from `splitlines()`
      only by empty pieces (after `\r\n` and at the end), which
      `load_checkpoint` drops. */
  function Pieces(s: string): (r: seq<string>)
    ensures |r| >= 1
  {
    if s == [] then [[]]
    else
      var r := Pieces(s[..|s| - 1]);
      var c := s[|s| - 1];
      if LineBoundary(c) then r + [[]] else r[..|r| - 1] + [r[|r| - 1] + [c]]
  }

  predicate NoBoundary(s: string) {
    forall i :: 0 <= i < |s| ==> !LineBoundary(s[i])
  }

  /** One more character: a boundary starts a new piece, anything else
      extends the last one. */
  lemma PiecesSnoc(s: string, c: char)
    ensures var p := Pieces(s);
      Pieces(s + [c]) == if LineBoundary(c) then p + [[]] else p[..|p| - 1] + [p[|p| - 1] + [c]]
  {
    assert (s + [c])[..|s + [c]| - 1] == s;
  }

  /** Text with no boundary extends the last piece. */
  lemma {:induction false} PiecesAppend(a: string, k: string)
    requires NoBoundary(k)
    ensures var p := Pieces(a); Pieces(a + k) == p[..|p| - 1] + [p[|p| - 1] + k]
  {
    var p := Pieces(a);
    var front := p[..|p| - 1];
    var last := p[|p| - 1];
    if k == [] {
      assert a + k == a;
      assert last + k == last;
      assert p == front + [last];
    } else {
      var k' := k[..|k| - 1];
      var c := k[|k| - 1];
      assert !LineBoundary(c);
      PiecesAppend(a, k');
      var r := Pieces(a + k');
      assert r == front + [last + k'];
      PiecesSnoc(a + k', c);
      assert r[..|r| - 1] == front;
      assert Pieces(a + k' + [c]) == front + [last + k' + [c]];
      assert a + k' + [c] == a + k;
      assert last + k' + [c] == last + k;
    }
  }

  /** A key that survives `line.strip()` and is a line of its own. */
  predicate Clean(key: string) {
    key != [] && !IsSpace(key[0]) && !IsSpace(key[|key| - 1]) && NoBoundary(key)
  }

  function Contents(file: Option<string>): string {
    if file.None? then [] else file.value
  }

  /** `{line.strip() for line in lines if line.strip()}`. */
  function Loaded(lines: seq<string>): set<string> {
    if lines == [] then {}
    else
      var l := Strip(lines[|lines| - 1]);
      if l != [] then Loaded(lines[..|lines| - 1]) + {l} else Loaded(lines[..|lines| - 1])
  }

  /** `load_checkpoint`: no file, no keys; else the stripped non-empty lines. */
  function LoadText(file: Option<string>): set<string> {
    if file.None? then {} else Loaded(Pieces(file.value))
  }

  /** `save_checkpoint`: the key and a newline appended. */
  function SaveText(file: Option<string>, key: string): Option<string> {
    Some(Contents(file) + key + "\n")
  }

  /** The file was never written or ends at a line boundary. */
  predicate EndsLine(file: Option<string>) {
    var c := Contents(file);
    c == [] || LineBoundary(c[|c| - 1])
  }

  /** After a line boundary the last piece is empty; appending a line
      makes it that line and opens a new empty piece. */
  lemma PiecesOfSave(c: string, key: string)
    requires c == [] || LineBoundary(c[|c| - 1])
    requires NoBoundary(key)
    ensures var p := Pieces(c);
      p[|p| - 1] == [] && Pieces(c + key + "\n") == p[..|p| - 1] + [key, []]
  {
    var p := Pieces(c);
    if c != [] {
      PiecesSnoc(c[..|c| - 1], c[|c| - 1]);
      assert c[..|c| - 1] + [c[|c| - 1]] == c;
    }
    var front := p[..|p| - 1];
    PiecesAppend(c, key);
    assert [] + key == key;
    assert Pieces(c + key) == front + [key];
    PiecesSnoc(c + key, '\n');
    assert c + key + "\n" == c + key + ['\n'];
  }

  /** An empty piece loads as nothing. */
  lemma LoadedEmpty(front: seq<string>, lines: seq<string>)
    requires lines == front + [[]]
    ensures Loaded(lines) == Loaded(front)
  {
    assert lines[..|lines| - 1] == front;
    assert |Strip(lines[|lines| - 1])| == 0;
  }

  /** A clean line loads as itself. */
  lemma LoadedClean(front: seq<string>, key: string, lines: seq<string>)
    requires Clean(key) && lines == front + [key]
    ensures Loaded(lines) == Loaded(front) + {key}
  {
    StripNoop(key);
    assert lines[..|lines| - 1] == front;
    assert lines[|lines| - 1] == key;
  }

  /** A clean line followed by an empty piece adds just that line. */
  lemma LoadedSave(front: seq<string>, key: string)
    requires Clean(key)
    ensures Loaded(front + [key, []]) == Loaded(front) + {key}
    ensures Loaded(front + [[]]) == Loaded(front)
  {
    assert front + [key, []] == (front + [key]) + [[]];
    LoadedEmpty(front + [key], front + [key, []]);
    LoadedClean(front, key, front + [key]);
    LoadedEmpty(front, front + [[]]);
  }

  /** Saving a clean key adds exactly that key to the next load. */
  lemma SaveThenLoad(file: Option<string>, key: string)
    requires EndsLine(file) && Clean(key)
    ensures LoadText(SaveText(file, key)) == LoadText(file) + {key}
  {
    var saved := SaveText(file, key);
    LoadTextContents(file);
    LoadTextContents(saved);
    SavedLoads(Contents(file), key, Contents(saved));
  }

  /** The text of a save loads as the text before it plus the key. */
  lemma SavedLoads(c: string, key: string, saved: string)
    requires (c == [] || LineBoundary(c[|c| - 1])) && Clean(key)
    requires saved == c + key + "\n"
    ensures Loaded(Pieces(saved)) == Loaded(Pieces(c)) + {key}
  {
    var p := Pieces(c);
    var front := p[..|p| - 1];
    PiecesOfSave(c, key);
    var ps := Pieces(saved);
    assert ps == front + [key, []];
    assert p == front + [[]];
    LoadedSave(front, key);
    assert Loaded(ps) == Loaded(front) + {key};
    assert Loaded(p) == Loaded(front);
  }

  /** A saved file ends at a line boundary. */
  lemma SaveEndsLine(file: Option<string>, key: string)
    ensures EndsLine(SaveText(file, key))
  {
    var t := Contents(file) + key + "\n";
    assert Contents(SaveText(file, key)) == t;
    assert t[|t| - 1] == '\n';
  }

  lemma LoadTextContents(file: Option<string>)
    ensures LoadText(file) == Loaded(Pieces(Contents(file)))
  {
    if file.None? {
      var e: seq<string> := [[]];
      assert Pieces([]) == e;
      assert Loaded(e) == {} by {
        assert e[..0] == [];
        assert Strip([]) == [];
      }
    }
  }

  /** The checkpoint file `.migrated`. */
  class CheckpointFile {
    var file: Option<string>

    constructor(file: Option<string>)
      ensures this.file == file
    {
      this.file := file;
    }

    function Load(): set<string>
      reads this
    {
      LoadText(file)
    }

    method Save(key: string)
      modifies this
      ensures file == SaveText(old(file), key)
    {
      file := Some(Contents(file) + key + "\n");
    }
  }

  /** The file after saving `keys` in order. */
  function SaveAll(file: Option<string>, keys: seq<string>): Option<string> {
    if keys == [] then file else SaveText(SaveAll(file, keys[..|keys| - 1]), keys[|keys| - 1])
  }

  /** A file written only by `save_checkpoint` loads back every clean key
      saved, in addition to what it held before. */
  lemma {:induction false} SaveAllThenLoad(file: Option<string>, keys: seq<string>)
    requires EndsLine(file) && forall k :: k in keys ==> Clean(k)
    ensures forall k :: k in LoadText(SaveAll(file, keys)) <==> k in LoadText(file) || k in keys
    ensures EndsLine(SaveAll(file, keys))
  {
    if keys != [] {
      var init := keys[..|keys| - 1];
      var k := keys[|keys| - 1];
      SaveAllThenLoad(file, init);
      SaveThenLoad(SaveAll(file, init), k);
      SaveEndsLine(SaveAll(file, init), k);
      assert forall x :: x in keys <==> x in init || x == k;
    }
  }

  // ---------------------------------------------------------------------
  // The run over all tables
  // ---------------------------------------------------------------------

  /** What a run does to the PostgreSQL connection. */
  datatype Step = SuspendTriggers | Copied(table: Table) | RolledBack(table: Table) | ValidateConstraints

  /** The table loop of `migrate`: a table whose key was in the checkpoint
      at the start is skipped; otherwise its copy is committed, or rolled
      back when it raises. */
  function Run(tables: seq<Table>, done: set<string>, copyOk: Table -> bool): seq<Step> {
    if tables == [] then []
    else
      var t := tables[|tables| - 1];
      var r := Run(tables[..|tables| - 1], done, copyOk);
      if Key(t) in done then r
      else if copyOk(t) then r + [Copied(t)]
      else r + [RolledBack(t)]
  }

  /** The keys of the committed copies, in order. */
  function CopiedKeys(steps: seq<Step>): seq<string> {
    if steps == [] then []
    else
      var s := steps[|steps| - 1];
      var r := CopiedKeys(steps[..|steps| - 1]);
      if s.Copied? then r + [Key(s.table)] else r
  }

  /** Skipped tables are not touched; every other table is copied or
      rolled back, according to whether its copy raised. */
  lemma {:induction false} RunSpec(tables: seq<Table>, done: set<string>, copyOk: Table -> bool)
    ensures var r := Run(tables, done, copyOk);
      && (forall s :: s in r ==>
            (s.Copied? || s.RolledBack?) && s.table in tables && Key(s.table) !in done && (s.Copied? <==> copyOk(s.table)))
      && (forall t :: t in tables && Key(t) !in done ==> (Copied(t) in r || RolledBack(t) in r))
  {
    if tables != [] {
      var init := tables[..|tables| - 1];
      RunSpec(init, done, copyOk);
      assert forall t :: t in tables <==> t in init || t == tables[|tables| - 1];
    }
  }

  /** The checkpoint gains a key only for a committed copy. */
  lemma {:induction false} CopiedKeysSpec(steps: seq<Step>)
    ensures forall k :: k in CopiedKeys(steps) <==> exists t :: Copied(t) in steps && k == Key(t)
  {
    if steps != [] {
      var init := steps[..|steps| - 1];
      CopiedKeysSpec(init);
      assert forall s :: s in steps <==> s in init || s == steps[|steps| - 1];
    }
  }

  /** The table loop of `migrate`, with `done` loaded before it. */
  method CopyTables(tables: seq<Table>, done: set<string>, copyOk: Table -> bool, checkpoint: CheckpointFile)
    returns (steps: seq<Step>)
    modifies checkpoint
    ensures steps == Run(tables, done, copyOk)
    ensures checkpoint.file == SaveAll(old(checkpoint.file), CopiedKeys(steps))
  {
    steps := [];
    for i := 0 to |tables|
      invariant steps == Run(tables[..i], done, copyOk)
      invariant checkpoint.file == SaveAll(old(checkpoint.file), CopiedKeys(steps))
    {
      assert tables[..i + 1][..i] == tables[..i];
      var t := tables[i];
      var key := Key(t);
      if key in done {
        continue;
      }
      if copyOk(t) {
        checkpoint.Save(key);
        steps := steps + [Copied(t)];
      } else {
        steps := steps + [RolledBack(t)];
      }
    }
    assert tables[..|tables|] == tables;
  }

  /** `migrate`: triggers are suspended first and constraints validated
      last exactly when not `strict`; the checkpoint file gains the keys of
      the committed copies, in order. */
  method Migrate(tables: seq<Table>, strict: bool, copyOk: Table -> bool, checkpoint: CheckpointFile)
    returns (steps: seq<Step>)
    modifies checkpoint
    ensures var run := Run(tables, old(checkpoint.Load()), copyOk);
      && steps == (if strict then [] else [SuspendTriggers]) + run + (if strict then [] else [ValidateConstraints])
      && checkpoint.file == SaveAll(old(checkpoint.file), CopiedKeys(run))
  {
    steps := if strict then [] else [SuspendTriggers];
    var done := checkpoint.Load();
    var run := CopyTables(tables, done, copyOk, checkpoint);
    steps := steps + run;
    if !strict {
      steps := steps + [ValidateConstraints];
    }
  }

  /** The keys a run saves: the key of each table not yet done whose copy
      committed, and no other. */
  lemma RunKeys(tables: seq<Table>, done: set<string>, copyOk: Table -> bool)
    requires forall t :: t in tables ==> Plain(t)
    ensures var keys := CopiedKeys(Run(tables, done, copyOk));
      && (forall k :: k in keys ==> exists t :: t in tables && copyOk(t) && k == Key(t))
      && (forall t :: t in tables ==> (Key(t) in keys <==> Key(t) !in done && copyOk(t)))
  {
    var run := Run(tables, done, copyOk);
    RunSpec(tables, done, copyOk);
    CopiedKeysSpec(run);
    var keys := CopiedKeys(run);
    forall k | k in keys ensures exists t :: t in tables && copyOk(t) && k == Key(t) {
      var t :| Copied(t) in run && k == Key(t);
      assert t in tables && copyOk(t);
    }
    forall t | t in tables ensures Key(t) in keys ==> Key(t) !in done && copyOk(t) {
      if Key(t) in keys {
        var u :| Copied(u) in run && Key(t) == Key(u);
        KeyInjective(t, u);
      }
    }
    forall t | t in tables && Key(t) !in done && copyOk(t) ensures Key(t) in keys {
      assert Copied(t) in run;
    }
  }

  /** Resuming: after a run over a file written only by `save_checkpoint`,
      the next load holds the old keys and the key of every table whose
      copy committed, and nothing else, so a second run skips exactly
      those tables. */
  lemma ResumeSkipsCopied(tables: seq<Table>, file: Option<string>, copyOk: Table -> bool)
    requires EndsLine(file) && forall t :: t in tables ==> Plain(t) && Clean(Key(t))
    ensures var done := LoadText(file);
      var next := LoadText(SaveAll(file, CopiedKeys(Run(tables, done, copyOk))));
      && (forall t :: t in tables ==> (Key(t) in next <==> Key(t) in done || copyOk(t)))
      && (forall k :: k in next ==> k in done || exists t :: t in tables && copyOk(t) && k == Key(t))
  {
    var done := LoadText(file);
    var keys := CopiedKeys(Run(tables, done, copyOk));
    RunKeys(tables, done, copyOk);
    forall k | k in keys ensures Clean(k) {
      var t :| t in tables && copyOk(t) && k == Key(t);
    }
    SaveAllThenLoad(file, keys);
    ResumeLogic(tables, copyOk, done, keys, LoadText(SaveAll(file, keys)));
  }

  lemma ResumeLogic(tables: seq<Table>, copyOk: Table -> bool, done: set<string>, keys: seq<string>, next: set<string>)
    requires forall k :: k in next <==> k in done || k in keys
    requires forall k :: k in keys ==> exists t :: t in tables && copyOk(t) && k == Key(t)
    requires forall t :: t in tables ==> (Key(t) in keys <==> Key(t) !in done && copyOk(t))
    ensures forall t :: t in tables ==> (Key(t) in next <==> Key(t) in done || copyOk(t))
    ensures forall k :: k in next ==> k in done || exists t :: t in tables && copyOk(t) && k == Key(t)
  {
  }
}
