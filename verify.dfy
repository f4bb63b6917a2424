/**
 * The verification stage: comparing the table sets of the two databases,
 * their row counts and their foreign keys, then adding the foreign keys
 * PostgreSQL lacks and, when the operator confirms, dropping the ones it
 * has in excess. Database reads are inputs: row counts are functions from
 * a table to `Some(count)` or `None` (a failed COUNT), and the PostgreSQL
 * constraint catalogue is the state of a `Target` object.
 */
module VerifyMigration {
  import opened Text
  import opened Catalog
  import opened Order

  // ---------------------------------------------------------------------
  // Table sets and row counts
  // ---------------------------------------------------------------------

  /** `(missing_in_pg, extra_in_pg, common_tables)` of `main`. */
  function Partition(src: set<Table>, dst: set<Table>): (r: (set<Table>, set<Table>, set<Table>))
    ensures r.0 + r.2 == src && r.1 + r.2 == dst
    ensures r.0 !! r.1 && r.0 !! r.2 && r.1 !! r.2
    ensures forall t :: t in r.2 <==> t in src && t in dst
  {
    (src - dst, dst - src, src * dst)
  }

  /** One entry of `compare_data_counts`: `(schema, table, src_count, dst_count)`. */
  datatype Mismatch = Mismatch(table: Table, srcCount: Option<int>, dstCount: Option<int>)

  function TablesOf(ms: seq<Mismatch>): (r: seq<Table>)
    ensures |r| == |ms| && forall i :: 0 <= i < |ms| ==> r[i] == ms[i].table
  {
    if ms == [] then [] else TablesOf(ms[..|ms| - 1]) + [ms[|ms| - 1].table]
  }

  /** The entries the loop appends while walking `order`. */
  function Differing(order: seq<Table>, src: Table -> Option<int>, dst: Table -> Option<int>): seq<Mismatch> {
    if order == [] then []
    else
      var t := order[|order| - 1];
      var r := Differing(order[..|order| - 1], src, dst);
      if src(t) != dst(t) then r + [Mismatch(t, src(t), dst(t))] else r
  }

  /** What the loop keeps: entries drawn from `order`, one per differing
      table, in the order of `order`. */
  lemma {:induction false} DifferingSpec(order: seq<Table>, src: Table -> Option<int>, dst: Table -> Option<int>)
    ensures var r := Differing(order, src, dst);
      && (forall m :: m in r ==> m.table in order && m.srcCount == src(m.table) && m.dstCount == dst(m.table) && m.srcCount != m.dstCount)
      && (forall t :: t in order && src(t) != dst(t) ==> t in TablesOf(r))
  {
    if order != [] {
      var init := order[..|order| - 1];
      DifferingSpec(init, src, dst);
      assert forall t :: t in init ==> t in order;
      assert forall t :: t in order ==> t in init || t == order[|order| - 1];
    }
  }

  /** A sorted and duplicate-free `order` gives sorted and duplicate-free tables. */
  lemma {:induction false} DifferingSorted(order: seq<Table>, src: Table -> Option<int>, dst: Table -> Option<int>)
    requires SortedBy(order, PairLe) && Distinct(order)
    ensures var ts := TablesOf(Differing(order, src, dst));
      SortedBy(ts, PairLe) && Distinct(ts) && forall t :: t in ts ==> t in order
  {
    if order != [] {
      var init := order[..|order| - 1];
      var t := order[|order| - 1];
      DistinctLast(order);
      SortedLast(order, init, t, PairLe);
      DifferingSorted(init, src, dst);
      var r := Differing(init, src, dst);
      var ts := TablesOf(r);
      if src(t) != dst(t) {
        assert TablesOf(r + [Mismatch(t, src(t), dst(t))]) == ts + [t];
        SortedSnoc(ts, t, PairLe);
        DistinctSnoc(ts, t);
      }
    }
  }

  /** Python's iteration over a set: every element once, in some order. */
  method Elements(s: set<Table>) returns (r: seq<Table>)
    ensures Distinct(r) && forall t :: t in r <==> t in s
  {
    r := [];
    var rest := s;
    while rest != {}
      invariant rest <= s && Distinct(r)
      invariant forall t :: t in r <==> t in s && t !in rest
      decreases |rest|
    {
      var t :| t in rest;
      r := r + [t];
      rest := rest - {t};
    }
  }

  /** `sorted(tables)`: each table once, in ascending order. */
  method SortedTables(tables: set<Table>) returns (order: seq<Table>)
    ensures SortedBy(order, PairLe) && Distinct(order)
    ensures forall t :: t in order <==> t in tables
  {
    var elements := Elements(tables);
    order := SortPairs(elements);
    SamePermutationDistinct(elements, order);
    assert forall t :: t in order <==> t in multiset(elements);
  }

  /** `compare_data_counts`: the tables whose two counts differ, in
      ascending `(schema, table)` order, each once. Two failed counts are
      equal and are not reported. */
  method CompareDataCounts(tables: set<Table>, src: Table -> Option<int>, dst: Table -> Option<int>) returns (mismatches: seq<Mismatch>)
    ensures forall m :: m in mismatches ==> m.table in tables && m.srcCount == src(m.table) && m.dstCount == dst(m.table) && m.srcCount != m.dstCount
    ensures forall t :: t in tables && src(t) != dst(t) ==> t in TablesOf(mismatches)
    ensures SortedBy(TablesOf(mismatches), PairLe) && Distinct(TablesOf(mismatches))
  {
    var order := SortedTables(tables);
    mismatches := [];
    for i := 0 to |order|
      invariant mismatches == Differing(order[..i], src, dst)
    {
      assert order[..i + 1][..i] == order[..i];
      var t := order[i];
      if src(t) != dst(t) {
        mismatches := mismatches + [Mismatch(t, src(t), dst(t))];
      }
    }
    assert order[..|order|] == order;
    DifferingSpec(order, src, dst);
    DifferingSorted(order, src, dst);
  }

  /** The row-count step of `main`: only tables present in both databases
      are counted. */
  method CompareTables(src: set<Table>, dst: set<Table>, srcCount: Table -> Option<int>, dstCount: Table -> Option<int>)
    returns (missing: set<Table>, extra: set<Table>, mismatches: seq<Mismatch>)
    ensures missing == src - dst && extra == dst - src
    ensures forall m :: m in mismatches ==> m.table in src && m.table in dst && m.srcCount != m.dstCount
    ensures forall t :: t in src && t in dst && srcCount(t) != dstCount(t) ==> t in TablesOf(mismatches)
  {
    var p := Partition(src, dst);
    missing, extra := p.0, p.1;
    mismatches := CompareDataCounts(p.2, srcCount, dstCount);
  }

  // ---------------------------------------------------------------------
  // Foreign keys
  // ---------------------------------------------------------------------

  /** `(schema, table, column, ref_schema, ref_table, ref_column, constraint)`. */
  datatype Fk = Fk(schema: string, table: string, column: string,
                   refSchema: string, refTable: string, refColumn: string, constraint: string)

  /** `normalize_fk`: everything but the constraint name. */
  datatype FkKey = FkKey(schema: string, table: string, column: string,
                         refSchema: string, refTable: string, refColumn: string)

  function Normalize(fk: Fk): FkKey {
    FkKey(fk.schema, fk.table, fk.column, fk.refSchema, fk.refTable, fk.refColumn)
  }

  /** The normalized key of each tuple of `fks`, in order. */
  function KeyList(fks: seq<Fk>): (r: seq<FkKey>)
    ensures |r| == |fks| && forall i :: 0 <= i < |fks| ==> r[i] == Normalize(fks[i])
  {
    if fks == [] then [] else KeyList(fks[..|fks| - 1]) + [Normalize(fks[|fks| - 1])]
  }

  lemma KeyListHas(fks: seq<Fk>)
    ensures forall x :: x in fks ==> Normalize(x) in KeyList(fks)
  {
    forall x | x in fks ensures Normalize(x) in KeyList(fks) {
      var i :| 0 <= i < |fks| && fks[i] == x;
      assert KeyList(fks)[i] == Normalize(x);
    }
  }

  /** `{normalize_fk(fk): fk for fk in fks}`, `fks` in iteration order:
      a later tuple overwrites an earlier one with the same key. */
  function Normalized(fks: seq<Fk>): map<FkKey, Fk> {
    if fks == [] then map[]
    else Normalized(fks[..|fks| - 1])[Normalize(fks[|fks| - 1]) := fks[|fks| - 1]]
  }

  /** The dict has one key per normalized tuple of `fks`. */
  lemma {:induction false} NormalizedKeys(fks: seq<Fk>)
    ensures forall k :: k in Normalized(fks) <==> k in KeyList(fks)
  {
    if fks != [] {
      var init := fks[..|fks| - 1];
      NormalizedKeys(init);
      assert KeyList(fks) == KeyList(init) + [Normalize(fks[|fks| - 1])];
    }
  }

  /** The key order of that dict: each key where it was first inserted. */
  function FirstSeen(fks: seq<Fk>): (r: seq<FkKey>)
    ensures Distinct(r)
  {
    if fks == [] then []
    else
      var r := FirstSeen(fks[..|fks| - 1]);
      var k := Normalize(fks[|fks| - 1]);
      if k in r then r else r + [k]
  }

  lemma {:induction false} FirstSeenKeys(fks: seq<Fk>)
    ensures forall k :: k in FirstSeen(fks) <==> k in KeyList(fks)
  {
    if fks != [] {
      var init := fks[..|fks| - 1];
      FirstSeenKeys(init);
      assert KeyList(fks) == KeyList(init) + [Normalize(fks[|fks| - 1])];
    }
  }

  /** `fks[i]` has key `k` and no later tuple has. */
  predicate LastWith(fks: seq<Fk>, k: FkKey, i: int) {
    0 <= i < |fks| && Normalize(fks[i]) == k && forall j :: i < j < |fks| ==> Normalize(fks[j]) != k
  }

  /** The value a key keeps is the last tuple of `fks` with that key. */
  lemma {:induction false} NormalizedLast(fks: seq<Fk>, k: FkKey)
    requires k in KeyList(fks)
    ensures k in Normalized(fks) && exists i :: LastWith(fks, k, i) && fks[i] == Normalized(fks)[k]
  {
    var n := |fks| - 1;
    var init := fks[..n];
    var x := fks[n];
    assert KeyList(fks) == KeyList(init) + [Normalize(x)];
    if Normalize(x) == k {
      assert LastWith(fks, k, n);
    } else {
      NormalizedLast(init, k);
      var i :| LastWith(init, k, i) && init[i] == Normalized(init)[k];
      forall j | i < j < |fks| ensures Normalize(fks[j]) != k {
        if j < n {
          assert fks[j] == init[j];
        }
      }
      assert fks[i] == init[i];
    }
  }

  /** `[m[k] for k in order if k not in other]`. */
  function Unmatched(order: seq<FkKey>, m: map<FkKey, Fk>, other: map<FkKey, Fk>): seq<Fk>
    requires forall k :: k in order ==> k in m
  {
    if order == [] then []
    else
      var k := order[|order| - 1];
      var r := Unmatched(order[..|order| - 1], m, other);
      if k in other then r else r + [m[k]]
  }

  /** The keys of `Unmatched`, in order. */
  function UnmatchedKeys(order: seq<FkKey>, other: map<FkKey, Fk>): (r: seq<FkKey>)
    ensures Distinct(order) ==> Distinct(r)
    ensures forall k :: k in r <==> k in order && k !in other
  {
    if order == [] then []
    else
      var k := order[|order| - 1];
      var init := order[..|order| - 1];
      var r := UnmatchedKeys(init, other);
      assert forall j :: j in order <==> j in init || j == k;
      if k in other then r else r + [k]
  }

  lemma {:induction false} UnmatchedSpec(order: seq<FkKey>, m: map<FkKey, Fk>, other: map<FkKey, Fk>)
    requires forall k :: k in order ==> k in m && Normalize(m[k]) == k
    ensures var r := Unmatched(order, m, other);
      && (forall x :: x in r <==> exists k :: k in order && k !in other && x == m[k])
      && KeyList(r) == UnmatchedKeys(order, other)
  {
    if order != [] {
      var init := order[..|order| - 1];
      var k := order[|order| - 1];
      UnmatchedSpec(init, m, other);
      assert forall j :: j in order <==> j in init || j == k;
      if k !in other {
        var r := Unmatched(init, m, other);
        assert KeyList(r + [m[k]]) == KeyList(r) + [k];
      }
    }
  }

  /** The first list `compare_foreign_keys` returns for `(a, b)`: the
      values of `a`'s dict whose key is not in `b`'s dict. */
  function MissingIn(a: seq<Fk>, b: seq<Fk>): seq<Fk> {
    FirstSeenKeys(a);
    NormalizedKeys(a);
    Unmatched(FirstSeen(a), Normalized(a), Normalized(b))
  }

  /** `compare_foreign_keys(src_fk, dst_fk)`: `(missing_in_pg, extra_in_pg)`. */
  function CompareForeignKeys(src: seq<Fk>, dst: seq<Fk>): (seq<Fk>, seq<Fk>) {
    (MissingIn(src, dst), MissingIn(dst, src))
  }

  /** Each reported tuple comes from `a` and `b` has no tuple with its key;
      every key of `a` that `b` lacks is reported, and no key twice. */
  lemma MissingInSpec(a: seq<Fk>, b: seq<Fk>)
    ensures var r := MissingIn(a, b);
      && (forall x :: x in r ==> x in a && Normalize(x) !in KeyList(b))
      && (forall k :: k in KeyList(r) <==> k in KeyList(a) && k !in KeyList(b))
      && Distinct(KeyList(r))
  {
    FirstSeenKeys(a);
    NormalizedKeys(a);
    NormalizedKeys(b);
    var order := FirstSeen(a);
    var m := Normalized(a);
    forall k | k in order ensures k in m && Normalize(m[k]) == k {
      NormalizedLast(a, k);
    }
    UnmatchedSpec(order, m, Normalized(b));
    var r := MissingIn(a, b);
    forall x | x in r ensures x in a && Normalize(x) !in KeyList(b) {
      var k :| k in order && k !in Normalized(b) && x == m[k];
      NormalizedLast(a, k);
    }
  }

  /** A reported tuple is the last of `a` with its key: a later tuple with
      the same key replaces an earlier one. */
  lemma MissingKeepsLast(a: seq<Fk>, b: seq<Fk>, x: Fk)
    requires x in MissingIn(a, b)
    ensures exists i :: LastWith(a, Normalize(x), i) && a[i] == x
  {
    FirstSeenKeys(a);
    NormalizedKeys(a);
    var order := FirstSeen(a);
    var m := Normalized(a);
    forall k | k in order ensures k in m && Normalize(m[k]) == k {
      NormalizedLast(a, k);
    }
    UnmatchedSpec(order, m, Normalized(b));
    var k :| k in order && k !in Normalized(b) && x == m[k];
    NormalizedLast(a, k);
  }

  /** A foreign key present on both sides, under any constraint names, is
      reported in neither list, and the two lists share no key. */
  lemma CompareForeignKeysSpec(src: seq<Fk>, dst: seq<Fk>)
    ensures var (missing, extra) := CompareForeignKeys(src, dst);
      && (forall a, b :: a in src && b in dst && Normalize(a) == Normalize(b) ==>
            Normalize(a) !in KeyList(missing) && Normalize(a) !in KeyList(extra))
      && (forall k :: k in KeyList(missing) ==> k !in KeyList(extra))
  {
    MissingInSpec(src, dst);
    MissingInSpec(dst, src);
    KeyListHas(src);
    KeyListHas(dst);
  }

  // ---------------------------------------------------------------------
  // The PostgreSQL constraint catalogue
  // ---------------------------------------------------------------------

  /** A row of `information_schema.table_constraints`: schema, table, name. */
  datatype ConstraintId = ConstraintId(schema: string, table: string, name: string)

  function IdOf(fk: Fk): ConstraintId {
    ConstraintId(fk.schema, fk.table, fk.constraint)
  }

  /** The constraint names and the foreign keys behind them. */
  datatype Constraints = Constraints(ids: set<ConstraintId>, fks: set<Fk>)

  /** Every foreign key belongs to a named constraint. */
  predicate Consistent(c: Constraints) {
    forall fk :: fk in c.fks ==> IdOf(fk) in c.ids
  }

  /** `add_missing_fk`: nothing when the name already exists on the table;
      otherwise the ALTER TABLE, kept when it `succeeds` and rolled back
      when it does not. */
  function AddFk(c: Constraints, fk: Fk, succeeds: bool): (r: Constraints)
    ensures Consistent(c) ==> Consistent(r)
    ensures IdOf(fk) in r.ids <==> IdOf(fk) in c.ids || succeeds
    ensures c.ids <= r.ids && c.fks <= r.fks
  {
    if IdOf(fk) in c.ids || !succeeds then c
    else Constraints(c.ids + {IdOf(fk)}, c.fks + {fk})
  }

  /** The answer `input()` returned, stripped and lower-cased, is `y`. */
  predicate Confirmed(answer: string) {
    Lower(Strip(answer)) == "y"
  }

  /** The error of dropping an absent constraint. Only the failure is
      modelled: the text stands in for the database driver's message,
      which the source does not fix. */
  function MissingConstraint(name: string): string {
    "constraint \"" + name + "\" does not exist"
  }

  /** `prompt_drop_fk`: `ALTER TABLE ... DROP CONSTRAINT` only when
      confirmed; dropping a name that does not exist fails, and the
      exception is not caught. */
  function DropFk(c: Constraints, fk: Fk, answer: string): (r: Result<Constraints, string>)
    ensures Consistent(c) && r.Ok? ==> Consistent(r.value)
    ensures r.Ok? && Confirmed(answer) ==> IdOf(fk) !in r.value.ids
    ensures !Confirmed(answer) ==> r == Ok(c)
  {
    if !Confirmed(answer) then Ok(c)
    else if IdOf(fk) !in c.ids then Err(MissingConstraint(fk.constraint))
    else Ok(Constraints(c.ids - {IdOf(fk)}, set x | x in c.fks && IdOf(x) != IdOf(fk)))
  }

  /** Adding the same foreign key again changes nothing, whatever the
      second outcome would have been. */
  lemma AddFkIdempotent(c: Constraints, fk: Fk, first: bool, second: bool)
    requires first || IdOf(fk) in c.ids
    ensures AddFk(AddFk(c, fk, first), fk, second) == AddFk(c, fk, first)
  {
  }

  /** Only an answer that strips to `y` or `Y` confirms. */
  lemma {:induction false} ConfirmedExactly(answer: string)
    ensures Confirmed(answer) <==> Strip(answer) == "y" || Strip(answer) == "Y"
  {
    var s := Strip(answer);
    if Confirmed(answer) {
      assert |Lower(s)| == 1 && Lower(s)[0] == 'y';
      assert LowerChar(s[0]) == 'y';
      assert s == [s[0]];
    }
  }

  /** The catalogue of the PostgreSQL database as `main` changes it. */
  class Target {
    var ids: set<ConstraintId>
    var fks: set<Fk>

    function State(): Constraints
      reads this
    {
      Constraints(ids, fks)
    }

    constructor(c: Constraints)
      ensures State() == c
    {
      ids := c.ids;
      fks := c.fks;
    }

    method AddMissingFk(fk: Fk, succeeds: bool)
      modifies this
      ensures State() == AddFk(old(State()), fk, succeeds)
    {
      if IdOf(fk) in ids {
        return;
      }
      if succeeds {
        ids := ids + {IdOf(fk)};
        fks := fks + {fk};
      }
    }

    method PromptDropFk(fk: Fk, answer: string) returns (r: Result<(), string>)
      modifies this
      ensures var d := DropFk(old(State()), fk, answer);
        if d.Ok? then r.Ok? && State() == d.value else r == Err(d.error) && State() == old(State())
    {
      var response := Lower(Strip(answer));
      if response == "y" {
        if IdOf(fk) !in ids {
          return Err(MissingConstraint(fk.constraint));
        }
        ids := ids - {IdOf(fk)};
        fks := set x | x in fks && IdOf(x) != IdOf(fk);
      }
      return Ok(());
    }

    /** The two loops at the end of `main`: every missing foreign key is
        offered to `add_missing_fk` (with the outcome of its ALTER TABLE),
        then every extra one to `prompt_drop_fk` (with the operator's
        answer); an uncaught failure of a drop ends the run. */
    method Sync(missing: seq<Fk>, extra: seq<Fk>, outcomes: seq<bool>, answers: seq<string>) returns (r: Result<(), string>)
      requires |outcomes| == |missing| && |answers| == |extra|
      modifies this
      ensures var d := DropAll(AddAll(old(State()), missing, outcomes), extra, answers);
        if d.Ok? then r.Ok? && State() == d.value else r == Err(d.error)
      ensures r.Err? ==> exists n :: (0 <= n < |extra| &&
        DropAll(AddAll(old(State()), missing, outcomes), extra[..n], answers[..n]) == Ok(State()) &&
        DropFk(State(), extra[n], answers[n]).Err?)
    {
      AddEveryMissing(missing, outcomes);
      r := DropEveryExtra(extra, answers);
    }

    method AddEveryMissing(missing: seq<Fk>, outcomes: seq<bool>)
      requires |outcomes| == |missing|
      modifies this
      ensures State() == AddAll(old(State()), missing, outcomes)
    {
      ghost var start := State();
      for i := 0 to |missing|
        invariant State() == AddAll(start, missing[..i], outcomes[..i])
      {
        AddAllSnoc(start, missing, outcomes, i);
        AddMissingFk(missing[i], outcomes[i]);
      }
      assert missing[..|missing|] == missing && outcomes[..|outcomes|] == outcomes;
    }

    method DropEveryExtra(extra: seq<Fk>, answers: seq<string>) returns (r: Result<(), string>)
      requires |answers| == |extra|
      modifies this
      ensures var d := DropAll(old(State()), extra, answers);
        if d.Ok? then r.Ok? && State() == d.value else r == Err(d.error)
      ensures r.Err? ==> exists n :: (0 <= n < |extra| &&
        DropAll(old(State()), extra[..n], answers[..n]) == Ok(State()) &&
        DropFk(State(), extra[n], answers[n]).Err?)
    {
      ghost var start := State();
      for i := 0 to |extra|
        invariant DropAll(start, extra[..i], answers[..i]) == Ok(State())
      {
        DropAllSnoc(start, extra, answers, i);
        ghost var before := State();
        r := PromptDropFk(extra[i], answers[i]);
        if r.Err? {
          assert State() == before;
          DropAllFirstError(start, extra, answers, i + 1);
          return;
        }
      }
      assert extra[..|extra|] == extra && answers[..|answers|] == answers;
      r := Ok(());
    }
  }

  lemma AddAllSnoc(c: Constraints, fks: seq<Fk>, outcomes: seq<bool>, i: nat)
    requires |outcomes| == |fks| && i < |fks|
    ensures AddAll(c, fks[..i + 1], outcomes[..i + 1]) == AddFk(AddAll(c, fks[..i], outcomes[..i]), fks[i], outcomes[i])
  {
    assert fks[..i + 1][..i] == fks[..i];
    assert outcomes[..i + 1][..i] == outcomes[..i];
  }

  lemma DropAllSnoc(c: Constraints, fks: seq<Fk>, answers: seq<string>, i: nat)
    requires |answers| == |fks| && i < |fks|
    ensures DropAll(c, fks[..i + 1], answers[..i + 1]) ==
      match DropAll(c, fks[..i], answers[..i])
      case Err(e) => Err(e)
      case Ok(d) => DropFk(d, fks[i], answers[i])
  {
    assert fks[..i + 1][..i] == fks[..i];
    assert answers[..i + 1][..i] == answers[..i];
  }

  /** `for fk in missing_in_pg: add_missing_fk(...)`. */
  function AddAll(c: Constraints, fks: seq<Fk>, outcomes: seq<bool>): Constraints
    requires |outcomes| == |fks|
  {
    if fks == [] then c
    else AddFk(AddAll(c, fks[..|fks| - 1], outcomes[..|fks| - 1]), fks[|fks| - 1], outcomes[|fks| - 1])
  }

  /** `for fk in extra_in_pg: prompt_drop_fk(...)`; the first failure stops. */
  function DropAll(c: Constraints, fks: seq<Fk>, answers: seq<string>): Result<Constraints, string>
    requires |answers| == |fks|
  {
    if fks == [] then Ok(c)
    else
      match DropAll(c, fks[..|fks| - 1], answers[..|fks| - 1])
      case Err(e) => Err(e)
      case Ok(d) => DropFk(d, fks[|fks| - 1], answers[|fks| - 1])
  }

  lemma {:induction false} DropAllFirstError(c: Constraints, fks: seq<Fk>, answers: seq<string>, n: nat)
    requires |answers| == |fks| && n <= |fks| && DropAll(c, fks[..n], answers[..n]).Err?
    ensures DropAll(c, fks, answers) == DropAll(c, fks[..n], answers[..n])
    decreases |fks|
  {
    if n == |fks| {
      assert fks[..n] == fks && answers[..n] == answers;
    } else {
      var init := fks[..|fks| - 1];
      var ainit := answers[..|fks| - 1];
      assert init[..n] == fks[..n] && ainit[..n] == answers[..n];
      DropAllFirstError(c, init, ainit, n);
    }
  }

  /** After the add loop, the constraint of every missing foreign key whose
      ALTER TABLE succeeded, or that already existed, is in the catalogue,
      and nothing was removed. */
  lemma {:induction false} AddAllSpec(c: Constraints, fks: seq<Fk>, outcomes: seq<bool>)
    requires |outcomes| == |fks|
    ensures var r := AddAll(c, fks, outcomes);
      && c.ids <= r.ids && c.fks <= r.fks
      && (Consistent(c) ==> Consistent(r))
      && forall i :: 0 <= i < |fks| && outcomes[i] ==> IdOf(fks[i]) in r.ids
  {
    if fks != [] {
      var n := |fks| - 1;
      AddAllSpec(c, fks[..n], outcomes[..n]);
    }
  }
}
