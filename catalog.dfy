/**
 * The catalogue rows the schema stage reads from SQL Server, as plain values:
 * one column row of INFORMATION_SCHEMA.COLUMNS, one foreign-key row as
 * grouped by `get_sqlserver_schema`, and the `schema.table` key that every
 * stage uses to name a table.
 */
module Catalog {
  import opened Text

  /** `(schema, table)`. */
  type Table = (string, string)

  /** `f"{schema}.{table}"`. */
  function Key(t: Table): string {
    t.0 + "." + t.1
  }

  /** `(t.split('.')[0], t.split('.')[1])`; every key built by `Key` holds a dot. */
  function SplitKey(k: string): Table
    requires '.' in k
  {
    var parts := Split(k, '.');
    (parts[0], parts[1])
  }

  /** A name that survives the split at the dot. */
  predicate Plain(t: Table) {
    '.' !in t.0 && '.' !in t.1
  }

  /** Distinct `(schema, table)` pairs with no dot in either name. */
  predicate PlainTables(tables: seq<Table>) {
    Distinct(tables) && forall t :: t in tables ==> Plain(t)
  }

  predicate Distinct<T(==)>(s: seq<T>) {
    forall i, j :: 0 <= i < j < |s| ==> s[i] != s[j]
  }

  /** The last element of a duplicate-free sequence is not among the others. */
  lemma DistinctLast<T>(s: seq<T>)
    requires Distinct(s) && s != []
    ensures Distinct(s[..|s| - 1]) && s[|s| - 1] !in s[..|s| - 1]
  {
    forall i | 0 <= i < |s| - 1 ensures s[i] != s[|s| - 1] {
    }
  }

  /** Appending a new element keeps a sequence duplicate-free. */
  lemma DistinctSnoc<T>(s: seq<T>, x: T)
    requires Distinct(s) && x !in s
    ensures Distinct(s + [x])
  {
    forall i, j | 0 <= i < j < |s| + 1 ensures (s + [x])[i] != (s + [x])[j] {
      if j == |s| {
        assert s[i] in s;
      }
    }
  }

  /** A duplicate-free sequence holds each of its elements once. */
  lemma {:induction false} DistinctCount<T>(s: seq<T>, x: T)
    requires Distinct(s)
    ensures multiset(s)[x] == if x in s then 1 else 0
  {
    if s != [] {
      var init := s[..|s| - 1];
      DistinctCount(init, x);
      assert s == init + [s[|s| - 1]];
    }
  }

  /** Two duplicate-free lists with the same elements are permutations of each other. */
  lemma DistinctMultiset<T>(a: seq<T>, b: seq<T>)
    requires Distinct(a) && Distinct(b)
    requires forall x :: x in a <==> x in b
    ensures multiset(a) == multiset(b)
  {
    forall x ensures multiset(a)[x] == multiset(b)[x] {
      DistinctCount(a, x);
      DistinctCount(b, x);
    }
  }

  /** Reordering a duplicate-free sequence keeps it duplicate-free. */
  lemma SamePermutationDistinct<T>(a: seq<T>, b: seq<T>)
    requires Distinct(a) && multiset(a) == multiset(b)
    ensures Distinct(b)
  {
    forall i, j | 0 <= i < j < |b| ensures b[i] != b[j] {
      DistinctCount(a, b[i]);
      assert b == b[..j] + [b[j]] + b[j + 1..];
      assert b[i] in b[..j];
    }
  }

  lemma SplitKeyOfKey(t: Table)
    requires Plain(t)
    ensures '.' in Key(t) && SplitKey(Key(t)) == t
  {
    assert Key(t) == t.0 + ['.'] + t.1;
    assert Key(t)[|t.0|] == '.';
    SplitPair(t.0, t.1, '.');
  }

  lemma KeyInjective(a: Table, b: Table)
    requires Plain(a) && Plain(b)
    ensures Key(a) == Key(b) ==> a == b
  {
    SplitKeyOfKey(a);
    SplitKeyOfKey(b);
  }

  /** One foreign-key row as `get_sqlserver_schema` returns it:
      (constraint name, local column, referenced schema, referenced table,
      referenced column). */
  datatype ForeignKeyRow = ForeignKeyRow(
    constraint: string,
    column: string,
    refSchema: string,
    refTable: string,
    refColumn: string)

  /** `f"{fk[2]}.{fk[3]}"`. */
  function RefKey(fk: ForeignKeyRow): string {
    fk.refSchema + "." + fk.refTable
  }

  /** One row of INFORMATION_SCHEMA.COLUMNS as selected by
      `get_sqlserver_schema`: name, data type, maximum length, precision,
      scale, IS_NULLABLE ('YES' or 'NO'), the IsIdentity column property
      (NULL, 0 or 1) and the raw default expression. */
  datatype ColumnRow = ColumnRow(
    name: string,
    dataType: string,
    charMaxLength: Option<int>,
    precision: Option<int>,
    scale: Option<int>,
    isNullable: string,
    isIdentity: Option<int>,
    columnDefault: Option<string>)

  /** Python truthiness of an optional integer: neither None nor 0. */
  predicate Truthy(x: Option<int>) {
    x.Some? && x.value != 0
  }
}
