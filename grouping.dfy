/**
 * `defaultdict(list)` filled row by row, and the flattening of its items
 * back into one list: the shape shared by the foreign-key and index
 * grouping of the schema stage. A Python dict keeps its keys in insertion
 * order, so a grouping is an order of keys plus a map from key to the rows
 * appended under it.
 */
module Grouping {
  import opened Catalog

  /** The keys of a dict filled from `rows` in order: each key at the
      position of its first row. */
  function InsertionOrder<T>(rows: seq<T>, key: T -> string): (r: seq<string>)
    ensures Distinct(r)
  {
    if rows == [] then []
    else
      var r := InsertionOrder(rows[..|rows| - 1], key);
      if key(rows[|rows| - 1]) in r then r else r + [key(rows[|rows| - 1])]
  }

  /** The dict holds exactly the keys of the rows. */
  lemma {:induction false} InsertionOrderKeys<T>(rows: seq<T>, key: T -> string, k: string)
    ensures k in InsertionOrder(rows, key) <==> exists i :: 0 <= i < |rows| && key(rows[i]) == k
  {
    if rows != [] {
      var init := rows[..|rows| - 1];
      InsertionOrderKeys(init, key, k);
      assert forall i :: 0 <= i < |init| ==> init[i] == rows[i];
    }
  }

  /** The rows whose key is `k`, in row order: what `d[k]` holds once every
      row has been appended. */
  function Filter<T>(rows: seq<T>, key: T -> string, k: string): (r: seq<T>)
    ensures |r| <= |rows|
    ensures forall x :: x in r ==> x in rows && key(x) == k
  {
    if rows == [] then []
    else
      var r := Filter(rows[..|rows| - 1], key, k);
      if key(rows[|rows| - 1]) == k then r + [rows[|rows| - 1]] else r
  }

  /** `order` and `groups` are the dict built from `rows`. */
  ghost predicate Grouped<T>(rows: seq<T>, key: T -> string, order: seq<string>, groups: map<string, seq<T>>) {
    && order == InsertionOrder(rows, key)
    && (forall k :: k in groups <==> k in order)
    && (forall k :: k in groups ==> groups[k] == Filter(rows, key, k))
  }

  /** `for row in rows: groups[key(row)].append(row)` over a `defaultdict(list)`. */
  method GroupRows<T>(rows: seq<T>, key: T -> string) returns (order: seq<string>, groups: map<string, seq<T>>)
    ensures Grouped(rows, key, order, groups)
  {
    order := [];
    groups := map[];
    for i := 0 to |rows|
      invariant Grouped(rows[..i], key, order, groups)
    {
      var k := key(rows[i]);
      GroupStep(rows[..i], key, order, groups, rows[i]);
      assert rows[..i + 1] == rows[..i] + [rows[i]];
      if k !in groups {
        order := order + [k];
        groups := groups[k := []];
      }
      groups := groups[k := groups[k] + [rows[i]]];
    }
    assert rows[..|rows|] == rows;
  }

  /** One `append`: the grouping of `rows + [x]` from that of `rows`. */
  lemma GroupStep<T>(rows: seq<T>, key: T -> string, order: seq<string>, groups: map<string, seq<T>>, x: T)
    requires Grouped(rows, key, order, groups)
    ensures var k := key(x);
      Grouped(rows + [x], key,
              if k in groups then order else order + [k],
              groups[k := (if k in groups then groups[k] else []) + [x]])
  {
    var rows' := rows + [x];
    assert rows'[..|rows'| - 1] == rows;
    assert rows'[|rows'| - 1] == x;
    var k := key(x);
    var order' := if k in groups then order else order + [k];
    var groups' := groups[k := (if k in groups then groups[k] else []) + [x]];
    assert InsertionOrder(rows', key) == order';
    FilterPresent(rows, key, k);
    forall k' | k' in groups' ensures groups'[k'] == Filter(rows', key, k') {
      assert Filter(rows', key, k') == Filter(rows, key, k') + if k' == k then [x] else [];
    }
  }

  /** The dict's items flattened in key order. */
  function Flatten<T>(order: seq<string>, groups: map<string, seq<T>>): seq<T>
    requires forall k :: k in order ==> k in groups
  {
    if order == [] then []
    else Flatten(order[..|order| - 1], groups) + groups[order[|order| - 1]]
  }

  /** `for k, group in groups.items(): for row in group: out.append(row)`. */
  method FlattenGroups<T>(order: seq<string>, groups: map<string, seq<T>>) returns (out: seq<T>)
    requires forall k :: k in order ==> k in groups
    ensures out == Flatten(order, groups)
  {
    out := [];
    for i := 0 to |order|
      invariant out == Flatten(order[..i], groups)
    {
      var group := groups[order[i]];
      for j := 0 to |group|
        invariant out == Flatten(order[..i], groups) + group[..j]
      {
        out := out + [group[j]];
        assert group[..j + 1] == group[..j] + [group[j]];
      }
      assert order[..i + 1][..i] == order[..i];
      assert group[..|group|] == group;
      assert out == Flatten(order[..i + 1], groups);
    }
    assert order[..|order|] == order;
  }

  // ---------------------------------------------------------------------
  // Properties of the grouping
  // ---------------------------------------------------------------------

  lemma {:induction false} FilterConcat<T>(a: seq<T>, b: seq<T>, key: T -> string, k: string)
    ensures Filter(a + b, key, k) == Filter(a, key, k) + Filter(b, key, k)
    decreases |b|
  {
    if b == [] {
      assert a + b == a;
    } else {
      var b' := b[..|b| - 1];
      assert (a + b)[..|a + b| - 1] == a + b';
      assert (a + b)[|a + b| - 1] == b[|b| - 1];
      FilterConcat(a, b', key, k);
    }
  }

  /** A group holds only rows of its own key. */
  lemma {:induction false} FilterOfGroup<T>(g: seq<T>, key: T -> string, owner: string, k: string)
    requires forall x :: x in g ==> key(x) == owner
    ensures Filter(g, key, k) == if owner == k then g else []
    decreases |g|
  {
    if g != [] {
      FilterOfGroup(g[..|g| - 1], key, owner, k);
      assert g[|g| - 1] in g;
      assert g == g[..|g| - 1] + [g[|g| - 1]];
    }
  }

  /** A key with a non-empty group is among the dict's keys. */
  lemma FilterPresent<T>(rows: seq<T>, key: T -> string, k: string)
    ensures Filter(rows, key, k) != [] ==> k in InsertionOrder(rows, key)
  {
    if Filter(rows, key, k) != [] {
      var x := Filter(rows, key, k)[0];
      assert x in Filter(rows, key, k);
      var i :| 0 <= i < |rows| && rows[i] == x;
      InsertionOrderKeys(rows, key, k);
    }
  }

  /** A row occurs in `rows` as often as in its own key's group. */
  lemma {:induction false} FilterCount<T>(rows: seq<T>, key: T -> string, x: T)
    ensures multiset(Filter(rows, key, key(x)))[x] == multiset(rows)[x]
    decreases |rows|
  {
    if rows != [] {
      var init := rows[..|rows| - 1];
      FilterCount(init, key, x);
      assert rows == init + [rows[|rows| - 1]];
    }
  }

  /** Filtering the flattened items for one key gives that key's group. */
  lemma {:induction false} FilterFlatten<T>(order: seq<string>, groups: map<string, seq<T>>, key: T -> string, k: string)
    requires Distinct(order)
    requires forall o :: o in order ==> o in groups && forall x :: x in groups[o] ==> key(x) == o
    ensures Filter(Flatten(order, groups), key, k) == if k in order then groups[k] else []
    decreases |order|
  {
    if order != [] {
      var init := order[..|order| - 1];
      var last := order[|order| - 1];
      assert forall o :: o in init ==> o in order;
      DistinctLast(order);
      FilterFlatten(init, groups, key, k);
      var before := Filter(Flatten(init, groups), key, k);
      FilterConcat(Flatten(init, groups), groups[last], key, k);
      FilterOfGroup(groups[last], key, last, k);
      assert Filter(Flatten(order, groups), key, k) == before + Filter(groups[last], key, k);
      if k == last {
        assert before == [];
        assert [] + groups[last] == groups[last];
      } else {
        assert k in order <==> k in init;
        assert before + [] == before;
      }
    }
  }

  /** Flattening a grouping gives back every row, each key's rows in their
      original order. */
  lemma FlattenKeepsGroups<T>(rows: seq<T>, key: T -> string, order: seq<string>, groups: map<string, seq<T>>, k: string)
    requires Grouped(rows, key, order, groups)
    ensures Filter(Flatten(order, groups), key, k) == Filter(rows, key, k)
  {
    FilterFlatten(order, groups, key, k);
    FilterPresent(rows, key, k);
  }

  lemma FlattenPermutes<T>(rows: seq<T>, key: T -> string, order: seq<string>, groups: map<string, seq<T>>)
    requires Grouped(rows, key, order, groups)
    ensures forall k :: Filter(Flatten(order, groups), key, k) == Filter(rows, key, k)
    ensures multiset(Flatten(order, groups)) == multiset(rows)
  {
    var flat := Flatten(order, groups);
    forall k ensures Filter(flat, key, k) == Filter(rows, key, k) {
      FlattenKeepsGroups(rows, key, order, groups, k);
    }
    SameGroupsPermutes(flat, rows, key);
  }

  /** Two sequences with the same rows under every key are permutations of
      each other. */
  lemma SameGroupsPermutes<T>(a: seq<T>, b: seq<T>, key: T -> string)
    requires forall k :: Filter(a, key, k) == Filter(b, key, k)
    ensures multiset(a) == multiset(b)
  {
    forall x ensures multiset(a)[x] == multiset(b)[x] {
      FilterCount(a, key, x);
      FilterCount(b, key, x);
    }
  }

  /** Appending a non-empty group of a new key adds that key at the end of
      the insertion order. */
  lemma {:induction false} InsertionOrderAppend<T>(a: seq<T>, g: seq<T>, key: T -> string, k: string)
    requires g != [] && forall x :: x in g ==> key(x) == k
    requires k !in InsertionOrder(a, key)
    ensures InsertionOrder(a + g, key) == InsertionOrder(a, key) + [k]
    decreases |g|
  {
    var init := g[..|g| - 1];
    assert (a + g)[..|a + g| - 1] == a + init;
    assert g[|g| - 1] in g;
    if init == [] {
      assert a + init == a;
    } else {
      assert forall x :: x in init ==> x in g;
      InsertionOrderAppend(a, init, key, k);
    }
  }

  /** Regrouping the flattened items recovers the key order. */
  lemma {:induction false} InsertionOrderFlatten<T>(order: seq<string>, groups: map<string, seq<T>>, key: T -> string)
    requires Distinct(order)
    requires forall o :: o in order ==> o in groups && groups[o] != [] && forall x :: x in groups[o] ==> key(x) == o
    ensures InsertionOrder(Flatten(order, groups), key) == order
    decreases |order|
  {
    if order != [] {
      var init := order[..|order| - 1];
      var last := order[|order| - 1];
      assert forall o :: o in init ==> o in order;
      InsertionOrderFlatten(init, groups, key);
      InsertionOrderAppend(Flatten(init, groups), groups[last], key, last);
      assert order == init + [last];
    }
  }

  /** Every key of the dict has at least one row. */
  lemma KeysHaveRows<T>(rows: seq<T>, key: T -> string)
    ensures forall k :: k in InsertionOrder(rows, key) ==> Filter(rows, key, k) != []
  {
    forall k | k in InsertionOrder(rows, key) ensures Filter(rows, key, k) != [] {
      InsertionOrderKeys(rows, key, k);
      var i :| 0 <= i < |rows| && key(rows[i]) == k;
      FilterCount(rows, key, rows[i]);
      assert rows[i] in multiset(rows);
    }
  }

  /** Every group of a grouping is non-empty and holds rows of its key. */
  lemma GroupsNonEmpty<T>(rows: seq<T>, key: T -> string, order: seq<string>, groups: map<string, seq<T>>)
    requires Grouped(rows, key, order, groups)
    ensures forall o :: o in order ==> o in groups && groups[o] != [] && forall x :: x in groups[o] ==> key(x) == o
  {
    KeysHaveRows(rows, key);
  }

  /** Grouping the flattened items again, as the DDL generator does, gives
      the same keys in the same order with the same rows under each. */
  lemma Regroup<T>(rows: seq<T>, key: T -> string, order: seq<string>, groups: map<string, seq<T>>)
    requires Grouped(rows, key, order, groups)
    ensures Grouped(Flatten(order, groups), key, order, groups)
  {
    GroupsNonEmpty(rows, key, order, groups);
    InsertionOrderFlatten(order, groups, key);
    FlattenPermutes(rows, key, order, groups);
  }
}
