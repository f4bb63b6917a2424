/**
 * `topological_sort_tables`: the order in which the schema stage creates
 * tables, so that a table comes after every in-scope table its foreign keys
 * reference (Kahn's algorithm over `schema.table` keys), with the tables
 * left over by a cycle appended in input order.
 */
module SchemaOrder {
  import opened Text
  import opened Catalog

  /** `(referenced, referencing)`: the referenced table has to be created first. */
  type Edge = (string, string)

  function Keys(tables: seq<Table>): (r: seq<string>)
    ensures |r| == |tables|
    ensures forall i :: 0 <= i < |tables| ==> r[i] == Key(tables[i])
  {
    seq(|tables|, i requires 0 <= i < |tables| => Key(tables[i]))
  }

  function KeySet(tables: seq<Table>): set<string> {
    set t | t in tables :: Key(t)
  }

  function Elems<T>(s: seq<T>): set<T> {
    set x | x in s
  }

  /** The key order of `{f"{schema}.{table}": 0 for schema, table in tables}`:
      each key at its first occurrence. */
  function FirstOccurrences(keys: seq<string>): (r: seq<string>)
    ensures Distinct(r)
    ensures forall k :: k in r <==> k in keys
    ensures |r| <= |keys|
  {
    if keys == [] then []
    else
      var last := keys[|keys| - 1];
      var r := FirstOccurrences(keys[..|keys| - 1]);
      assert keys == keys[..|keys| - 1] + [last];
      if last in r then r else r + [last]
  }

  /** The foreign-key rows recorded for a table key, none when it has no entry. */
  function FkRows(fkMap: map<string, seq<ForeignKeyRow>>, key: string): seq<ForeignKeyRow> {
    if key in fkMap then fkMap[key] else []
  }

  /** The table `key` depends on the table `ref`: one of its rows references it. */
  predicate Refers(fkMap: map<string, seq<ForeignKeyRow>>, key: string, ref: string) {
    exists fk :: fk in FkRows(fkMap, key) && RefKey(fk) == ref
  }

  /** The same relation on `(schema, table)` pairs. */
  predicate References(fkMap: map<string, seq<ForeignKeyRow>>, t: Table, r: Table) {
    Refers(fkMap, Key(t), Key(r))
  }

  /** The edges the first `n` rows of one table add, in row order; a
      reference to a table outside `scope` adds none. */
  function TableEdges(key: string, fks: seq<ForeignKeyRow>, n: nat, scope: set<string>): seq<Edge>
    requires n <= |fks|
  {
    if n == 0 then []
    else
      TableEdges(key, fks, n - 1, scope)
        + (if RefKey(fks[n - 1]) in scope then [(RefKey(fks[n - 1]), key)] else [])
  }

  /** The edges the first `n` input tables add. */
  function EdgesOf(tables: seq<Table>, fkMap: map<string, seq<ForeignKeyRow>>, n: nat, scope: set<string>): seq<Edge>
    requires n <= |tables|
  {
    if n == 0 then []
    else
      var key := Key(tables[n - 1]);
      EdgesOf(tables, fkMap, n - 1, scope) + TableEdges(key, FkRows(fkMap, key), |FkRows(fkMap, key)|, scope)
  }

  /** Every dependency between two in-scope tables, once per foreign-key row
      and once per occurrence of the referencing table in the input. */
  function Edges(tables: seq<Table>, fkMap: map<string, seq<ForeignKeyRow>>): seq<Edge> {
    EdgesOf(tables, fkMap, |tables|, KeySet(tables))
  }

  predicate EdgesWithin(edges: seq<Edge>, scope: set<string>) {
    forall e :: e in edges ==> e.0 in scope && e.1 in scope
  }

  /** The successors of `u` among the first `n` edges, in the order the edges were added. */
  function TargetsUpTo(edges: seq<Edge>, n: nat, u: string): seq<string>
    requires n <= |edges|
  {
    if n == 0 then []
    else TargetsUpTo(edges, n - 1, u) + (if edges[n - 1].0 == u then [edges[n - 1].1] else [])
  }

  function Targets(edges: seq<Edge>, u: string): seq<string> {
    TargetsUpTo(edges, |edges|, u)
  }

  /** The number of the first `n` edges into `v` whose source is not in `done`. */
  function PendingUpTo(edges: seq<Edge>, n: nat, v: string, done: set<string>): nat
    requires n <= |edges|
  {
    if n == 0 then 0
    else PendingUpTo(edges, n - 1, v, done) + (if edges[n - 1].1 == v && edges[n - 1].0 !in done then 1 else 0)
  }

  /** The number of edges into `v` whose source has not been placed yet. */
  function Pending(edges: seq<Edge>, v: string, done: set<string>): nat {
    PendingUpTo(edges, |edges|, v, done)
  }

  /** `graph[u]` on the `defaultdict(list)`. */
  function Succ(graph: map<string, seq<string>>, u: string): seq<string> {
    if u in graph then graph[u] else []
  }

  /** `sorted[i]` comes after the source of every edge into it. */
  ghost predicate RefsBefore(edges: seq<Edge>, sorted: seq<string>, i: int)
    requires 0 <= i < |sorted|
  {
    forall e :: e in edges && e.1 == sorted[i] ==> e.0 in sorted[..i]
  }

  /** Some member of `group` has no edge into it from inside `group`. */
  ghost predicate HasFree(group: set<string>, edges: seq<Edge>) {
    exists v :: v in group && forall e :: e in edges && e.1 == v ==> e.0 !in group
  }

  /** No cycle: every nonempty group of in-scope tables holds one that depends
      on no other member of the group. */
  ghost predicate Acyclic(scope: set<string>, edges: seq<Edge>) {
    forall group {:trigger HasFree(group, edges)} :: group <= scope && group != {} ==> HasFree(group, edges)
  }

  ghost predicate AcyclicReferences(tables: seq<Table>, fkMap: map<string, seq<ForeignKeyRow>>) {
    Acyclic(KeySet(tables), Edges(tables, fkMap))
  }

  /** The initial queue: the keys, in order, that nothing in scope is referenced by. */
  function Roots(order: seq<string>, edges: seq<Edge>): seq<string> {
    if order == [] then []
    else
      var last := order[|order| - 1];
      Roots(order[..|order| - 1], edges) + (if Pending(edges, last, {}) == 0 then [last] else [])
  }

  /** `[key for key, degree in in_degree.items() if degree == 0]`. */
  function ZeroDegree(order: seq<string>, inDegree: map<string, int>): seq<string>
    requires forall k :: k in order ==> k in inDegree
  {
    if order == [] then []
    else
      var last := order[|order| - 1];
      ZeroDegree(order[..|order| - 1], inDegree) + (if inDegree[last] == 0 then [last] else [])
  }

  /** `[key for key in in_degree if key not in sorted_tables]`. */
  function Without(order: seq<string>, placed: seq<string>): (r: seq<string>)
    ensures forall k :: k in r <==> k in order && k !in placed
  {
    if order == [] then []
    else
      var last := order[|order| - 1];
      assert order == order[..|order| - 1] + [last];
      Without(order[..|order| - 1], placed) + (if last !in placed then [last] else [])
  }

  // ---------------------------------------------------------------------
  // Facts about the edge list
  // ---------------------------------------------------------------------

  lemma {:induction false} TableEdgesChar(key: string, fks: seq<ForeignKeyRow>, n: nat, scope: set<string>, e: Edge)
    requires n <= |fks|
    ensures e in TableEdges(key, fks, n, scope) <==>
      e.1 == key && e.0 in scope && exists i :: 0 <= i < n && RefKey(fks[i]) == e.0
  {
    if n > 0 {
      TableEdgesChar(key, fks, n - 1, scope, e);
      if e.1 == key && e.0 in scope && RefKey(fks[n - 1]) == e.0 {
        assert e == (RefKey(fks[n - 1]), key);
      }
    }
  }

  lemma {:induction false} EdgesOfChar(tables: seq<Table>, fkMap: map<string, seq<ForeignKeyRow>>, n: nat, scope: set<string>, e: Edge)
    requires n <= |tables|
    ensures e in EdgesOf(tables, fkMap, n, scope) <==>
      (exists i :: 0 <= i < n && Key(tables[i]) == e.1) && e.0 in scope && Refers(fkMap, e.1, e.0)
  {
    if n > 0 {
      var key := Key(tables[n - 1]);
      var fks := FkRows(fkMap, key);
      EdgesOfChar(tables, fkMap, n - 1, scope, e);
      TableEdgesChar(key, fks, |fks|, scope, e);
      if e.1 == key && Refers(fkMap, e.1, e.0) {
        var fk :| fk in fks && RefKey(fk) == e.0;
        var i :| 0 <= i < |fks| && fks[i] == fk;
      }
    }
  }

  /** An edge exists exactly for a foreign-key row of an input table that
      names another input table. */
  lemma EdgesChar(tables: seq<Table>, fkMap: map<string, seq<ForeignKeyRow>>, e: Edge)
    ensures e in Edges(tables, fkMap) <==>
      e.1 in KeySet(tables) && e.0 in KeySet(tables) && Refers(fkMap, e.1, e.0)
  {
    EdgesOfChar(tables, fkMap, |tables|, KeySet(tables), e);
    if e.1 in KeySet(tables) {
      var t :| t in tables && Key(t) == e.1;
      var i :| 0 <= i < |tables| && tables[i] == t;
    }
  }

  lemma {:induction false} TargetsUpToIn(edges: seq<Edge>, n: nat, u: string, v: string)
    requires n <= |edges|
    ensures v in TargetsUpTo(edges, n, u) <==> exists i :: 0 <= i < n && edges[i] == (u, v)
  {
    if n > 0 {
      TargetsUpToIn(edges, n - 1, u, v);
    }
  }

  lemma TargetsIn(edges: seq<Edge>, u: string, v: string)
    ensures v in Targets(edges, u) <==> (u, v) in edges
  {
    TargetsUpToIn(edges, |edges|, u, v);
  }

  lemma {:induction false} PendingUpToStep(edges: seq<Edge>, n: nat, v: string, done: set<string>, c: string)
    requires n <= |edges| && c !in done
    ensures PendingUpTo(edges, n, v, done + {c}) + multiset(TargetsUpTo(edges, n, c))[v] == PendingUpTo(edges, n, v, done)
  {
    if n > 0 {
      PendingUpToStep(edges, n - 1, v, done, c);
      var e := edges[n - 1];
      var t := TargetsUpTo(edges, n - 1, c);
      var tail := if e.0 == c then [e.1] else [];
      assert TargetsUpTo(edges, n, c) == t + tail;
      assert multiset(t + tail) == multiset(t) + multiset(tail);
      var a := if e.1 == v && e.0 !in done + {c} then 1 else 0;
      var b := if e.1 == v && e.0 !in done then 1 else 0;
      var k := if e.0 == c && e.1 == v then 1 else 0;
      assert multiset(tail)[v] == k;
      assert a + k == b;
      assert PendingUpTo(edges, n, v, done + {c}) == PendingUpTo(edges, n - 1, v, done + {c}) + a;
      assert PendingUpTo(edges, n, v, done) == PendingUpTo(edges, n - 1, v, done) + b;
    }
  }

  /** Placing `c` releases exactly the edges out of `c`. */
  lemma PendingStep(edges: seq<Edge>, v: string, done: set<string>, c: string)
    requires c !in done
    ensures Pending(edges, v, done + {c}) + multiset(Targets(edges, c))[v] == Pending(edges, v, done)
  {
    PendingUpToStep(edges, |edges|, v, done, c);
  }

  lemma {:induction false} PendingUpToZero(edges: seq<Edge>, n: nat, v: string, done: set<string>)
    requires n <= |edges|
    ensures PendingUpTo(edges, n, v, done) == 0 <==> forall i :: 0 <= i < n && edges[i].1 == v ==> edges[i].0 in done
  {
    if n > 0 {
      PendingUpToZero(edges, n - 1, v, done);
    }
  }

  /** No pending edge into `v` means every source of an edge into `v` is placed. */
  lemma PendingZero(edges: seq<Edge>, v: string, done: set<string>)
    ensures Pending(edges, v, done) == 0 <==> forall e :: e in edges && e.1 == v ==> e.0 in done
  {
    PendingUpToZero(edges, |edges|, v, done);
  }

  lemma {:induction false} UpToAppend(edges: seq<Edge>, e: Edge, n: nat)
    requires n <= |edges|
    ensures forall u :: TargetsUpTo(edges + [e], n, u) == TargetsUpTo(edges, n, u)
    ensures forall v, done :: PendingUpTo(edges + [e], n, v, done) == PendingUpTo(edges, n, v, done)
  {
    if n > 0 {
      UpToAppend(edges, e, n - 1);
    }
  }

  lemma {:induction false} ZeroDegreeRoots(order: seq<string>, inDegree: map<string, int>, edges: seq<Edge>)
    requires forall k :: k in order ==> k in inDegree && inDegree[k] == Pending(edges, k, {})
    ensures ZeroDegree(order, inDegree) == Roots(order, edges)
  {
    if order != [] {
      ZeroDegreeRoots(order[..|order| - 1], inDegree, edges);
    }
  }

  lemma {:induction false} RootsIn(order: seq<string>, edges: seq<Edge>)
    ensures forall k :: k in Roots(order, edges) <==> k in order && Pending(edges, k, {}) == 0
    ensures Distinct(order) ==> Distinct(Roots(order, edges))
  {
    if order != [] {
      var init := order[..|order| - 1];
      RootsIn(init, edges);
      assert order == init + [order[|order| - 1]];
    }
  }

  lemma {:induction false} FirstOccurrencesOfDistinct(keys: seq<string>)
    requires Distinct(keys)
    ensures FirstOccurrences(keys) == keys
  {
    if keys != [] {
      FirstOccurrencesOfDistinct(keys[..|keys| - 1]);
      assert keys == keys[..|keys| - 1] + [keys[|keys| - 1]];
    }
  }

  lemma {:induction false} DistinctCard<T>(s: seq<T>)
    requires Distinct(s)
    ensures |Elems(s)| == |s|
  {
    if s != [] {
      var init, last := s[..|s| - 1], s[|s| - 1];
      DistinctLast(s);
      DistinctCard(init);
      assert s == init + [last];
      assert Elems(s) == Elems(init) + {last};
      assert last !in Elems(init);
    }
  }

  /** A duplicate-free list that fits inside another duplicate-free list and is
      at least as long holds every element of it. */
  lemma Pigeonhole<T>(a: seq<T>, b: seq<T>)
    requires Distinct(a) && Distinct(b)
    requires forall x :: x in a ==> x in b
    requires |a| >= |b|
    ensures forall x :: x in b ==> x in a
  {
    DistinctCard(a);
    DistinctCard(b);
    var A, B := Elems(a), Elems(b);
    assert A <= B;
    assert B == A + (B - A) && A * (B - A) == {};
    assert |B - A| == 0;
    forall x | x in b ensures x in a {
      assert x in B;
    }
  }

  // ---------------------------------------------------------------------
  // The algorithm
  // ---------------------------------------------------------------------

  /** The adjacency lists and the counts describe the same edge list. */
  ghost predicate GraphOf(graph: map<string, seq<string>>, inDegree: map<string, int>, edges: seq<Edge>) {
    && (forall u :: Succ(graph, u) == Targets(edges, u))
    && Counts(inDegree, edges, {})
  }

  /** Recording one more edge `(ref, key)` keeps the adjacency lists and the counts in step. */
  lemma AddEdge(graph: map<string, seq<string>>, inDegree: map<string, int>, edges: seq<Edge>, ref: string, key: string)
    requires key in inDegree
    requires GraphOf(graph, inDegree, edges)
    ensures GraphOf(graph[ref := Succ(graph, ref) + [key]], inDegree[key := inDegree[key] + 1], edges + [(ref, key)])
  {
    var e := edges + [(ref, key)];
    forall u ensures Succ(graph[ref := Succ(graph, ref) + [key]], u) == Targets(e, u) {
      TargetsAppend(edges, ref, key, u);
    }
    forall v ensures Pending(e, v, {}) == Pending(edges, v, {}) + if v == key then 1 else 0 {
      PendingAppend(edges, ref, key, v);
    }
  }

  lemma TargetsAppend(edges: seq<Edge>, ref: string, key: string, u: string)
    ensures Targets(edges + [(ref, key)], u) == Targets(edges, u) + if ref == u then [key] else []
  {
    var e := edges + [(ref, key)];
    UpToAppend(edges, (ref, key), |edges|);
    assert e[|edges|] == (ref, key);
    assert TargetsUpTo(e, |edges| + 1, u) == TargetsUpTo(e, |edges|, u) + if ref == u then [key] else [];
  }

  lemma PendingAppend(edges: seq<Edge>, ref: string, key: string, v: string)
    ensures Pending(edges + [(ref, key)], v, {}) == Pending(edges, v, {}) + if v == key then 1 else 0
  {
    var e := edges + [(ref, key)];
    UpToAppend(edges, (ref, key), |edges|);
    assert e[|edges|] == (ref, key);
    assert PendingUpTo(e, |edges| + 1, v, {}) == PendingUpTo(e, |edges|, v, {}) + if v == key then 1 else 0;
  }

  /** One row of the inner loop of the first loop. */
  lemma AddRow(key: string, fks: seq<ForeignKeyRow>, j: int, scope: set<string>,
               graph: map<string, seq<string>>, inDegree: map<string, int>, edges: seq<Edge>, edges0: seq<Edge>)
    requires 0 <= j < |fks| && key in inDegree && inDegree.Keys == scope
    requires edges == edges0 + TableEdges(key, fks, j, scope)
    requires GraphOf(graph, inDegree, edges)
    ensures RefKey(fks[j]) in inDegree ==>
      var ref := RefKey(fks[j]);
      && edges + [(ref, key)] == edges0 + TableEdges(key, fks, j + 1, scope)
      && GraphOf(graph[ref := Succ(graph, ref) + [key]], inDegree[key := inDegree[key] + 1], edges + [(ref, key)])
    ensures RefKey(fks[j]) !in inDegree ==> edges == edges0 + TableEdges(key, fks, j + 1, scope)
  {
    if RefKey(fks[j]) in inDegree {
      AddEdge(graph, inDegree, edges, RefKey(fks[j]), key);
    }
  }

  /** The body of the first loop for one table: one edge, one successor and
      one count per foreign-key row that names an in-scope table. */
  method AddTableEdges(key: string, fks: seq<ForeignKeyRow>, graph0: map<string, seq<string>>,
                       inDegree0: map<string, int>, ghost edges0: seq<Edge>)
    returns (graph: map<string, seq<string>>, inDegree: map<string, int>, ghost edges: seq<Edge>)
    requires key in inDegree0
    requires GraphOf(graph0, inDegree0, edges0)
    ensures inDegree.Keys == inDegree0.Keys
    ensures edges == edges0 + TableEdges(key, fks, |fks|, inDegree0.Keys)
    ensures GraphOf(graph, inDegree, edges)
  {
    ghost var scope := inDegree0.Keys;
    graph, inDegree, edges := graph0, inDegree0, edges0;
    for j := 0 to |fks|
      invariant inDegree.Keys == scope
      invariant edges == edges0 + TableEdges(key, fks, j, scope)
      invariant GraphOf(graph, inDegree, edges)
    {
      var ref := RefKey(fks[j]);
      AddRow(key, fks, j, scope, graph, inDegree, edges, edges0);
      if ref in inDegree {
        graph := graph[ref := Succ(graph, ref) + [key]];
        inDegree := inDegree[key := inDegree[key] + 1];
        edges := edges + [(ref, key)];
      }
    }
  }

  /** The first loop of `topological_sort_tables`: the adjacency lists and
      the in-degree of every input key. */
  method BuildGraph(tables: seq<Table>, fkMap: map<string, seq<ForeignKeyRow>>)
    returns (graph: map<string, seq<string>>, inDegree: map<string, int>)
    ensures inDegree.Keys == KeySet(tables)
    ensures GraphOf(graph, inDegree, Edges(tables, fkMap))
  {
    var scope := KeySet(tables);
    inDegree := map k | k in scope :: 0;
    graph := map[];
    ghost var edges: seq<Edge> := [];
    for i := 0 to |tables|
      invariant inDegree.Keys == scope
      invariant edges == EdgesOf(tables, fkMap, i, scope)
      invariant GraphOf(graph, inDegree, edges)
    {
      var key := Key(tables[i]);
      graph, inDegree, edges := AddTableEdges(key, FkRows(fkMap, key), graph, inDegree, edges);
    }
  }

  /** Every key of `scope` carries the number of its edges whose source is not in `done`. */
  ghost predicate Counts(inDegree: map<string, int>, edges: seq<Edge>, done: set<string>) {
    forall v :: v in inDegree ==> inDegree[v] == Pending(edges, v, done)
  }

  /** A key has been queued (and maybe placed) exactly when its count reached zero. */
  ghost predicate Frontier(inDegree: map<string, int>, sorted: seq<string>, queue: seq<string>) {
    forall v :: v in inDegree ==> (v in sorted || v in queue <==> inDegree[v] == 0)
  }

  /** After the first `j` successors: each count is down by the number of
      edges from the placed key among them. */
  ghost predicate Released(inDegree: map<string, int>, succ: seq<string>, j: int, edges: seq<Edge>, before: set<string>)
    requires 0 <= j <= |succ|
  {
    forall v :: v in inDegree ==> inDegree[v] + multiset(succ[..j])[v] == Pending(edges, v, before)
  }

  /** The placed keys and the queue hold distinct in-scope keys, and a key is
      among them exactly when its count is zero. */
  ghost predicate QueueOf(inDegree: map<string, int>, sorted: seq<string>, queue: seq<string>) {
    && Distinct(sorted + queue)
    && (forall k :: k in sorted + queue ==> k in inDegree)
    && Frontier(inDegree, sorted, queue)
  }

  lemma CountStep(succ: seq<string>, j: int, inDegree: map<string, int>, edges: seq<Edge>, before: set<string>, done: set<string>)
    requires 0 <= j < |succ| && succ[j] in inDegree
    requires forall v :: multiset(succ)[v] + Pending(edges, v, done) == Pending(edges, v, before)
    requires Released(inDegree, succ, j, edges, before)
    ensures inDegree[succ[j]] >= 1
    ensures Released(inDegree[succ[j] := inDegree[succ[j]] - 1], succ, j + 1, edges, before)
  {
    var v := succ[j];
    assert multiset(succ[..j + 1]) == multiset(succ[..j]) + multiset{v} by {
      assert succ[..j + 1] == succ[..j] + [v];
    }
    assert multiset(succ[..j + 1])[v] <= multiset(succ)[v] by {
      assert succ == succ[..j + 1] + succ[j + 1..];
    }
  }

  lemma QueueStep(inDegree: map<string, int>, v: string, sorted: seq<string>, queue: seq<string>, queue0: seq<string>)
    requires v in inDegree && inDegree[v] >= 1
    requires QueueOf(inDegree, sorted, queue)
    requires |queue0| <= |queue| && queue[..|queue0|] == queue0
    ensures var d := inDegree[v := inDegree[v] - 1];
      var q := if d[v] == 0 then queue + [v] else queue;
      QueueOf(d, sorted, q) && |queue0| <= |q| && q[..|queue0|] == queue0
  {
    assert v !in sorted && v !in queue;
    if inDegree[v] == 1 {
      DistinctConcat(sorted + queue, [v]);
      assert (sorted + queue) + [v] == sorted + (queue + [v]);
      assert (queue + [v])[..|queue0|] == queue[..|queue0|];
    }
  }

  /** The inner loop of Kahn's algorithm: `for neighbor in graph[current]`,
      decrementing each count and queueing the keys that reach zero. */
  method Release(succ: seq<string>, inDegree0: map<string, int>, queue0: seq<string>,
                 ghost sorted: seq<string>, ghost edges: seq<Edge>, ghost before: set<string>, ghost done: set<string>)
    returns (inDegree: map<string, int>, queue: seq<string>)
    requires forall v :: v in succ ==> v in inDegree0
    requires forall v :: multiset(succ)[v] + Pending(edges, v, done) == Pending(edges, v, before)
    requires Counts(inDegree0, edges, before)
    requires QueueOf(inDegree0, sorted, queue0)
    ensures inDegree.Keys == inDegree0.Keys
    ensures Counts(inDegree, edges, done)
    ensures QueueOf(inDegree, sorted, queue)
    ensures |queue0| <= |queue| && queue[..|queue0|] == queue0
  {
    inDegree, queue := inDegree0, queue0;
    var j := 0;
    assert succ[..0] == [];
    while j < |succ|
      invariant 0 <= j <= |succ|
      invariant inDegree.Keys == inDegree0.Keys
      invariant Released(inDegree, succ, j, edges, before)
      invariant QueueOf(inDegree, sorted, queue)
      invariant |queue0| <= |queue| && queue[..|queue0|] == queue0
    {
      inDegree, queue := ReleaseOne(succ, j, inDegree, queue, queue0, sorted, edges, before, done);
      j := j + 1;
    }
    ReleasedAll(succ, inDegree, edges, before, done);
  }

  /** One turn of the inner loop: decrement the count of `succ[j]` and
      queue it when the count reaches zero. */
  method ReleaseOne(succ: seq<string>, j: nat, inDegree0: map<string, int>, queue1: seq<string>, queue0: seq<string>,
                    ghost sorted: seq<string>, ghost edges: seq<Edge>, ghost before: set<string>, ghost done: set<string>)
    returns (inDegree: map<string, int>, queue: seq<string>)
    requires j < |succ| && succ[j] in inDegree0
    requires forall v :: multiset(succ)[v] + Pending(edges, v, done) == Pending(edges, v, before)
    requires Released(inDegree0, succ, j, edges, before)
    requires QueueOf(inDegree0, sorted, queue1)
    requires |queue0| <= |queue1| && queue1[..|queue0|] == queue0
    ensures inDegree.Keys == inDegree0.Keys
    ensures Released(inDegree, succ, j + 1, edges, before)
    ensures QueueOf(inDegree, sorted, queue)
    ensures |queue0| <= |queue| && queue[..|queue0|] == queue0
  {
    var v := succ[j];
    CountStep(succ, j, inDegree0, edges, before, done);
    QueueStep(inDegree0, v, sorted, queue1, queue0);
    inDegree := inDegree0[v := inDegree0[v] - 1];
    queue := queue1;
    if inDegree[v] == 0 {
      queue := queue + [v];
    }
  }

  /** Once every successor is released, the counts are those of `done`. */
  lemma ReleasedAll(succ: seq<string>, inDegree: map<string, int>, edges: seq<Edge>, before: set<string>, done: set<string>)
    requires forall v :: multiset(succ)[v] + Pending(edges, v, done) == Pending(edges, v, before)
    requires Released(inDegree, succ, |succ|, edges, before)
    ensures Counts(inDegree, edges, done)
  {
    assert succ[..|succ|] == succ;
  }

  /** Placing `c` once all its sources are placed keeps every position after its sources. */
  lemma PlacedAfterRefs(edges: seq<Edge>, placed: seq<string>, c: string, done: set<string>)
    requires forall k :: k in placed <==> k in done
    requires Pending(edges, c, done) == 0
    requires forall i :: 0 <= i < |placed| ==> RefsBefore(edges, placed, i)
    ensures forall i :: 0 <= i < |placed| + 1 ==> RefsBefore(edges, placed + [c], i)
  {
    PendingZero(edges, c, done);
    var s := placed + [c];
    forall i | 0 <= i < |s| ensures RefsBefore(edges, s, i) {
      if i < |placed| {
        assert s[..i] == placed[..i];
        assert RefsBefore(edges, placed, i);
      } else {
        assert s[..i] == placed;
      }
    }
  }

  /** The edges out of `c` are the ones that placing `c` releases. */
  lemma Releasing(edges: seq<Edge>, before: set<string>, c: string, scope: set<string>)
    requires c !in before
    requires EdgesWithin(edges, scope)
    ensures forall v :: multiset(Targets(edges, c))[v] + Pending(edges, v, before + {c}) == Pending(edges, v, before)
    ensures forall v :: v in Targets(edges, c) ==> v in scope
  {
    forall v ensures multiset(Targets(edges, c))[v] + Pending(edges, v, before + {c}) == Pending(edges, v, before) {
      PendingStep(edges, v, before, c);
    }
    forall v | v in Targets(edges, c) ensures v in scope {
      TargetsIn(edges, c, v);
    }
  }

  lemma FreeMember(scope: set<string>, edges: seq<Edge>, group: set<string>)
    requires Acyclic(scope, edges)
    requires group <= scope && group != {}
    ensures HasFree(group, edges)
  {
  }

  /** Without a cycle, the queue runs dry only once every key is placed. */
  lemma KahnComplete(scope: set<string>, edges: seq<Edge>, inDegree: map<string, int>, sorted: seq<string>, done: set<string>)
    requires Acyclic(scope, edges) && EdgesWithin(edges, scope)
    requires inDegree.Keys == scope && Counts(inDegree, edges, done)
    requires Frontier(inDegree, sorted, [])
    requires forall k :: k in sorted <==> k in done
    requires done <= scope
    ensures forall k :: k in scope ==> k in sorted
  {
    var rest := set k | k in scope && k !in done;
    if rest != {} {
      FreeMember(scope, edges, rest);
      var v :| v in rest && forall e :: e in edges && e.1 == v ==> e.0 !in rest;
      PendingZero(edges, v, done);
      assert false;
    }
    forall k | k in scope ensures k in sorted {
      assert k !in rest;
    }
  }

  /** Appending to the queue keeps what the placed keys and the queue start with. */
  lemma PrefixKept<T>(a: seq<T>, b: seq<T>, b2: seq<T>, r: seq<T>)
    requires |r| <= |a + b| && (a + b)[..|r|] == r
    requires |b| <= |b2| && b2[..|b|] == b
    ensures |r| <= |a + b2| && (a + b2)[..|r|] == r
  {
    assert a + b2 == (a + b) + b2[|b|..] by {
      assert b2 == b + b2[|b|..];
    }
  }

  /** What holds between turns of the Kahn loop: `sorted` holds the keys
      placed (`done`), each after the keys it references, and the counts
      are those of the edges from keys not yet placed. */
  ghost predicate KahnState(scope: set<string>, edges: seq<Edge>, inDegree: map<string, int>,
                            sorted: seq<string>, queue: seq<string>, done: set<string>, roots: seq<string>) {
    && inDegree.Keys == scope
    && QueueOf(inDegree, sorted, queue)
    && (forall k :: k in sorted <==> k in done)
    && done <= scope
    && Counts(inDegree, edges, done)
    && (forall i :: 0 <= i < |sorted| ==> RefsBefore(edges, sorted, i))
    && |roots| <= |sorted + queue| && (sorted + queue)[..|roots|] == roots
  }

  /** The second loop of `topological_sort_tables`: Kahn's algorithm. */
  method Kahn(order: seq<string>, graph: map<string, seq<string>>, inDegree0: map<string, int>, ghost edges: seq<Edge>)
    returns (sorted: seq<string>)
    requires Distinct(order)
    requires forall k :: k in inDegree0 <==> k in order
    requires EdgesWithin(edges, inDegree0.Keys)
    requires GraphOf(graph, inDegree0, edges)
    ensures Distinct(sorted)
    ensures forall k :: k in sorted ==> k in order
    ensures forall i :: 0 <= i < |sorted| ==> RefsBefore(edges, sorted, i)
    ensures |Roots(order, edges)| <= |sorted| && sorted[..|Roots(order, edges)|] == Roots(order, edges)
    ensures Acyclic(inDegree0.Keys, edges) ==> forall k :: k in order ==> k in sorted
  {
    ghost var scope := inDegree0.Keys;
    var inDegree := inDegree0;
    var queue := ZeroDegree(order, inDegree);
    ZeroDegreeRoots(order, inDegree, edges);
    RootsIn(order, edges);
    ghost var roots := queue;
    sorted := [];
    ghost var done: set<string> := {};
    assert sorted + queue == queue;
    while queue != []
      invariant KahnState(scope, edges, inDegree, sorted, queue, done, roots)
      decreases scope - done
    {
      inDegree, queue, sorted, done := KahnStep(graph, inDegree, queue, sorted, done, edges, scope, roots);
    }
    assert sorted + queue == sorted;
    if Acyclic(scope, edges) {
      KahnComplete(scope, edges, inDegree, sorted, done);
    }
  }

  /** One turn of the Kahn loop: place the head of the queue and release
      the keys that reference it. */
  method KahnStep(graph: map<string, seq<string>>, inDegree0: map<string, int>, queue0: seq<string>, sorted0: seq<string>,
                  ghost done0: set<string>, ghost edges: seq<Edge>, ghost scope: set<string>, ghost roots: seq<string>)
    returns (inDegree: map<string, int>, queue: seq<string>, sorted: seq<string>, ghost done: set<string>)
    requires queue0 != []
    requires EdgesWithin(edges, scope) && forall u :: Succ(graph, u) == Targets(edges, u)
    requires KahnState(scope, edges, inDegree0, sorted0, queue0, done0, roots)
    ensures KahnState(scope, edges, inDegree, sorted, queue, done, roots)
    ensures done0 < done <= scope
  {
    var c := queue0[0];
    assert sorted0 + queue0 == sorted0 + [c] + queue0[1..];
    assert c in sorted0 + queue0;
    assert c !in sorted0 by {
      forall i | 0 <= i < |sorted0| ensures sorted0[i] != c {
        assert (sorted0 + queue0)[i] == sorted0[i] && (sorted0 + queue0)[|sorted0|] == c;
      }
    }
    PlacedAfterRefs(edges, sorted0, c, done0);
    Releasing(edges, done0, c, scope);
    var queue1 := queue0[1..];
    sorted := sorted0 + [c];
    done := done0 + {c};
    assert sorted + queue1 == sorted0 + queue0;
    inDegree, queue := Release(Succ(graph, c), inDegree0, queue1, sorted, edges, done0, done);
    PrefixKept(sorted, queue1, queue, roots);
  }

  /** Lines up to the end of the Kahn loop: the keys in first-occurrence
      order, and the keys Kahn's algorithm placed. */
  method KahnKeys(tables: seq<Table>, fkMap: map<string, seq<ForeignKeyRow>>)
    returns (order: seq<string>, sorted: seq<string>)
    ensures order == FirstOccurrences(Keys(tables))
    ensures forall k :: k in order <==> k in KeySet(tables)
    ensures Distinct(sorted) && forall k :: k in sorted ==> k in order
    ensures forall i :: 0 <= i < |sorted| ==> RefsBefore(Edges(tables, fkMap), sorted, i)
    ensures var roots := Roots(order, Edges(tables, fkMap));
      |roots| <= |sorted| && sorted[..|roots|] == roots
    ensures AcyclicReferences(tables, fkMap) ==> forall k :: k in order ==> k in sorted
  {
    order := FirstOccurrences(Keys(tables));
    OrderIsKeySet(tables);
    var graph, inDegree := BuildGraph(tables, fkMap);
    EdgesInScope(tables, fkMap);
    sorted := Kahn(order, graph, inDegree, Edges(tables, fkMap));
  }

  /** `if len(sorted_tables) != len(tables): sorted_tables.extend(remaining)`. */
  function WithLeftovers(order: seq<string>, sorted: seq<string>, count: int): seq<string> {
    if |sorted| != count then sorted + Without(order, sorted) else sorted
  }

  /** The keys Kahn's algorithm placed, then the others in first-occurrence
      order: every key exactly once, whether or not there was a cycle. */
  lemma WithLeftoversPermutes(order: seq<string>, sorted: seq<string>, count: int)
    requires Distinct(order) && Distinct(sorted)
    requires forall k :: k in sorted ==> k in order
    requires |order| <= count
    ensures var all := WithLeftovers(order, sorted, count);
      && |sorted| <= |all| && all[..|sorted|] == sorted
      && all[|sorted|..] == Without(order, sorted)
      && Distinct(all)
      && (forall k :: k in all <==> k in order)
  {
    if |sorted| != count {
      WithoutDistinct(order, sorted);
      assert (sorted + Without(order, sorted))[..|sorted|] == sorted;
    } else {
      Pigeonhole(sorted, order);
      WithoutAll(order, sorted);
    }
  }

  /** What the key list before the final split promises: every input key
      exactly once; the first `ordered` keys (placed by Kahn's algorithm) each
      after every in-scope key it references, starting with the keys that
      reference nothing in scope, in first-occurrence order; the rest (the
      keys a cycle held back) in first-occurrence order; and without a cycle
      no rest at all. */
  ghost predicate KeyOrder(tables: seq<Table>, fkMap: map<string, seq<ForeignKeyRow>>, keys: seq<string>, ordered: nat) {
    var order := FirstOccurrences(Keys(tables));
    var roots := Roots(order, Edges(tables, fkMap));
    && Distinct(keys) && (forall k :: k in keys <==> k in KeySet(tables))
    && ordered <= |keys|
    && (forall i :: 0 <= i < ordered ==> RefsBefore(Edges(tables, fkMap), keys, i))
    && keys[ordered..] == Without(order, keys[..ordered])
    && |roots| <= ordered && keys[..|roots|] == roots
    && (AcyclicReferences(tables, fkMap) ==> ordered == |keys|)
  }

  /** The key list `topological_sort_tables` builds before the final split.
      `ordered` is how many keys Kahn's algorithm placed. */
  method TopologicalSortKeys(tables: seq<Table>, fkMap: map<string, seq<ForeignKeyRow>>)
    returns (keys: seq<string>, ghost ordered: nat)
    ensures KeyOrder(tables, fkMap, keys, ordered)
  {
    var order, sorted := KahnKeys(tables, fkMap);
    keys := WithLeftovers(order, sorted, |tables|);
    WithLeftoversPermutes(order, sorted, |tables|);
    ordered := |sorted|;
    KeepsRefsBefore(Edges(tables, fkMap), sorted, keys);
    PrefixOfPrefix(keys, sorted, Roots(order, Edges(tables, fkMap)));
    if AcyclicReferences(tables, fkMap) {
      assert Without(order, sorted) == [] by {
        WithoutAll(order, sorted);
      }
    }
  }

  lemma PrefixOfPrefix<T>(a: seq<T>, b: seq<T>, r: seq<T>)
    requires |b| <= |a| && a[..|b|] == b
    requires |r| <= |b| && b[..|r|] == r
    ensures a[..|r|] == r
  {
    assert a[..|r|] == a[..|b|][..|r|];
  }

  lemma KeepsRefsBefore(edges: seq<Edge>, sorted: seq<string>, keys: seq<string>)
    requires |sorted| <= |keys| && keys[..|sorted|] == sorted
    requires forall i :: 0 <= i < |sorted| ==> RefsBefore(edges, sorted, i)
    ensures forall i :: 0 <= i < |sorted| ==> RefsBefore(edges, keys, i)
  {
    forall i | 0 <= i < |sorted| ensures RefsBefore(edges, keys, i) {
      assert keys[..i] == sorted[..i];
      assert keys[i] == sorted[i];
      assert RefsBefore(edges, sorted, i);
    }
  }

  /** `topological_sort_tables(tables, foreign_keys_map)`: the tables in
      creation order. For distinct plain names the result is a permutation
      of the input, and without a cycle every table comes after each table
      it references. */
  method TopologicalSortTables(tables: seq<Table>, fkMap: map<string, seq<ForeignKeyRow>>)
    returns (result: seq<Table>, ghost keys: seq<string>, ghost ordered: nat)
    ensures KeyOrder(tables, fkMap, keys, ordered)
    ensures |result| == |keys|
    ensures forall i :: 0 <= i < |keys| ==> '.' in keys[i] && result[i] == SplitKey(keys[i])
    ensures PlainTables(tables) ==> multiset(result) == multiset(tables)
    ensures PlainTables(tables) && AcyclicReferences(tables, fkMap) ==>
      forall i, j :: 0 <= i < |result| && 0 <= j < |result| && References(fkMap, result[j], result[i]) ==> i < j
  {
    var all;
    all, ordered := TopologicalSortKeys(tables, fkMap);
    keys := all;
    KeysDotted(tables, fkMap, keys, ordered);
    result := seq(|all|, i requires 0 <= i < |all| => SplitKey(all[i]));
    SplitResult(tables, fkMap, keys, ordered, result);
  }

  lemma KeysDotted(tables: seq<Table>, fkMap: map<string, seq<ForeignKeyRow>>, keys: seq<string>, ordered: nat)
    requires KeyOrder(tables, fkMap, keys, ordered)
    ensures forall i :: 0 <= i < |keys| ==> '.' in keys[i]
  {
    KeySetDots(tables);
    forall i | 0 <= i < |keys| ensures '.' in keys[i] {
      assert keys[i] in keys;
    }
  }

  /** The tables split back out of the ordered keys. */
  lemma SplitResult(tables: seq<Table>, fkMap: map<string, seq<ForeignKeyRow>>, keys: seq<string>, ordered: nat, result: seq<Table>)
    requires KeyOrder(tables, fkMap, keys, ordered)
    requires |result| == |keys|
    requires forall i :: 0 <= i < |keys| ==> '.' in keys[i] && result[i] == SplitKey(keys[i])
    ensures PlainTables(tables) ==> multiset(result) == multiset(tables)
    ensures PlainTables(tables) && AcyclicReferences(tables, fkMap) ==>
      forall i, j :: 0 <= i < |result| && 0 <= j < |result| && References(fkMap, result[j], result[i]) ==> i < j
  {
    if PlainTables(tables) {
      PlainResult(tables, fkMap, keys, result);
      if AcyclicReferences(tables, fkMap) {
        PlainOrdering(tables, fkMap, keys, result);
      }
    }
  }

  lemma OrderIsKeySet(tables: seq<Table>)
    ensures forall k :: k in FirstOccurrences(Keys(tables)) <==> k in KeySet(tables)
  {
    forall k | k in KeySet(tables) ensures k in Keys(tables) {
      var t :| t in tables && Key(t) == k;
      var i :| 0 <= i < |tables| && tables[i] == t;
      assert Keys(tables)[i] == k;
    }
  }

  lemma EdgesInScope(tables: seq<Table>, fkMap: map<string, seq<ForeignKeyRow>>)
    ensures EdgesWithin(Edges(tables, fkMap), KeySet(tables))
  {
    forall e | e in Edges(tables, fkMap) ensures e.0 in KeySet(tables) && e.1 in KeySet(tables) {
      EdgesChar(tables, fkMap, e);
    }
  }

  lemma KeySetDots(tables: seq<Table>)
    ensures forall k :: k in KeySet(tables) ==> '.' in k
  {
    forall k | k in KeySet(tables) ensures '.' in k {
      var t :| t in tables && Key(t) == k;
      assert Key(t)[|t.0|] == '.';
    }
  }

  lemma DistinctConcat<T>(a: seq<T>, b: seq<T>)
    requires Distinct(a) && Distinct(b)
    requires forall x :: x in a ==> x !in b
    ensures Distinct(a + b)
  {
    forall i, j | 0 <= i < j < |a + b| ensures (a + b)[i] != (a + b)[j] {
      if i < |a| && j >= |a| {
        assert (a + b)[i] in a && (a + b)[j] == b[j - |a|];
      }
    }
  }

  lemma {:induction false} WithoutDistinct(order: seq<string>, placed: seq<string>)
    requires Distinct(order) && Distinct(placed)
    ensures Distinct(Without(order, placed))
    ensures Distinct(placed + Without(order, placed))
  {
    if order != [] {
      var init := order[..|order| - 1];
      var last := order[|order| - 1];
      WithoutDistinct(init, placed);
      assert last !in init;
      if last !in placed {
        DistinctConcat(Without(init, placed), [last]);
      }
    }
    DistinctConcat(placed, Without(order, placed));
  }

  lemma {:induction false} WithoutAll(order: seq<string>, placed: seq<string>)
    requires forall k :: k in order ==> k in placed
    ensures Without(order, placed) == []
  {
    if order != [] {
      WithoutAll(order[..|order| - 1], placed);
      assert order[|order| - 1] in order;
    }
  }

  /** Under plain names, position `i` of the result is the table whose key is `keys[i]`. */
  lemma PlainPosition(tables: seq<Table>, keys: seq<string>, result: seq<Table>, i: int)
    requires PlainTables(tables)
    requires forall k :: k in keys ==> k in KeySet(tables)
    requires |result| == |keys| && 0 <= i < |keys|
    requires forall n :: 0 <= n < |keys| ==> '.' in keys[n] && result[n] == SplitKey(keys[n])
    ensures result[i] in tables && keys[i] == Key(result[i])
  {
    assert keys[i] in keys;
    var t :| t in tables && Key(t) == keys[i];
    SplitKeyOfKey(t);
  }

  lemma PlainOrdering(tables: seq<Table>, fkMap: map<string, seq<ForeignKeyRow>>, keys: seq<string>, result: seq<Table>)
    requires PlainTables(tables)
    requires Distinct(keys) && forall k :: k in keys <==> k in KeySet(tables)
    requires |result| == |keys|
    requires forall n :: 0 <= n < |keys| ==> '.' in keys[n] && result[n] == SplitKey(keys[n])
    requires forall n :: 0 <= n < |keys| ==> RefsBefore(Edges(tables, fkMap), keys, n)
    ensures forall i, j :: 0 <= i < |result| && 0 <= j < |result| && References(fkMap, result[j], result[i]) ==> i < j
  {
    forall i, j | 0 <= i < |result| && 0 <= j < |result| && References(fkMap, result[j], result[i])
      ensures i < j
    {
      PlainPosition(tables, keys, result, i);
      PlainPosition(tables, keys, result, j);
      EdgesChar(tables, fkMap, (keys[i], keys[j]));
      assert RefsBefore(Edges(tables, fkMap), keys, j);
      assert keys[i] in keys[..j];
      var i' :| 0 <= i' < j && keys[..j][i'] == keys[i];
    }
  }

  lemma PlainResult(tables: seq<Table>, fkMap: map<string, seq<ForeignKeyRow>>, keys: seq<string>, result: seq<Table>)
    requires PlainTables(tables)
    requires Distinct(keys) && forall k :: k in keys <==> k in KeySet(tables)
    requires |result| == |keys|
    requires forall n :: 0 <= n < |keys| ==> '.' in keys[n] && result[n] == SplitKey(keys[n])
    ensures multiset(result) == multiset(tables)
  {
    forall i, j | 0 <= i < j < |result| ensures result[i] != result[j] {
      PlainPosition(tables, keys, result, i);
      PlainPosition(tables, keys, result, j);
    }
    forall t ensures t in result <==> t in tables {
      if t in tables {
        assert Key(t) in KeySet(tables);
        var i :| 0 <= i < |keys| && keys[i] == Key(t);
        PlainPosition(tables, keys, result, i);
        KeyInjective(t, result[i]);
      }
      if t in result {
        var i :| 0 <= i < |result| && result[i] == t;
        PlainPosition(tables, keys, result, i);
      }
    }
    DistinctMultiset(result, tables);
  }

  // ---------------------------------------------------------------------
  // What acyclic means
  // ---------------------------------------------------------------------

  lemma MinLevel(group: set<string>, level: map<string, nat>) returns (v: string)
    requires group != {} && group <= level.Keys
    ensures v in group && forall u :: u in group ==> level[v] <= level[u]
  {
    var x :| x in group;
    if group == {x} {
      v := x;
    } else {
      var w := MinLevel(group - {x}, level);
      v := if level[x] <= level[w] then x else w;
    }
  }

  /** The ranking by dependency level the schema documents: when every
      referenced table sits on a strictly lower level than the tables that
      reference it, the references have no cycle, so Kahn's algorithm places
      every table. */
  lemma LevelsImplyAcyclic(tables: seq<Table>, fkMap: map<string, seq<ForeignKeyRow>>, level: map<string, nat>)
    requires KeySet(tables) <= level.Keys
    requires forall t, r :: t in tables && r in tables && References(fkMap, t, r) ==> level[Key(r)] < level[Key(t)]
    ensures AcyclicReferences(tables, fkMap)
  {
    var scope := KeySet(tables);
    var edges := Edges(tables, fkMap);
    forall group | group <= scope && group != {} ensures HasFree(group, edges) {
      var v := MinLevel(group, level);
      forall e | e in edges && e.1 == v ensures e.0 !in group {
        EdgesChar(tables, fkMap, e);
        var t :| t in tables && Key(t) == e.1;
        var r :| r in tables && Key(r) == e.0;
        assert References(fkMap, t, r);
      }
    }
  }

  /** A table that references itself is a cycle: it is never released, and
      Kahn's algorithm leaves it to the input-order tail. */
  lemma SelfReferenceIsCycle(tables: seq<Table>, fkMap: map<string, seq<ForeignKeyRow>>, t: Table)
    requires t in tables && References(fkMap, t, t)
    ensures !AcyclicReferences(tables, fkMap)
  {
    var group := {Key(t)};
    EdgesChar(tables, fkMap, (Key(t), Key(t)));
    assert (Key(t), Key(t)) in Edges(tables, fkMap);
    assert !HasFree(group, Edges(tables, fkMap));
    assert group <= KeySet(tables);
  }

  /** The self-referencing table is never placed by Kahn's algorithm: it
      sits in the input-order tail of the key list. */
  lemma SelfReferenceLeftOver(tables: seq<Table>, fkMap: map<string, seq<ForeignKeyRow>>, t: Table,
                              keys: seq<string>, ordered: nat)
    requires t in tables && References(fkMap, t, t)
    requires KeyOrder(tables, fkMap, keys, ordered)
    ensures Key(t) in keys[ordered..]
    ensures Key(t) !in keys[..ordered]
  {
    var e := (Key(t), Key(t));
    EdgesChar(tables, fkMap, e);
    assert Key(t) in KeySet(tables);
    var i :| 0 <= i < |keys| && keys[i] == Key(t);
    SelfEdgeNotBefore(Edges(tables, fkMap), keys, i);
    assert keys[ordered..][i - ordered] == Key(t);
  }

  /** A key with an edge to itself never has all its references before it. */
  lemma SelfEdgeNotBefore(edges: seq<Edge>, keys: seq<string>, i: int)
    requires Distinct(keys) && 0 <= i < |keys|
    requires (keys[i], keys[i]) in edges
    ensures !RefsBefore(edges, keys, i)
  {
    forall j | 0 <= j < i ensures keys[..i][j] != keys[i] {
      assert keys[..i][j] == keys[j];
    }
    assert keys[i] !in keys[..i];
  }
}
