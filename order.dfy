/**
 * Python's `sorted()` as used by the verification stage and the report:
 * code-point lexicographic order on `str`, lexicographic order on
 * `(schema, table)` tuples, and a sort that returns a sorted permutation.
 */
module Order {

  /** Python's `a <= b` on `str`: lexicographic by code point. */
  predicate StrLe(a: string, b: string)
    decreases |a|
  {
    a == [] || (b != [] && (a[0] < b[0] || (a[0] == b[0] && StrLe(a[1..], b[1..]))))
  }

  /** Python's `a <= b` on `(str, str)` tuples. */
  predicate PairLe(a: (string, string), b: (string, string)) {
    (a.0 != b.0 && StrLe(a.0, b.0)) || (a.0 == b.0 && StrLe(a.1, b.1))
  }

  lemma {:induction false} StrLeTotal(a: string, b: string)
    ensures StrLe(a, b) || StrLe(b, a)
    decreases |a|
  {
    if a != [] && b != [] && a[0] == b[0] {
      StrLeTotal(a[1..], b[1..]);
    }
  }

  lemma {:induction false} StrLeTransitive(a: string, b: string, c: string)
    requires StrLe(a, b) && StrLe(b, c)
    ensures StrLe(a, c)
    decreases |a|
  {
    if a != [] && a[0] == b[0] && b[0] == c[0] {
      StrLeTransitive(a[1..], b[1..], c[1..]);
    }
  }

  lemma {:induction false} StrLeAntisymmetric(a: string, b: string)
    requires StrLe(a, b) && StrLe(b, a)
    ensures a == b
    decreases |a|
  {
    if a != [] {
      StrLeAntisymmetric(a[1..], b[1..]);
      assert a == [a[0]] + a[1..] && b == [b[0]] + b[1..];
    }
  }

  lemma PairLeTotal(a: (string, string), b: (string, string))
    ensures PairLe(a, b) || PairLe(b, a)
  {
    StrLeTotal(a.0, b.0);
    StrLeTotal(a.1, b.1);
  }

  lemma PairLeTransitive(a: (string, string), b: (string, string), c: (string, string))
    requires PairLe(a, b) && PairLe(b, c)
    ensures PairLe(a, c)
  {
    if a.0 != b.0 && b.0 != c.0 {
      StrLeTransitive(a.0, b.0, c.0);
      if a.0 == c.0 {
        StrLeAntisymmetric(a.0, b.0);
      }
    } else if a.0 == b.0 && b.0 == c.0 {
      StrLeTransitive(a.1, b.1, c.1);
    }
  }

  lemma PairLeAntisymmetric(a: (string, string), b: (string, string))
    requires PairLe(a, b) && PairLe(b, a)
    ensures a == b
  {
    if a.0 != b.0 {
      StrLeAntisymmetric(a.0, b.0);
    } else {
      StrLeAntisymmetric(a.1, b.1);
    }
  }

  // ---------------------------------------------------------------------
  // Sorting
  // ---------------------------------------------------------------------

  predicate SortedBy<T>(s: seq<T>, le: (T, T) -> bool) {
    forall i, j :: 0 <= i < j < |s| ==> le(s[i], s[j])
  }

  function Insert<T(==,!new)>(x: T, s: seq<T>, le: (T, T) -> bool): (r: seq<T>)
    ensures |r| == |s| + 1
    ensures forall y :: y in r <==> y == x || y in s
  {
    if s == [] then [x]
    else if le(x, s[0]) then [x] + s
    else [s[0]] + Insert(x, s[1..], le)
  }

  /** Insertion sort; `sorted(s)` for a total order `le`. */
  function SortBy<T(==,!new)>(s: seq<T>, le: (T, T) -> bool): (r: seq<T>)
    ensures |r| == |s|
  {
    if s == [] then [] else Insert(s[0], SortBy(s[1..], le), le)
  }

  lemma {:induction false} InsertPermutes<T(!new)>(x: T, s: seq<T>, le: (T, T) -> bool)
    ensures multiset(Insert(x, s, le)) == multiset(s) + multiset{x}
  {
    if s != [] && !le(x, s[0]) {
      InsertPermutes(x, s[1..], le);
      assert s == [s[0]] + s[1..];
    }
  }

  lemma {:induction false} SortPermutes<T(!new)>(s: seq<T>, le: (T, T) -> bool)
    ensures multiset(SortBy(s, le)) == multiset(s)
  {
    if s != [] {
      SortPermutes(s[1..], le);
      InsertPermutes(s[0], SortBy(s[1..], le), le);
      assert s == [s[0]] + s[1..];
    }
  }

  ghost predicate TotalPreorder<T(!new)>(le: (T, T) -> bool) {
    && (forall a, b :: le(a, b) || le(b, a))
    && (forall a, b, c :: le(a, b) && le(b, c) ==> le(a, c))
  }

  lemma {:induction false} InsertSorted<T(!new)>(x: T, s: seq<T>, le: (T, T) -> bool)
    requires TotalPreorder(le)
    requires SortedBy(s, le)
    ensures SortedBy(Insert(x, s, le), le)
  {
    if s != [] {
      var r := Insert(x, s, le);
      if le(x, s[0]) {
        forall i, j | 0 <= i < j < |r| ensures le(r[i], r[j]) {
          if i == 0 && j > 1 {
            assert le(x, s[0]) && le(s[0], s[j - 1]);
          }
        }
      } else {
        var t := Insert(x, s[1..], le);
        InsertSorted(x, s[1..], le);
        forall j | 0 <= j < |t| ensures le(s[0], t[j]) {
          if t[j] != x {
            assert t[j] in s[1..];
          }
        }
      }
    }
  }

  /** Appending an element no smaller than any other keeps a sequence sorted. */
  lemma SortedSnoc<T>(s: seq<T>, x: T, le: (T, T) -> bool)
    requires SortedBy(s, le) && forall y :: y in s ==> le(y, x)
    ensures SortedBy(s + [x], le)
  {
    forall i, j | 0 <= i < j < |s| + 1 ensures le((s + [x])[i], (s + [x])[j]) {
      if j == |s| {
        assert s[i] in s;
      }
    }
  }

  /** The last element of a sorted sequence is no smaller than the others. */
  lemma SortedLast<T>(s: seq<T>, init: seq<T>, last: T, le: (T, T) -> bool)
    requires SortedBy(s, le) && s == init + [last]
    ensures SortedBy(init, le)
    ensures forall y :: y in init ==> le(y, last)
  {
    forall y | y in init ensures le(y, last) {
      var i :| 0 <= i < |init| && init[i] == y;
      assert s[i] == y && s[|init|] == last;
    }
    forall i, j | 0 <= i < j < |init| ensures le(init[i], init[j]) {
      assert s[i] == init[i] && s[j] == init[j];
    }
  }

  lemma {:induction false} SortSorted<T(!new)>(s: seq<T>, le: (T, T) -> bool)
    requires TotalPreorder(le)
    ensures SortedBy(SortBy(s, le), le)
  {
    if s != [] {
      SortSorted(s[1..], le);
      InsertSorted(s[0], SortBy(s[1..], le), le);
    }
  }

  lemma PairLeTotalPreorder()
    ensures TotalPreorder(PairLe)
  {
    forall a, b ensures PairLe(a, b) || PairLe(b, a) {
      PairLeTotal(a, b);
    }
    forall a, b, c | PairLe(a, b) && PairLe(b, c) ensures PairLe(a, c) {
      PairLeTransitive(a, b, c);
    }
  }

  lemma StrLeTotalPreorder()
    ensures TotalPreorder(StrLe)
  {
    forall a, b ensures StrLe(a, b) || StrLe(b, a) {
      StrLeTotal(a, b);
    }
    forall a, b, c | StrLe(a, b) && StrLe(b, c) ensures StrLe(a, c) {
      StrLeTransitive(a, b, c);
    }
  }

  /** `sorted(tables)` for a collection of `(schema, table)` tuples: an
      ascending permutation of its argument. */
  function SortPairs(s: seq<(string, string)>): (r: seq<(string, string)>)
    ensures multiset(r) == multiset(s)
    ensures SortedBy(r, PairLe)
  {
    SortPermutes(s, PairLe);
    PairLeTotalPreorder();
    SortSorted(s, PairLe);
    SortBy(s, PairLe)
  }

  /** Two sorted arrangements of the same strings are one and the same:
      what `sorted` returns does not depend on the order of its input. */
  lemma {:induction false} SortedStringsUnique(a: seq<string>, b: seq<string>)
    requires SortedBy(a, StrLe) && SortedBy(b, StrLe) && multiset(a) == multiset(b)
    ensures a == b
    decreases |a|
  {
    if a != [] {
      SortedHeads(a, b);
      DropHead(a);
      DropHead(b);
      SortedTail(a, StrLe);
      SortedTail(b, StrLe);
      SortedStringsUnique(a[1..], b[1..]);
      assert a == [a[0]] + a[1..] && b == [b[0]] + b[1..];
    }
  }

  /** Sorted arrangements of the same strings start alike. */
  lemma SortedHeads(a: seq<string>, b: seq<string>)
    requires SortedBy(a, StrLe) && SortedBy(b, StrLe) && multiset(a) == multiset(b) && a != []
    ensures b != [] && a[0] == b[0]
  {
    assert a[0] in multiset(b);
    var k :| 0 <= k < |b| && b[k] == a[0];
    assert b[0] in multiset(a);
    var j :| 0 <= j < |a| && a[j] == b[0];
    if j > 0 && k > 0 {
      assert StrLe(a[0], a[j]) && StrLe(b[0], b[k]);
      StrLeAntisymmetric(a[0], b[0]);
    }
  }

  lemma DropHead<T>(a: seq<T>)
    requires a != []
    ensures multiset(a[1..]) == multiset(a) - multiset{a[0]}
  {
    assert a == [a[0]] + a[1..];
  }

  lemma SortedTail<T>(a: seq<T>, le: (T, T) -> bool)
    requires SortedBy(a, le) && a != []
    ensures SortedBy(a[1..], le)
  {
    forall i, j | 0 <= i < j < |a| - 1 ensures le(a[1..][i], a[1..][j]) {
      assert a[1..][i] == a[i + 1] && a[1..][j] == a[j + 1];
    }
  }

  /** `sorted(names)` for a collection of strings. */
  function SortStrings(s: seq<string>): (r: seq<string>)
    ensures multiset(r) == multiset(s)
    ensures SortedBy(r, StrLe)
  {
    SortPermutes(s, StrLe);
    StrLeTotalPreorder();
    SortSorted(s, StrLe);
    SortBy(s, StrLe)
  }
}
