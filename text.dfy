/**
 * Text primitives shared by every stage of the migration tool: Python's
 * `str.strip`, `str.lower`, `str.split`, `str.join` and `str(int)`, and the
 * quote-doubling used by the SQL identifier and string-literal quoting of
 * ISO/IEC 9075-2, sections 5.2 (<delimited identifier>) and 5.3
 * (<character string literal>).
 */
module Text {

  datatype Option<T> = None | Some(value: T)

  datatype Result<T, E> = Ok(value: T) | Err(error: E)

  /** `[f(x) for x in xs]` where `f` may raise: every result in order, or
      the error of the first element that fails. */
  function MapAll<T, U, E>(xs: seq<T>, f: T -> Result<U, E>): Result<seq<U>, E> {
    if xs == [] then Ok([])
    else
      match MapAll(xs[..|xs| - 1], f)
      case Err(e) => Err(e)
      case Ok(us) =>
        match f(xs[|xs| - 1])
        case Err(e) => Err(e)
        case Ok(u) => Ok(us + [u])
  }

  /** One result per element, in order; otherwise the error of the first
      failing element. */
  lemma {:induction false} MapAllSpec<T, U, E>(xs: seq<T>, f: T -> Result<U, E>)
    ensures var r := MapAll(xs, f);
      && (r.Ok? <==> forall i :: 0 <= i < |xs| ==> f(xs[i]).Ok?)
      && (r.Ok? ==> |r.value| == |xs| && forall i :: 0 <= i < |xs| ==> f(xs[i]) == Ok(r.value[i]))
      && (r.Err? ==> exists i :: 0 <= i < |xs| && f(xs[i]) == Err(r.error) &&
                       forall j :: 0 <= j < i ==> f(xs[j]).Ok?)
  {
    if xs != [] {
      var init := xs[..|xs| - 1];
      MapAllSpec(init, f);
      assert forall i :: 0 <= i < |init| ==> init[i] == xs[i];
    }
  }

  /** Once a prefix has failed, the rest of the elements are not looked at. */
  lemma {:induction false} MapAllFirstError<T, U, E>(xs: seq<T>, f: T -> Result<U, E>, n: nat)
    requires n <= |xs| && MapAll(xs[..n], f).Err?
    ensures MapAll(xs, f) == MapAll(xs[..n], f)
    decreases |xs|
  {
    if n == |xs| {
      assert xs[..n] == xs;
    } else {
      var init := xs[..|xs| - 1];
      assert init[..n] == xs[..n];
      MapAllFirstError(init, f, n);
    }
  }

  // ---------------------------------------------------------------------
  // Whitespace and str.strip()
  // ---------------------------------------------------------------------

  /** The characters for which Python's `str.isspace()` holds; `str.strip()`
      and the regular-expression class `\s` both use this set. */
  predicate IsSpace(c: char) {
    || ('\t' <= c <= '\r')
    || ('\U{1C}' <= c <= ' ')
    || c == '\U{85}' || c == '\U{A0}' || c == '\U{1680}'
    || ('\U{2000}' <= c <= '\U{200A}')
    || c == '\U{2028}' || c == '\U{2029}' || c == '\U{202F}'
    || c == '\U{205F}' || c == '\U{3000}'
  }

  predicate AllSpace(s: string) {
    forall i :: 0 <= i < |s| ==> IsSpace(s[i])
  }

  function TrimStart(s: string): (r: string)
    ensures |r| <= |s| && r == s[|s| - |r|..]
    ensures AllSpace(s[..|s| - |r|])
    ensures r == [] || !IsSpace(r[0])
  {
    if |s| > 0 && IsSpace(s[0]) then
      var r := TrimStart(s[1..]);
      assert s[1..][..|s| - 1 - |r|] == s[1..|s| - |r|];
      r
    else s
  }

  function TrimEnd(s: string): (r: string)
    ensures |r| <= |s| && r == s[..|r|]
    ensures AllSpace(s[|r|..])
    ensures r == [] || !IsSpace(r[|r| - 1])
  {
    if |s| > 0 && IsSpace(s[|s| - 1]) then
      var r := TrimEnd(s[..|s| - 1]);
      assert s[..|s| - 1][|r|..] == s[|r|..|s| - 1];
      r
    else s
  }

  /** Python's `s.strip()` with no argument: whitespace is cut from both
      ends. */
  function Strip(s: string): (r: string)
    ensures |r| <= |s|
    ensures r == [] || (!IsSpace(r[0]) && !IsSpace(r[|r| - 1]))
  {
    TrimEnd(TrimStart(s))
  }

  /** What `strip()` removes is whitespace and nothing else: text that does
      not start or end with whitespace comes back out of any whitespace
      padding unchanged. */
  lemma {:induction false} StripPadded(pre: string, x: string, post: string)
    requires AllSpace(pre) && AllSpace(post)
    requires x == [] || (!IsSpace(x[0]) && !IsSpace(x[|x| - 1]))
    ensures Strip(pre + x + post) == x
  {
    var s := pre + x + post;
    if x == [] {
      assert AllSpace(s);
    } else {
      TrimStartPadded(pre, x + post);
      assert s == pre + (x + post);
      TrimEndPadded(x, post);
    }
  }

  lemma {:induction false} TrimStartPadded(pre: string, x: string)
    requires AllSpace(pre)
    requires x == [] || !IsSpace(x[0])
    ensures TrimStart(pre + x) == x
  {
    if pre != [] {
      assert (pre + x)[1..] == pre[1..] + x;
      TrimStartPadded(pre[1..], x);
    }
  }

  lemma {:induction false} TrimEndPadded(x: string, post: string)
    requires AllSpace(post)
    requires x == [] || !IsSpace(x[|x| - 1])
    ensures TrimEnd(x + post) == x
  {
    if post != [] {
      var s := x + post;
      assert s[..|s| - 1] == x + post[..|post| - 1];
      TrimEndPadded(x, post[..|post| - 1]);
    } else {
      assert x + post == x;
    }
  }

  /** A string that neither starts nor ends with whitespace is left alone by
      `strip()`. */
  lemma StripNoop(s: string)
    requires s == [] || (!IsSpace(s[0]) && !IsSpace(s[|s| - 1]))
    ensures Strip(s) == s
  {
    StripPadded([], s, []);
    assert [] + s + [] == s;
  }

  lemma StripIdempotent(s: string)
    ensures Strip(Strip(s)) == Strip(s)
  {
    StripNoop(Strip(s));
  }

  // ---------------------------------------------------------------------
  // str.lower() (ASCII letters only)
  // ---------------------------------------------------------------------

  function LowerChar(c: char): (r: char)
    ensures 'A' <= c <= 'Z' ==> 'a' <= r <= 'z'
    ensures !('A' <= c <= 'Z') ==> r == c
  {
    if 'A' <= c <= 'Z' then (c as int + 32) as char else c
  }

  function Lower(s: string): (r: string)
    ensures |r| == |s|
    ensures forall i :: 0 <= i < |s| ==> r[i] == LowerChar(s[i])
  {
    if s == [] then [] else [LowerChar(s[0])] + Lower(s[1..])
  }

  lemma LowerIdempotent(s: string)
    ensures Lower(Lower(s)) == Lower(s)
  {
  }

  /** Case-insensitive equality of the IGNORECASE regular-expression flag,
      restricted to ASCII letters. */
  predicate EqualsIgnoreCase(a: string, b: string) {
    Lower(a) == Lower(b)
  }

  // ---------------------------------------------------------------------
  // str.join and str.split
  // ---------------------------------------------------------------------

  /** `sep.join(parts)`. */
  function Join(parts: seq<string>, sep: string): (r: string)
    ensures parts == [] ==> r == []
    ensures |parts| == 1 ==> r == parts[0]
  {
    if parts == [] then []
    else if |parts| == 1 then parts[0]
    else parts[0] + sep + Join(parts[1..], sep)
  }

  /** `s.startswith(prefix)`. */
  predicate StartsWith(s: string, prefix: string) {
    |prefix| <= |s| && s[..|prefix|] == prefix
  }

  /** `s.endswith(suffix)`. */
  predicate EndsWith(s: string, suffix: string) {
    |suffix| <= |s| && s[|s| - |suffix|..] == suffix
  }

  /** The text of a join starts with its first part and ends with its last. */
  lemma {:induction false} JoinEnds(parts: seq<string>, sep: string)
    requires parts != []
    ensures var r := Join(parts, sep);
      |parts[0]| <= |r| && r[..|parts[0]|] == parts[0]
    ensures var r, last := Join(parts, sep), parts[|parts| - 1];
      |last| <= |r| && r[|r| - |last|..] == last
    decreases |parts|
  {
    if |parts| > 1 {
      JoinEnds(parts[1..], sep);
      assert Join(parts, sep) == parts[0] + (sep + Join(parts[1..], sep));
    }
  }

  /** Lines each ended by a newline: the text of a multi-line string
      literal. */
  function Unlines(lines: seq<string>): string {
    if lines == [] then [] else lines[0] + "\n" + Unlines(lines[1..])
  }

  /** The lines of a text are its newline-joined lines plus a final newline. */
  lemma {:induction false} UnlinesJoin(lines: seq<string>)
    requires lines != []
    ensures Unlines(lines) == Join(lines, "\n") + "\n"
  {
    if |lines| > 1 {
      UnlinesJoin(lines[1..]);
    }
  }

  lemma {:induction false} UnlinesAppend(a: seq<string>, b: seq<string>)
    ensures Unlines(a + b) == Unlines(a) + Unlines(b)
  {
    if a != [] {
      assert (a + b)[1..] == a[1..] + b;
      UnlinesAppend(a[1..], b);
    } else {
      assert a + b == b;
    }
  }

  /** `s.split(c)` for a one-character separator. */
  function Split(s: string, c: char): (r: seq<string>)
    ensures |r| >= 1
    ensures c in s ==> |r| >= 2
    ensures forall k :: 0 <= k < |r| ==> c !in r[k]
    ensures c !in s ==> r == [s]
    ensures Join(r, [c]) == s
  {
    if c !in s then [s]
    else
      var i := IndexOf(s, c);
      var rest := Split(s[i + 1..], c);
      assert s == s[..i] + [c] + s[i + 1..];
      [s[..i]] + rest
  }

  /** The reverse direction: joining pieces free of `c` with `c` and
      splitting at `c` gives the pieces back. */
  lemma {:induction false} JoinSplit(parts: seq<string>, c: char)
    requires parts != []
    requires forall k :: 0 <= k < |parts| ==> c !in parts[k]
    ensures Split(Join(parts, [c]), c) == parts
  {
    if |parts| > 1 {
      JoinSplit(parts[1..], c);
      SplitCons(parts[0], Join(parts[1..], [c]), c);
    }
  }

  /** Splitting at the first separator: the piece before it, then the rest. */
  lemma SplitCons(a: string, rest: string, c: char)
    requires c !in a
    ensures Split(a + [c] + rest, c) == [a] + Split(rest, c)
  {
    var s := a + [c] + rest;
    assert s[|a|] == c;
    assert s[..|a|] == a;
    assert IndexOf(s, c) == |a|;
    assert s[|a| + 1..] == rest;
  }

  /** The first position of `c` in `s`, or `|s|` when there is none. */
  function IndexOf(s: string, c: char): (i: nat)
    ensures i <= |s|
    ensures c !in s[..i]
    ensures i < |s| <==> c in s
    ensures i < |s| ==> s[i] == c
  {
    if s == [] then 0
    else if s[0] == c then 0
    else
      var j := IndexOf(s[1..], c);
      assert s[..j + 1] == [s[0]] + s[1..][..j];
      1 + j
  }

  /** Splitting `a + [c] + b` at `c` gives back `a` and `b` when neither
      contains `c`: the key `schema.table` splits back into its parts. */
  lemma SplitPair(a: string, b: string, c: char)
    requires c !in a && c !in b
    ensures Split(a + [c] + b, c) == [a, b]
  {
    SplitCons(a, b, c);
  }

  // ---------------------------------------------------------------------
  // str(int)
  // ---------------------------------------------------------------------

  function DigitChar(d: nat): (c: char)
    requires d < 10
    ensures '0' <= c <= '9'
  {
    ('0' as int + d) as char
  }

  function DigitValue(c: char): nat
    requires '0' <= c <= '9'
  {
    c as int - '0' as int
  }

  predicate IsDigit(c: char) { '0' <= c <= '9' }

  predicate AllDigits(s: string) {
    forall i :: 0 <= i < |s| ==> IsDigit(s[i])
  }

  /** Decimal digits of a natural number, without leading zeros. */
  function NatToString(n: nat): (r: string)
    ensures |r| >= 1 && AllDigits(r)
    ensures n > 0 ==> r[0] != '0'
    decreases n
  {
    if n < 10 then [DigitChar(n)] else NatToString(n / 10) + [DigitChar(n % 10)]
  }

  /** Python's `str(i)` for an int. */
  function IntToString(i: int): (r: string)
    ensures |r| >= 1
  {
    if i < 0 then "-" + NatToString(-i) else NatToString(i)
  }

  /** Python's `str(x)` for an int or `None`. */
  function IntOrNoneToString(x: Option<int>): string {
    match x
    case None => "None"
    case Some(n) => IntToString(n)
  }

  function ParseNat(s: string): nat
    requires AllDigits(s)
    decreases |s|
  {
    if s == [] then 0 else 10 * ParseNat(s[..|s| - 1]) + DigitValue(s[|s| - 1])
  }

  function ParseInt(s: string): Option<int> {
    if |s| >= 2 && s[0] == '-' && AllDigits(s[1..]) then Some(0 - ParseNat(s[1..]))
    else if |s| >= 1 && AllDigits(s) then Some(ParseNat(s))
    else None
  }

  lemma {:induction false} ParseNatToString(n: nat)
    ensures ParseNat(NatToString(n)) == n
    decreases n
  {
    if n >= 10 {
      var r := NatToString(n);
      ParseNatToString(n / 10);
      assert r[..|r| - 1] == NatToString(n / 10);
    }
  }

  /** The decimal text of an int reads back as that int. */
  lemma IntToStringRoundTrip(i: int)
    ensures ParseInt(IntToString(i)) == Some(i)
  {
    var s := IntToString(i);
    if i < 0 {
      var n := NatToString(-i);
      ParseNatToString(-i);
      assert s == "-" + n;
      assert s[1..] == n;
      assert |s| >= 2 && s[0] == '-' && AllDigits(s[1..]);
    } else {
      ParseNatToString(i);
      assert IsDigit(s[0]);
    }
  }

  lemma IntToStringInjective(i: int, j: int)
    ensures IntToString(i) == IntToString(j) ==> i == j
  {
    IntToStringRoundTrip(i);
    IntToStringRoundTrip(j);
  }

  // ---------------------------------------------------------------------
  // Quote doubling
  // ---------------------------------------------------------------------

  /** `s.replace(q, q + q)`. */
  function Double(s: string, q: char): (r: string)
    ensures |r| >= |s|
  {
    if s == [] then []
    else (if s[0] == q then [q, q] else [s[0]]) + Double(s[1..], q)
  }

  /** Inverse of `Double`: every `q` must come in a pair. */
  function Undouble(t: string, q: char): Option<string>
    decreases |t|
  {
    if t == [] then Some([])
    else if t[0] == q then
      if |t| >= 2 && t[1] == q then
        match Undouble(t[2..], q)
        case Some(rest) => Some([q] + rest)
        case None => None
      else None
    else
      match Undouble(t[1..], q)
      case Some(rest) => Some([t[0]] + rest)
      case None => None
  }

  /** `q + s.replace(q, q + q) + q`: the delimited form. */
  function Quote(s: string, q: char): (r: string)
    ensures |r| >= 2 && r[0] == q && r[|r| - 1] == q
  {
    [q] + Double(s, q) + [q]
  }

  function Unquote(t: string, q: char): Option<string> {
    if |t| >= 2 && t[0] == q && t[|t| - 1] == q then Undouble(t[1..|t| - 1], q) else None
  }

  lemma {:induction false} UndoubleDouble(s: string, q: char)
    ensures Undouble(Double(s, q), q) == Some(s)
  {
    if s != [] {
      UndoubleDouble(s[1..], q);
      var d := Double(s, q);
      if s[0] == q {
        assert d[2..] == Double(s[1..], q);
      } else {
        assert d[1..] == Double(s[1..], q);
      }
      assert [s[0]] + s[1..] == s;
    }
  }

  /** Quoting can always be undone, so two different strings never quote
      to the same text. */
  lemma UnquoteQuote(s: string, q: char)
    ensures Unquote(Quote(s, q), q) == Some(s)
  {
    var t := Quote(s, q);
    assert t[1..|t| - 1] == Double(s, q);
    UndoubleDouble(s, q);
  }

  lemma QuoteInjective(a: string, b: string, q: char)
    ensures Quote(a, q) == Quote(b, q) ==> a == b
  {
    UnquoteQuote(a, q);
    UnquoteQuote(b, q);
  }

  /** Inside the quoted form every delimiter is doubled: a single delimiter
      never occurs between the outer two. */
  lemma {:induction false} DoubledDelimitersPair(s: string, q: char, i: nat)
    requires i < |Double(s, q)| && Double(s, q)[i] == q
    ensures (i + 1 < |Double(s, q)| && Double(s, q)[i + 1] == q) || (i > 0 && Double(s, q)[i - 1] == q)
  {
    var d := Double(s, q);
    var head := if s[0] == q then [q, q] else [s[0]];
    assert d == head + Double(s[1..], q);
    if i >= |head| {
      DoubledDelimitersPair(s[1..], q, i - |head|);
    }
  }

  // ---------------------------------------------------------------------
  // SQL quoting used by the data-transfer and export stages
  // ---------------------------------------------------------------------

  /** ISO/IEC 9075-2, section 5.2, <delimited identifier>:
      `'"' + s.replace('"', '""') + '"'`. */
  function QuoteIdent(s: string): string {
    Quote(s, '"')
  }

  /** ISO/IEC 9075-2, section 5.3, <character string literal>:
      `"'" + s.replace("'", "''") + "'"`. */
  function QuoteString(s: string): string {
    Quote(s, '\'')
  }

  lemma QuoteIdentRoundTrip(s: string)
    ensures Unquote(QuoteIdent(s), '"') == Some(s)
    ensures forall t :: QuoteIdent(t) == QuoteIdent(s) ==> t == s
  {
    UnquoteQuote(s, '"');
    forall t | QuoteIdent(t) == QuoteIdent(s) ensures t == s {
      QuoteInjective(t, s, '"');
    }
  }

  lemma QuoteStringRoundTrip(s: string)
    ensures Unquote(QuoteString(s), '\'') == Some(s)
    ensures forall t :: QuoteString(t) == QuoteString(s) ==> t == s
  {
    UnquoteQuote(s, '\'');
    forall t | QuoteString(t) == QuoteString(s) ensures t == s {
      QuoteInjective(t, s, '\'');
    }
  }
}
