/** The string library that the parsers share: trimming, splitting with merged delimiters, decimals. */
module Text {
  import Seqs

  datatype Option<+T> = None | Some(value: T)

  /** isspace in the C locale. */
  predicate IsSpace(c: char) {
    c == ' ' || '\t' <= c <= '\r'
  }

  predicate AllSpace(s: string) {
    forall i :: 0 <= i < |s| ==> IsSpace(s[i])
  }

  /** Nothing to trim. */
  predicate Trimmed(s: string) {
    s != "" ==> !IsSpace(s[0]) && !IsSpace(s[|s| - 1])
  }

  function TrimLeft(s: string): string {
    if s != "" && IsSpace(s[0]) then TrimLeft(s[1..]) else s
  }

  function TrimRight(s: string): string {
    if s != "" && IsSpace(s[|s| - 1]) then TrimRight(s[..|s| - 1]) else s
  }

  /** boost::trim */
  function Trim(s: string): string {
    TrimLeft(TrimRight(s))
  }

  lemma {:induction false} TrimLeftSpace(p: string, s: string)
    requires AllSpace(p)
    ensures TrimLeft(p + s) == TrimLeft(s)
  {
    if p == "" {
      assert p + s == s;
    } else {
      assert (p + s)[1..] == p[1..] + s;
      TrimLeftSpace(p[1..], s);
    }
  }

  lemma {:induction false} TrimRightSpace(s: string, q: string)
    requires AllSpace(q)
    ensures TrimRight(s + q) == TrimRight(s)
  {
    if q == "" {
      assert s + q == s;
    } else {
      assert (s + q)[..|s + q| - 1] == s + q[..|q| - 1];
      TrimRightSpace(s, q[..|q| - 1]);
    }
  }

  /** Trimming removes exactly the white space around a trimmed text. */
  lemma TrimPadded(p: string, s: string, q: string)
    requires AllSpace(p) && AllSpace(q) && Trimmed(s) && s != ""
    ensures Trim(p + s + q) == s
  {
    TrimRightSpace(p + s, q);
    TrimLeftSpace(p, s);
  }

  lemma TrimOfTrimmed(s: string)
    requires Trimmed(s)
    ensures Trim(s) == s
  {
  }

  lemma {:induction false} TrimLeftDone(s: string)
    ensures TrimLeft(s) != "" ==> !IsSpace(TrimLeft(s)[0])
    ensures |TrimLeft(s)| <= |s| && TrimLeft(s) == s[|s| - |TrimLeft(s)|..]
  {
    if s != "" && IsSpace(s[0]) { TrimLeftDone(s[1..]); }
  }

  lemma {:induction false} TrimRightDone(s: string)
    ensures TrimRight(s) != "" ==> !IsSpace(TrimRight(s)[|TrimRight(s)| - 1])
  {
    if s != "" && IsSpace(s[|s| - 1]) { TrimRightDone(s[..|s| - 1]); }
  }

  lemma TrimIsTrimmed(s: string)
    ensures Trimmed(Trim(s))
  {
    TrimRightDone(s);
    TrimLeftDone(TrimRight(s));
  }

  /** The index of the first character in `d`, or the length. */
  function Find(s: string, d: set<char>): (i: nat)
    ensures i <= |s| && (i < |s| ==> s[i] in d) && forall k :: 0 <= k < i ==> s[k] !in d
  {
    if s == "" || s[0] in d then 0 else 1 + Find(s[1..], d)
  }

  /** The number of leading characters in `d`. */
  function Span(s: string, d: set<char>): (i: nat)
    ensures i <= |s| && (i < |s| ==> s[i] !in d) && forall k :: 0 <= k < i ==> s[k] in d
  {
    if s != "" && s[0] in d then 1 + Span(s[1..], d) else 0
  }

  /** boost::split with token_compress_on: adjacent delimiters count as one, and a leading or trailing
      delimiter leaves an empty token. */
  function Split(s: string, d: set<char>): (r: seq<string>)
    ensures |r| >= 1
    decreases |s|
  {
    var i := Find(s, d);
    if i == |s| then [s] else [s[..i]] + Split(s[i + Span(s[i..], d)..], d)
  }

  /** The default delimiters of split_and_trim in the simple shell and the HTTP server. */
  const BLANKS: set<char> := {'\t', '\n', ' '}

  predicate Free(s: string, d: set<char>) {
    forall i :: 0 <= i < |s| ==> s[i] !in d
  }

  lemma {:induction false} FindAfter(a: string, b: string, d: set<char>)
    requires Free(a, d)
    ensures Find(a + b, d) == |a| + Find(b, d)
  {
    if a == "" {
      assert a + b == b;
    } else {
      assert (a + b)[1..] == a[1..] + b;
      FindAfter(a[1..], b, d);
    }
  }

  /** A single delimiter between two texts splits them. */
  lemma SplitAt(a: string, c: char, b: string, d: set<char>)
    requires Free(a, d) && c in d && (b == "" || b[0] !in d)
    ensures Split(a + [c] + b, d) == [a] + Split(b, d)
  {
    var s := a + [c] + b;
    assert s == a + ([c] + b);
    FindAfter(a, [c] + b, d);
    assert s[|a|..] == [c] + b;
    assert ([c] + b)[1..] == b;
    assert Span([c] + b, d) == 1;
    assert s[|a| + 1..] == b && s[..|a|] == a;
  }

  lemma SplitFree(s: string, d: set<char>)
    requires Free(s, d)
    ensures Split(s, d) == [s]
  {
    assert s + "" == s;
    FindAfter(s, "", d);
  }

  lemma {:induction false} FindWithin(a: string, b: string, d: set<char>)
    requires Find(a, d) < |a|
    ensures Find(a + b, d) == Find(a, d)
  {
    if a[0] !in d {
      assert (a + b)[1..] == a[1..] + b;
      FindWithin(a[1..], b, d);
    }
  }

  lemma {:induction false} SpanWithin(a: string, b: string, d: set<char>)
    requires Span(a, d) < |a|
    ensures Span(a + b, d) == Span(a, d)
  {
    if a[0] in d {
      assert (a + b)[1..] == a[1..] + b;
      SpanWithin(a[1..], b, d);
    }
  }

  lemma Cut(a: string, c: char, b: string, i: nat)
    requires i <= |a|
    ensures (a + [c] + b)[i..] == a[i..] + [c] + b
    ensures a + [c] + b == a + ([c] + b) && a[i..] + [c] + b == a[i..] + ([c] + b)
    ensures (a + [c] + b)[..i] == a[..i]
  {
  }

  lemma SplitStep(s: string, d: set<char>, i: nat, n: nat)
    requires i == Find(s, d) < |s| && n == Span(s[i..], d)
    ensures Split(s, d) == [s[..i]] + Split(s[i + n..], d)
  {
  }

  /** A delimiter between two texts without delimiters at that point splits what the texts split into. */
  lemma {:induction false} SplitBetween(a: string, c: char, b: string, d: set<char>)
    requires c in d && a != "" && a[|a| - 1] !in d && b != "" && b[0] !in d
    ensures Split(a + [c] + b, d) == Split(a, d) + Split(b, d)
    decreases |a|
  {
    var i := Find(a, d);
    if i == |a| {
      SplitAt(a, c, b, d);
    } else {
      var n := Span(a[i..], d);
      assert a[i..][|a| - i - 1] == a[|a| - 1];
      Cut(a, c, b, 0);
      Cut(a, c, b, i);
      Cut(a, c, b, i + n);
      FindWithin(a, [c] + b, d);
      SpanWithin(a[i..], [c] + b, d);
      assert a[i + n..][|a| - i - n - 1] == a[|a| - 1];
      SplitBetween(a[i + n..], c, b, d);
      SplitStep(a + [c] + b, d, i, n);
      SplitStep(a, d, i, n);
      Seqs.Assoc([a[..i]], Split(a[i + n..], d), Split(b, d));
    }
  }

  function TrimAll(r: seq<string>): seq<string> {
    if r == [] then [] else [Trim(r[0])] + TrimAll(r[1..])
  }

  lemma {:induction false} TrimAllAt(r: seq<string>)
    ensures |TrimAll(r)| == |r| && forall i :: 0 <= i < |r| ==> TrimAll(r)[i] == Trim(r[i])
  {
    if r != [] { TrimAllAt(r[1..]); }
  }

  /** The tokens of a text. */
  function Tokens(s: string, d: set<char>): seq<string> {
    TrimAll(Split(Trim(s), d))
  }

  /** split_and_trim */
  method SplitAndTrim(s: string, d: set<char>) returns (r: seq<string>)
    ensures r == Tokens(s, d)
  {
    var copy := Trim(s);
    r := Split(copy, d);
    ghost var was := r;
    TrimAllAt(was);
    for i := 0 to |r|
      invariant |r| == |was|
      invariant forall k :: 0 <= k < |r| ==> r[k] == if k < i then Trim(was[k]) else was[k]
    {
      r := r[i := Trim(r[i])];
    }
    assert r == TrimAll(was);
  }

  // ---------------------------------------------------------------- decimals

  const INT_MAX: int := 2147483647

  predicate IsDigit(c: char) { '0' <= c <= '9' }

  function Digit(n: nat): (c: char)
    requires n < 10
    ensures IsDigit(c) && c as int - '0' as int == n
  {
    ('0' as int + n) as char
  }

  /** std::to_string of a non-negative number. */
  function Decimal(n: nat): (s: string)
    ensures s != "" && forall i :: 0 <= i < |s| ==> IsDigit(s[i])
  {
    if n < 10 then [Digit(n)] else Decimal(n / 10) + [Digit(n % 10)]
  }

  /** The value of the digits that a text starts with, continuing from `acc`. */
  function Digits(s: string, acc: nat): nat {
    if s != "" && IsDigit(s[0]) then Digits(s[1..], acc * 10 + (s[0] as int - '0' as int)) else acc
  }

  /** stoi: white space, a sign, digits; None when there is no digit or the value does not fit an int. */
  function Stoi(s: string): (r: Option<int>)
    ensures r.Some? ==> -INT_MAX - 1 <= r.value <= INT_MAX
  {
    var t := TrimLeft(s);
    var negative := t != "" && t[0] == '-';
    var u := if t != "" && t[0] in {'-', '+'} then t[1..] else t;
    if u == "" || !IsDigit(u[0]) then None
    else
      var size: int := Digits(u, 0);
      var n := if negative then -size else size;
      if -INT_MAX - 1 <= n <= INT_MAX then Some(n) else None
  }

  lemma {:induction false} DigitsAppend(a: string, b: string, acc: nat)
    requires forall i :: 0 <= i < |a| ==> IsDigit(a[i])
    ensures Digits(a + b, acc) == Digits(b, Digits(a, acc))
  {
    if a == "" {
      assert a + b == b;
    } else {
      assert (a + b)[1..] == a[1..] + b;
      DigitsAppend(a[1..], b, acc * 10 + (a[0] as int - '0' as int));
    }
  }

  lemma {:induction false} DigitsOfDecimal(n: nat)
    ensures Digits(Decimal(n), 0) == n
  {
    if n >= 10 {
      DigitsOfDecimal(n / 10);
      DigitsAppend(Decimal(n / 10), [Digit(n % 10)], 0);
      assert Digits([Digit(n % 10)], n / 10) == n / 10 * 10 + n % 10;
    }
  }

  /** Reading a printed number gives it back, if and only if it fits an int. */
  lemma StoiOfDecimal(n: nat)
    ensures Stoi(Decimal(n)) == if n <= INT_MAX then Some(n) else None
  {
    DigitsOfDecimal(n);
  }
}
