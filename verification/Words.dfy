/** Texts as they are typed: pieces with delimiters between them. The tokens of such a text are the pieces,
    and every text is one in exactly this way. */
module Words {
  import Seqs
  import opened Text

  /** The six characters of white space: the blank, and the tab up to the carriage return. */
  predicate White(c: char) {
    c == ' ' || 9 <= c as int <= 13
  }

  predicate AllWhite(s: string) {
    forall i :: 0 <= i < |s| ==> White(s[i])
  }

  /** A word between delimiters, which trimming leaves alone. */
  predicate Word(s: string, d: set<char>) {
    s != "" && Free(s, d) && !White(s[0]) && !White(s[|s| - 1])
  }

  /** A gap between two pieces. */
  predicate Gap(s: string, d: set<char>) {
    s != "" && forall i :: 0 <= i < |s| ==> s[i] in d
  }

  /** The pieces with the gaps between them. */
  function Spread(pieces: seq<string>, gaps: seq<string>): string
    requires |pieces| == |gaps| + 1
    decreases |gaps|
  {
    if gaps == [] then pieces[0] else pieces[0] + gaps[0] + Spread(pieces[1..], gaps[1..])
  }

  /** Only the first and the last piece may be empty: gaps that meet are one gap. */
  predicate Pieces(pieces: seq<string>, gaps: seq<string>, d: set<char>) {
    && |pieces| == |gaps| + 1
    && (forall i :: 0 <= i < |gaps| ==> Gap(gaps[i], d))
    && (forall i :: 0 <= i < |pieces| ==> Free(pieces[i], d))
    && (forall i :: 0 < i < |gaps| ==> pieces[i] != "")
  }

  lemma SameWhite(c: char)
    ensures White(c) <==> IsSpace(c)
  {
  }

  lemma WhiteIsSpace(s: string)
    ensures AllWhite(s) <==> AllSpace(s)
  {
    forall i | 0 <= i < |s| ensures White(s[i]) <==> IsSpace(s[i]) { SameWhite(s[i]); }
  }

  lemma {:induction false} SpanAfter(gap: string, rest: string, d: set<char>)
    requires forall i :: 0 <= i < |gap| ==> gap[i] in d
    requires rest == "" || rest[0] !in d
    ensures Span(gap + rest, d) == |gap|
  {
    if gap == "" {
      assert gap + rest == rest;
    } else {
      assert (gap + rest)[1..] == gap[1..] + rest;
      SpanAfter(gap[1..], rest, d);
    }
  }

  lemma SplitGap(piece: string, gap: string, rest: string, d: set<char>)
    requires Free(piece, d) && Gap(gap, d) && (rest == "" || rest[0] !in d)
    ensures Split(piece + gap + rest, d) == [piece] + Split(rest, d)
  {
    var s := piece + gap + rest;
    assert s == piece + (gap + rest) && (gap + rest)[0] == gap[0];
    FindAfter(piece, gap + rest, d);
    assert s[|piece|..] == gap + rest;
    SpanAfter(gap, rest, d);
    SplitStep(s, d, |piece|, |gap|);
    assert s[|piece| + |gap|..] == rest && s[..|piece|] == piece;
  }

  lemma SpreadBegins(pieces: seq<string>, gaps: seq<string>, d: set<char>)
    requires Pieces(pieces, gaps, d) && gaps != []
    ensures var rest := Spread(pieces[1..], gaps[1..]); rest == "" || rest[0] !in d
  {
  }

  lemma RestPieces(pieces: seq<string>, gaps: seq<string>, d: set<char>)
    requires Pieces(pieces, gaps, d) && gaps != []
    ensures Pieces(pieces[1..], gaps[1..], d)
  {
  }

  /** Splitting gives the pieces back, whatever the gaps. */
  lemma {:induction false} SplitSpread(pieces: seq<string>, gaps: seq<string>, d: set<char>)
    requires Pieces(pieces, gaps, d)
    ensures Split(Spread(pieces, gaps), d) == pieces
    decreases |gaps|
  {
    if gaps == [] {
      SplitFree(pieces[0], d);
    } else {
      RestPieces(pieces, gaps, d);
      SpreadBegins(pieces, gaps, d);
      SplitGap(pieces[0], gaps[0], Spread(pieces[1..], gaps[1..]), d);
      SplitSpread(pieces[1..], gaps[1..], d);
    }
  }

  lemma CutGap(s: string, i: nat, d: set<char>) returns (gap: string, rest: string)
    requires i == Find(s, d) < |s|
    ensures s == s[..i] + gap + rest && Gap(gap, d) && (rest == "" || rest[0] !in d)
  {
    hide Find, Span;
    var tail := s[i..];
    var n := Span(tail, d);
    assert tail[0] == s[i];
    gap, rest := tail[..n], tail[n..];
    assert s == s[..i] + tail && tail == gap + rest;
    assert rest != "" ==> rest[0] == tail[n];
  }

  /** And every text is pieces with gaps. */
  lemma {:induction false} EverySpread(s: string, d: set<char>) returns (pieces: seq<string>, gaps: seq<string>)
    ensures Pieces(pieces, gaps, d) && Spread(pieces, gaps) == s
    ensures s != "" && s[0] !in d ==> pieces[0] != ""
    decreases |s|
  {
    var i := Find(s, d);
    if i == |s| {
      pieces, gaps := [s], [];
    } else {
      var gap, rest := CutGap(s, i, d);
      var later, laterGaps := EverySpread(rest, d);
      pieces, gaps := [s[..i]] + later, [gap] + laterGaps;
      assert pieces[1..] == later && gaps[1..] == laterGaps;
    }
  }

  // ---------------------------------------------------------------- words

  predicate AllWords(words: seq<string>, d: set<char>) {
    forall i :: 0 <= i < |words| ==> Word(words[i], d)
  }

  /** Words with gaps of these delimiters between them. */
  predicate Typed(words: seq<string>, gaps: seq<string>, d: set<char>) {
    && AllWords(words, d) && |words| == |gaps| + 1
    && forall i :: 0 <= i < |gaps| ==> Gap(gaps[i], d)
  }

  lemma TypedPieces(words: seq<string>, gaps: seq<string>, d: set<char>)
    requires Typed(words, gaps, d)
    ensures Pieces(words, gaps, d)
  {
    forall i | 0 <= i < |words| ensures Free(words[i], d) && words[i] != "" { assert Word(words[i], d); }
  }

  lemma {:induction false} SpreadEnds(words: seq<string>, gaps: seq<string>, d: set<char>)
    requires AllWords(words, d) && |words| == |gaps| + 1
    ensures var s := Spread(words, gaps); s != "" && !White(s[0]) && !White(s[|s| - 1]) && s[0] == words[0][0]
    decreases |gaps|
  {
    assert Word(words[0], d);
    if gaps != [] {
      SpreadEnds(words[1..], gaps[1..], d);
      var rest := Spread(words[1..], gaps[1..]);
      var s := words[0] + gaps[0] + rest;
      assert s[0] == words[0][0] && s[|s| - 1] == rest[|rest| - 1];
    }
  }

  /** Trimming takes exactly the white space off that is around a text. */
  lemma TrimAround(lead: string, s: string, trail: string)
    requires AllWhite(lead) && AllWhite(trail) && s != "" && !White(s[0]) && !White(s[|s| - 1])
    ensures Trim(lead + s + trail) == s
  {
    SameWhite(s[0]);
    SameWhite(s[|s| - 1]);
    WhiteIsSpace(lead);
    WhiteIsSpace(trail);
    TrimPadded(lead, s, trail);
  }

  lemma TrimWords(words: seq<string>, d: set<char>)
    requires AllWords(words, d)
    ensures TrimAll(words) == words
  {
    TrimAllAt(words);
    forall i | 0 <= i < |words| ensures Trim(words[i]) == words[i] {
      var w := words[i];
      assert Word(w, d) && "" + w + "" == w;
      TrimAround("", w, "");
    }
  }

  /** The tokens of typed words are the words, whatever the gaps, and whatever white space is around them. */
  lemma TokensOfWords(lead: string, words: seq<string>, gaps: seq<string>, trail: string, d: set<char>)
    requires Typed(words, gaps, d) && AllWhite(lead) && AllWhite(trail)
    ensures Tokens(lead + Spread(words, gaps) + trail, d) == words
  {
    SpreadEnds(words, gaps, d);
    TrimAround(lead, Spread(words, gaps), trail);
    TypedPieces(words, gaps, d);
    SplitSpread(words, gaps, d);
    TrimWords(words, d);
  }

  // ---------------------------------------------------------------- numbers

  /** Decimals are written with the digits of their tens before the digit of their ones. */
  lemma DecimalDigits(tens: nat, ones: nat)
    requires ones < 10
    ensures Decimal(10 * tens + ones) == (if tens == 0 then "" else Decimal(tens)) + ["0123456789"[ones]]
  {
    var n := 10 * tens + ones;
    assert n / 10 == tens && n % 10 == ones;
    assert Digit(ones) == "0123456789"[ones];
  }

  predicate Figure(c: char) { c in {'0', '1', '2', '3', '4', '5', '6', '7', '8', '9'} }

  /** What may follow the figures of a number. */
  predicate NoFigure(rest: string) {
    rest == "" || !Figure(rest[0])
  }

  lemma TrimLeftWhite(lead: string, s: string)
    requires AllWhite(lead) && (s == "" || !White(s[0]))
    ensures TrimLeft(lead + s) == s
  {
    WhiteIsSpace(lead);
    TrimLeftSpace(lead, s);
    if s != "" { SameWhite(s[0]); }
  }

  lemma {:induction false} ZeroDigits(zeros: string, s: string)
    requires forall i :: 0 <= i < |zeros| ==> zeros[i] == '0'
    ensures Digits(zeros + s, 0) == Digits(s, 0)
  {
    if zeros == "" {
      assert zeros + s == s;
    } else {
      assert (zeros + s)[1..] == zeros[1..] + s;
      ZeroDigits(zeros[1..], s);
    }
  }

  lemma FigureIsDigit(c: char)
    ensures Figure(c) <==> IsDigit(c)
  {
  }

  lemma DigitsOf(zeros: string, n: nat, rest: string)
    requires (forall i :: 0 <= i < |zeros| ==> zeros[i] == '0') && NoFigure(rest)
    ensures var u := zeros + Decimal(n) + rest; Digits(u, 0) == n && u != "" && IsDigit(u[0])
  {
    assert zeros + Decimal(n) + rest == zeros + (Decimal(n) + rest);
    ZeroDigits(zeros, Decimal(n) + rest);
    DigitsAppend(Decimal(n), rest, 0);
    DigitsOfDecimal(n);
    if rest != "" { FigureIsDigit(rest[0]); }
  }

  /** A number as stoi reads it: white space, a sign, zeros, the number, and anything but a figure. */
  lemma StoiOfNumber(lead: string, sign: string, zeros: string, n: nat, rest: string)
    requires AllWhite(lead) && sign in {"", "+", "-"} && (forall i :: 0 <= i < |zeros| ==> zeros[i] == '0')
    requires NoFigure(rest)
    ensures var size: int := n;
      var value := if sign == "-" then -size else size;
      Stoi(lead + (sign + (zeros + Decimal(n) + rest))) ==
        if -2147483648 <= value <= 2147483647 then Some(value) else None
  {
    var u := zeros + Decimal(n) + rest;
    DigitsOf(zeros, n, rest);
    var t := sign + u;
    assert t[0] == if sign == "" then u[0] else sign[0];
    TrimLeftWhite(lead, t);
    assert sign != "" ==> t[1..] == u;
    assert sign == "" ==> t == u;
  }

  /** And without a figure at that place there is no number. */
  lemma StoiOfOther(lead: string, sign: string, rest: string)
    requires AllWhite(lead) && sign in {"", "+", "-"} && NoFigure(rest)
    requires sign == "" && rest != "" ==> !White(rest[0]) && rest[0] !in {'+', '-'}
    ensures Stoi(lead + (sign + rest)) == None
  {
    var t := sign + rest;
    if rest != "" { FigureIsDigit(rest[0]); }
    assert t != "" ==> t[0] == if sign == "" then rest[0] else sign[0];
    TrimLeftWhite(lead, t);
    assert sign != "" ==> t[1..] == rest;
    assert sign == "" ==> t == rest;
  }
}
