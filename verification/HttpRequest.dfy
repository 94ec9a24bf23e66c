/** The HTTP server's request parser: from the text of a request to the map of its parts. */
module HttpRequest {
  import opened Text
  import Words

  /** An exception (a header line that ends with its colon, a request line of fewer than three parts)
      ends the parse. `Undefined`: the last character of an empty first line, or the first character
      of an empty key, is taken. */
  datatype Outcome = Parsed(parts: map<string, string>) | Threw | Undefined

  // ---------------------------------------------------------------- the parser

  /** The lines of a text, given the characters `cur` that the current line has so far. All lines but
      the first begin with the line feed that ended the one before; a text after the last line feed is
      no line. */
  function RawLines(cur: string, s: string): seq<string>
    decreases |s|
  {
    if s == "" then []
    else if s[0] == '\n' then [cur] + RawLines("\n", s[1..])
    else RawLines(cur + [s[0]], s[1..])
  }

  function Chop(line: string): string {
    if line != "" && line[|line| - 1] == '\r' then line[..|line| - 1] else line
  }

  /** map::insert: the first value of a key stays. */
  function Insert(m: map<string, string>, key: string, value: string): map<string, string> {
    if key in m then m else m[key := value]
  }

  function TrimFront(s: string, d: set<char>): string {
    if s != "" && s[0] in d then TrimFront(s[1..], d) else s
  }

  function TrimBack(s: string, d: set<char>): string {
    if s != "" && s[|s| - 1] in d then TrimBack(s[..|s| - 1], d) else s
  }

  const BREAKS: set<char> := {'\n', '\r'}

  /** The parts of a request line. */
  function RequestParts(m: map<string, string>, verb: string, uri: string, version: string): map<string, string> {
    var k := Find(uri, {'?'});
    var m1 := Insert(m, "REQUEST_METHOD", verb);
    var m2 := Insert(m1, "REQUEST_URI", uri);
    var m3 := Insert(m2, "SERVER_PROTOCOL", version);
    var m4 := Insert(m3, "TARGET", uri[..k]);
    Insert(m4, "QUERY_STRING", if k < |uri| then uri[k + 1..] else "")
  }

  /** One line: a header when it has a colon, else a request line, or nothing. */
  function ReadLine(m: map<string, string>, line: string): Outcome {
    var k := Find(line, {':'});
    if k < |line| then
      if |line| - k < 2 then Threw
      else if k == 0 then Undefined
      else Parsed(Insert(m, if line[0] == '\n' then line[1..k] else line[..k], line[k + 2..]))
    else
      var text := TrimFront(TrimBack(line, BREAKS), BREAKS);
      if text == "" then Parsed(m)
      else
        var t := Tokens(text, BLANKS);
        if |t| < 3 then Threw else Parsed(RequestParts(m, t[0], t[1], t[2]))
  }

  function ReadLines(m: map<string, string>, lines: seq<string>): Outcome
    decreases |lines|
  {
    if lines == [] then Parsed(m)
    else
      match ReadLine(m, Chop(lines[0]))
      case Parsed(m') => ReadLines(m', lines[1..])
      case r => r
  }

  function WithHost(m: map<string, string>): map<string, string> {
    if "Host" in m then Insert(m, "HTTP_HOST", m["Host"]) else m
  }

  function Parse(request: string): Outcome {
    var lines := RawLines("", request);
    if lines != [] && lines[0] == "" then Undefined
    else
      match ReadLines(map[], lines)
      case Parsed(m) => Parsed(WithHost(m))
      case r => r
  }

  /** The first loop: `lhs` stays on the line feed that it stops at. */
  method SplitLines(request: string) returns (lines: seq<string>)
    ensures lines == RawLines("", request)
  {
    var lhs, rhs := 0, 0;
    lines := [];
    while rhs < |request|
      invariant lhs <= rhs <= |request|
      invariant RawLines("", request) == lines + RawLines(request[lhs..rhs], request[rhs..])
    {
      assert request[rhs..][1..] == request[rhs + 1..];
      if request[rhs] == '\n' {
        lines := lines + [request[lhs..rhs]];
        lhs := rhs;
        assert request[lhs..rhs + 1] == "\n";
      } else {
        assert request[lhs..rhs] + [request[rhs]] == request[lhs..rhs + 1];
      }
      rhs := rhs + 1;
    }
  }

  /** parse_http_request */
  method ParseHttpRequest(request: string) returns (r: Outcome)
    ensures r == Parse(request)
  {
    var lines := SplitLines(request);
    if lines != [] && lines[0] == "" {
      return Undefined;
    }
    var parser: map<string, string> := map[];
    var n := 0;
    while n < |lines|
      invariant n <= |lines| && ReadLines(map[], lines) == ReadLines(parser, lines[n..])
    {
      assert lines[n..][1..] == lines[n + 1..];
      r := ReadLine(parser, Chop(lines[n]));
      if !r.Parsed? {
        return;
      }
      parser := r.parts;
      n := n + 1;
    }
    r := Parsed(WithHost(parser));
  }

  // ---------------------------------------------------------------- a printer (RFC 7230, section 3)

  datatype Header = Header(name: string, value: string)

  /** A part of a request line. */
  predicate Token(s: string) {
    s != "" && forall i :: 0 <= i < |s| ==> !Words.White(s[i])
  }

  predicate Word(s: string) {
    Token(s) && ':' !in s
  }

  /** Section 3.2: a field name has neither blanks nor colons. */
  predicate PlainHeader(h: Header) {
    Word(h.name) && '\n' !in h.value
  }

  predicate PlainHeaders(headers: seq<Header>) {
    forall i :: 0 <= i < |headers| ==> PlainHeader(headers[i])
  }

  /** Section 3.1.1: method, target and version, with single spaces. */
  function RequestLine(verb: string, uri: string, version: string): string {
    verb + " " + uri + " " + version
  }

  function HeaderLine(h: Header): string {
    h.name + ": " + h.value
  }

  function HeaderTexts(headers: seq<Header>): (texts: seq<string>)
    ensures |texts| == |headers|
  {
    if headers == [] then [] else [HeaderLine(headers[0])] + HeaderTexts(headers[1..])
  }

  /** Sections 3 and 3.2: the request line, header lines, an empty line, and the lines of a body. */
  function RequestTexts(verb: string, uri: string, version: string, headers: seq<Header>, body: seq<string>)
    : (texts: seq<string>)
    ensures |texts| == |headers| + |body| + 2
  {
    [RequestLine(verb, uri, version)] + (HeaderTexts(headers) + ([""] + body))
  }

  /** Section 3.5: a line ends with a line feed, and perhaps a carriage return before it. */
  function Ended(text: string, crlf: bool): string {
    text + (if crlf then "\r\n" else "\n")
  }

  function Print(texts: seq<string>, ends: seq<bool>): string
    requires |ends| == |texts|
  {
    if texts == [] then "" else Ended(texts[0], ends[0]) + Print(texts[1..], ends[1..])
  }

  /** A text that such a line can hold. */
  predicate PlainLine(text: string, crlf: bool) {
    '\n' !in text && (crlf || text == "" || text[|text| - 1] != '\r')
  }

  predicate PlainLines(texts: seq<string>, ends: seq<bool>) {
    |ends| == |texts| && forall i :: 0 <= i < |texts| ==> PlainLine(texts[i], ends[i])
  }

  // ---------------------------------------------------------------- lines with either end

  lemma {:induction false} LineRead(cur: string, a: string, rest: string)
    requires '\n' !in a
    ensures RawLines(cur, a + "\n" + rest) == [cur + a] + RawLines("\n", rest)
    decreases |a|
  {
    var s := a + "\n" + rest;
    if a == "" {
      assert s[1..] == rest && cur + a == cur;
    } else {
      assert s[1..] == a[1..] + "\n" + rest && cur + a == cur + [a[0]] + a[1..];
      LineRead(cur + [a[0]], a[1..], rest);
    }
  }

  lemma {:induction false} NoLine(cur: string, tail: string)
    requires '\n' !in tail
    ensures RawLines(cur, tail) == []
    decreases |tail|
  {
    if tail != "" { NoLine(cur + [tail[0]], tail[1..]); }
  }

  /** A printed line is read, and its carriage return, if it has one, is gone. */
  lemma EndedRead(cur: string, text: string, crlf: bool, rest: string)
    requires PlainLine(text, crlf) && (cur == "" || cur == "\n")
    ensures var lines := RawLines(cur, Ended(text, crlf) + rest);
      lines != [] && Chop(lines[0]) == cur + text && lines[1..] == RawLines("\n", rest)
      && (lines[0] == "" <==> cur + text == "" && !crlf)
  {
    var a := text + (if crlf then "\r" else "");
    assert Ended(text, crlf) + rest == a + "\n" + rest;
    LineRead(cur, a, rest);
    var line := cur + a;
    if crlf {
      assert line[|line| - 1] == '\r' && line[..|line| - 1] == cur + text;
    } else {
      assert line == cur + text;
      assert text != "" ==> line[|line| - 1] == text[|text| - 1];
    }
  }

  /** The lines in turn, as they were printed. */
  function ReadTexts(m: map<string, string>, texts: seq<string>): Outcome
    decreases |texts|
  {
    if texts == [] then Parsed(m)
    else
      match ReadLine(m, "\n" + texts[0])
      case Parsed(m') => ReadTexts(m', texts[1..])
      case r => r
  }

  /** Whatever their ends, and whatever comes after the last line feed. */
  lemma {:induction false} TextsRead(m: map<string, string>, texts: seq<string>, ends: seq<bool>, tail: string)
    requires PlainLines(texts, ends) && '\n' !in tail
    ensures ReadLines(m, RawLines("\n", Print(texts, ends) + tail)) == ReadTexts(m, texts)
    decreases |texts|
  {
    hide ReadLine, Chop, RawLines;
    if texts == [] {
      NoLine("\n", tail);
      assert "" + tail == tail;
    } else {
      var rest := Print(texts[1..], ends[1..]);
      assert Print(texts, ends) + tail == Ended(texts[0], ends[0]) + (rest + tail);
      assert PlainLine(texts[0], ends[0]);
      EndedRead("\n", texts[0], ends[0], rest + tail);
      var r := ReadLine(m, "\n" + texts[0]);
      if r.Parsed? {
        assert PlainLines(texts[1..], ends[1..]);
        TextsRead(r.parts, texts[1..], ends[1..], tail);
      }
    }
  }

  /** A first line, and the lines after it. */
  function ReadAll(texts: seq<string>): Outcome
    requires texts != []
  {
    match ReadLine(map[], texts[0])
    case Parsed(m) =>
      (match ReadTexts(m, texts[1..])
       case Parsed(m') => Parsed(WithHost(m'))
       case r => r)
    case r => r
  }

  lemma ParseTexts(texts: seq<string>, ends: seq<bool>, tail: string)
    requires PlainLines(texts, ends) && '\n' !in tail && texts != [] && texts[0] != ""
    ensures Parse(Print(texts, ends) + tail) == ReadAll(texts)
  {
    hide ReadLine, Chop, RawLines;
    var rest := Print(texts[1..], ends[1..]);
    assert Print(texts, ends) + tail == Ended(texts[0], ends[0]) + (rest + tail);
    assert PlainLine(texts[0], ends[0]) && "" + texts[0] == texts[0];
    EndedRead("", texts[0], ends[0], rest + tail);
    var r := ReadLine(map[], texts[0]);
    if r.Parsed? {
      assert PlainLines(texts[1..], ends[1..]);
      TextsRead(r.parts, texts[1..], ends[1..], tail);
    }
  }

  /** Section 3.5: a recipient may take a single line feed for the end of a line. Here the ends make no
      difference at all: the same lines, with whatever mixture of ends, are parsed to the same parts. */
  lemma EndsIgnored(texts: seq<string>, ends: seq<bool>, tail: string, other: seq<bool>, otherTail: string)
    requires PlainLines(texts, ends) && PlainLines(texts, other) && '\n' !in tail && '\n' !in otherTail
    requires texts != [] && texts[0] != ""
    ensures Parse(Print(texts, ends) + tail) == Parse(Print(texts, other) + otherTail)
  {
    ParseTexts(texts, ends, tail);
    ParseTexts(texts, other, otherTail);
  }

  // ---------------------------------------------------------------- the round trip

  function InsertAll(m: map<string, string>, headers: seq<Header>): map<string, string>
    decreases |headers|
  {
    if headers == [] then m else InsertAll(Insert(m, headers[0].name, headers[0].value), headers[1..])
  }

  lemma FieldCut(name: string, rest: string)
    requires rest != ""
    ensures var line := ("\n" + name) + (":" + rest);
      line[0] == '\n' && line[1..|name| + 1] == name && line[|name| + 3..] == rest[1..]
  {
  }

  /** The line `name:rest`, which begins with the line feed of the line before. */
  lemma FieldRead(m: map<string, string>, name: string, rest: string)
    requires name != "" && Free(name, {':', '\n'}) && rest != ""
    ensures ReadLine(m, ("\n" + name) + (":" + rest)) == Parsed(Insert(m, name, rest[1..]))
  {
    var line := ("\n" + name) + (":" + rest);
    FindAfter("\n" + name, ":" + rest, {':'});
    FieldCut(name, rest);
    assert Find(line, {':'}) == |name| + 1;
  }

  lemma FieldText(name: string, value: string)
    ensures "\n" + (name + ": " + value) == ("\n" + name) + (":" + (" " + value))
    ensures (" " + value)[1..] == value
  {
  }

  lemma NameFree(name: string)
    requires Word(name)
    ensures name != "" && Free(name, {':', '\n'})
  {
  }

  lemma HeaderRead(m: map<string, string>, h: Header)
    requires PlainHeader(h)
    ensures ReadLine(m, "\n" + HeaderLine(h)) == Parsed(Insert(m, h.name, h.value))
  {
    NameFree(h.name);
    FieldRead(m, h.name, " " + h.value);
    FieldText(h.name, h.value);
  }

  lemma BlankLine(m: map<string, string>)
    ensures ReadLine(m, "\n") == Parsed(m)
  {
    assert TrimBack("\n", BREAKS) == TrimBack("", BREAKS);
  }

  lemma {:induction false} TextsAppend(m: map<string, string>, a: seq<string>, b: seq<string>)
    ensures ReadTexts(m, a + b) ==
      if ReadTexts(m, a).Parsed? then ReadTexts(ReadTexts(m, a).parts, b) else ReadTexts(m, a)
    decreases |a|
  {
    hide ReadLine;
    if a == [] {
      assert a + b == b;
    } else {
      assert (a + b)[0] == a[0] && (a + b)[1..] == a[1..] + b;
      var r := ReadLine(m, "\n" + a[0]);
      if r.Parsed? { TextsAppend(r.parts, a[1..], b); }
    }
  }

  /** The headers are inserted in turn. */
  lemma {:induction false} HeadersRead(m: map<string, string>, headers: seq<Header>)
    requires PlainHeaders(headers)
    ensures ReadTexts(m, HeaderTexts(headers)) == Parsed(InsertAll(m, headers))
    decreases |headers|
  {
    hide ReadLine;
    if headers != [] {
      var h := headers[0];
      HeaderRead(m, h);
      HeadersRead(Insert(m, h.name, h.value), headers[1..]);
    }
  }

  lemma WordFree(s: string)
    requires Word(s)
    ensures Free(s, BLANKS) && s[0] !in BLANKS && Trimmed(s) && Free(s, {':', '\n'})
  {
  }

  lemma TwoWords(uri: string, version: string)
    requires Word(uri) && Word(version)
    ensures Split(uri + [' '] + version, BLANKS) == [uri] + [version]
  {
    WordFree(uri);
    WordFree(version);
    SplitAt(uri, ' ', version, BLANKS);
    SplitFree(version, BLANKS);
  }

  lemma FirstWord(verb: string, rest: string)
    requires Word(verb) && rest != "" && rest[0] !in BLANKS
    ensures Split(verb + [' '] + rest, BLANKS) == [verb] + Split(rest, BLANKS)
  {
    WordFree(verb);
    SplitAt(verb, ' ', rest, BLANKS);
  }

  lemma BeginsWithWord(uri: string, rest: string)
    requires Word(uri)
    ensures uri + rest != "" && (uri + rest)[0] !in BLANKS
  {
    WordFree(uri);
  }

  lemma Grouped(a: string, b: string, c: string)
    ensures RequestLine(a, b, c) == a + [' '] + (b + [' '] + c)
  {
  }

  lemma WordSplit(verb: string, uri: string, version: string)
    requires Word(verb) && Word(uri) && Word(version)
    ensures Split(RequestLine(verb, uri, version), BLANKS) == [verb] + ([uri] + [version])
  {
    Grouped(verb, uri, version);
    BeginsWithWord(uri, [' '] + version);
    assert uri + ([' '] + version) == uri + [' '] + version;
    FirstWord(verb, uri + [' '] + version);
    TwoWords(uri, version);
  }

  lemma TrimmedAll(t: seq<string>)
    requires forall i :: 0 <= i < |t| ==> Trimmed(t[i])
    ensures TrimAll(t) == t
  {
    TrimAllAt(t);
    forall i | 0 <= i < |t| ensures Trim(t[i]) == t[i] { TrimOfTrimmed(t[i]); }
  }

  lemma WordTokens(verb: string, uri: string, version: string)
    requires Word(verb) && Word(uri) && Word(version)
    ensures Tokens(RequestLine(verb, uri, version), BLANKS) == [verb, uri, version]
  {
    var line := RequestLine(verb, uri, version);
    assert line[0] == verb[0] && line[|line| - 1] == version[|version| - 1];
    TrimOfTrimmed(line);
    WordSplit(verb, uri, version);
    assert [verb] + ([uri] + [version]) == [verb, uri, version];
    TrimmedAll([verb, uri, version]);
  }

  lemma {:induction false} FindNone(s: string, d: set<char>)
    requires Free(s, d)
    ensures Find(s, d) == |s|
  {
    if s != "" { FindNone(s[1..], d); }
  }

  lemma LineEnds(verb: string, uri: string, version: string)
    requires Word(verb) && Word(uri) && Word(version)
    ensures Free(RequestLine(verb, uri, version), {':', '\n'})
    ensures var line := RequestLine(verb, uri, version);
      line != "" && line[0] !in BREAKS && line[|line| - 1] !in BREAKS
  {
    var line := RequestLine(verb, uri, version);
    assert line[0] == verb[0] && line[|line| - 1] == version[|version| - 1];
  }

  lemma RequestLineRead(verb: string, uri: string, version: string)
    requires Word(verb) && Word(uri) && Word(version)
    ensures ReadLine(map[], RequestLine(verb, uri, version)) == Parsed(RequestParts(map[], verb, uri, version))
  {
    var line := RequestLine(verb, uri, version);
    LineEnds(verb, uri, version);
    FindNone(line, {':'});
    WordTokens(verb, uri, version);
    assert TrimBack(line, BREAKS) == line && TrimFront(line, BREAKS) == line;
  }

  lemma TokenLine(verb: string, uri: string, version: string)
    requires Token(verb) && Token(uri) && Token(version)
    ensures var line := RequestLine(verb, uri, version);
      line != "" && '\n' !in line && (':' !in line <==> Word(verb) && Word(uri) && Word(version))
  {
  }

  /** A request line, the headers and a body, read one after the other. */
  function ReadParts(first: Outcome, headers: seq<Header>, body: seq<string>): Outcome {
    match first
    case Parsed(m) =>
      (match ReadTexts(InsertAll(m, headers), body)
       case Parsed(m') => Parsed(WithHost(m'))
       case r => r)
    case r => r
  }

  lemma RestRead(m: map<string, string>, headers: seq<Header>, body: seq<string>)
    requires PlainHeaders(headers)
    ensures ReadTexts(m, HeaderTexts(headers) + ([""] + body)) == ReadTexts(InsertAll(m, headers), body)
  {
    hide ReadLine;
    HeadersRead(m, headers);
    TextsAppend(m, HeaderTexts(headers), [""] + body);
    var m' := InsertAll(m, headers);
    TextsAppend(m', [""], body);
    BlankLine(m');
    assert "\n" + "" == "\n" && [""][1..] == [];
  }

  /** Parsing a printed request, with any ends of its lines: the request line, the headers in turn, the
      lines of the body in the same way, and then the host. */
  lemma ParsePrintedParts(verb: string, uri: string, version: string, headers: seq<Header>, body: seq<string>,
                          ends: seq<bool>, tail: string)
    requires Token(verb) && Token(uri) && Token(version) && PlainHeaders(headers)
    requires PlainLines(RequestTexts(verb, uri, version, headers, body), ends) && '\n' !in tail
    ensures Parse(Print(RequestTexts(verb, uri, version, headers, body), ends) + tail) ==
            ReadParts(ReadLine(map[], RequestLine(verb, uri, version)), headers, body)
  {
    hide ReadLine, Parse, Print, RequestLine, HeaderTexts, PlainLines;
    var line := RequestLine(verb, uri, version);
    var texts := RequestTexts(verb, uri, version, headers, body);
    TokenLine(verb, uri, version);
    ParseTexts(texts, ends, tail);
    assert texts[1..] == HeaderTexts(headers) + ([""] + body);
    var r := ReadLine(map[], line);
    if r.Parsed? { RestRead(r.parts, headers, body); }
  }

  // ---------------------------------------------------------------- blanks around a header's value

  predicate Blank(c: char) { c == ' ' || c == '\t' }

  predicate AllBlank(s: string) {
    forall i :: 0 <= i < |s| ==> Blank(s[i])
  }

  lemma OneDropped(before: string, v: string, after: string)
    requires AllBlank(before) && AllBlank(after) && v != "" && !Blank(v[0]) && !Blank(v[|v| - 1])
    ensures (before + v + after)[1..] == v <==> |before| == 1 && after == ""
  {
    var rest := before + v + after;
    assert after != "" ==> rest[|rest| - 1] == after[|after| - 1];
    assert |before| == 1 && after == "" ==> rest[1..] == v;
  }

  /** Section 3.2 allows any blanks around a field value v. The parser drops one character after the
      colon, whatever it is: it finds v exactly when a single blank comes before v and none after it.
      Without any character after the colon it throws. */
  lemma OneBlankBefore(m: map<string, string>, name: string, before: string, v: string, after: string)
    requires PlainHeader(Header(name, v)) && name !in m && AllBlank(before) && AllBlank(after)
    requires v != "" && !Blank(v[0]) && !Blank(v[|v| - 1])
    ensures ReadLine(m, "\n" + name + ":" + (before + v + after)) == Parsed(m[name := v]) <==>
      |before| == 1 && after == ""
  {
    var rest := before + v + after;
    assert "\n" + name + ":" + rest == ("\n" + name) + (":" + rest);
    NameFree(name);
    FieldRead(m, name, rest);
    var m' := m[name := rest[1..]];
    assert m'[name] == rest[1..] && m[name := v][name] == v;
    OneDropped(before, v, after);
  }
}
