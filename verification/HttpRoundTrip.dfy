/** Which requests the parser reads back as they were printed. */
module HttpRoundTrip {
  import opened HttpRequest
  import opened Text
  import Words

  const RESERVED := {"REQUEST_METHOD", "REQUEST_URI", "SERVER_PROTOCOL", "TARGET", "QUERY_STRING"}

  predicate DistinctNames(headers: seq<Header>) {
    forall i, j :: 0 <= i < j < |headers| ==> headers[i].name != headers[j].name
  }

  function Names(headers: seq<Header>): set<string> {
    set h | h in headers :: h.name
  }

  lemma NamesSplit(h: Header, rest: seq<Header>)
    ensures Names([h] + rest) == {h.name} + Names(rest)
  {
    assert forall g :: g in [h] + rest <==> g == h || g in rest;
  }

  /** Nothing but the headers' names is added, and what was there stays. */
  lemma {:induction false} InsertedKeys(m: map<string, string>, headers: seq<Header>)
    ensures InsertAll(m, headers).Keys == m.Keys + Names(headers)
    ensures forall k :: k in m ==> InsertAll(m, headers)[k] == m[k]
    decreases |headers|
  {
    if headers != [] {
      NamesSplit(headers[0], headers[1..]);
      assert headers == [headers[0]] + headers[1..];
      InsertedKeys(Insert(m, headers[0].name, headers[0].value), headers[1..]);
    }
  }

  /** The value of a new name is kept. */
  lemma {:induction false} InsertedValue(m: map<string, string>, headers: seq<Header>, i: nat)
    requires DistinctNames(headers) && i < |headers| && headers[i].name !in m
    ensures headers[i].name in InsertAll(m, headers) && InsertAll(m, headers)[headers[i].name] == headers[i].value
    decreases |headers|
  {
    var m' := Insert(m, headers[0].name, headers[0].value);
    if i == 0 {
      InsertedKeys(m', headers[1..]);
    } else {
      InsertedValue(m', headers[1..], i - 1);
    }
  }

  /** The parts of the request line; path and query split the target at its first question mark. */
  ghost predicate LineFaithful(m: map<string, string>, verb: string, uri: string, version: string) {
    && RESERVED <= m.Keys
    && m["REQUEST_METHOD"] == verb && m["REQUEST_URI"] == uri && m["SERVER_PROTOCOL"] == version
    && Free(m["TARGET"], {'?'})
    && uri == m["TARGET"] + (if '?' in uri then "?" + m["QUERY_STRING"] else "")
    && ('?' !in uri ==> m["QUERY_STRING"] == "")
  }

  ghost predicate HeadersFaithful(m: map<string, string>, headers: seq<Header>) {
    && m.Keys == RESERVED + Names(headers) + (if "Host" in Names(headers) then {"HTTP_HOST"} else {})
    && (forall h :: h in headers ==> h.name in m && m[h.name] == h.value)
    && ("Host" in Names(headers) ==> m["HTTP_HOST"] == m["Host"])
  }

  lemma Rejoined(s: string, k: nat)
    requires k < |s|
    ensures s == s[..k] + ([s[k]] + s[k + 1..])
  {
  }

  lemma TargetSplit(uri: string)
    ensures var k := Find(uri, {'?'});
      if k == |uri| then '?' !in uri && uri[..k] == uri else '?' in uri && uri == uri[..k] + ("?" + uri[k + 1..])
  {
    var k := Find(uri, {'?'});
    if k < |uri| {
      assert uri[k] == '?';
      Rejoined(uri, k);
    }
  }

  /** Five distinct keys: no insertion finds its key taken. */
  lemma FiveInserts(a: string, b: string, c: string, d: string, e: string, v: string, w: string, x: string, y: string,
                    z: string)
    requires a != b && a != c && a != d && a != e && b != c && b != d && b != e && c != d && c != e && d != e
    ensures var m := Insert(Insert(Insert(Insert(Insert(map[], a, v), b, w), c, x), d, y), e, z);
      m.Keys == {a, b, c, d, e} && m[a] == v && m[b] == w && m[c] == x && m[d] == y && m[e] == z
  {
  }

  lemma LineParts(verb: string, uri: string, version: string)
    ensures RequestParts(map[], verb, uri, version).Keys == RESERVED
    ensures LineFaithful(RequestParts(map[], verb, uri, version), verb, uri, version)
  {
    var k := Find(uri, {'?'});
    TargetSplit(uri);
    assert |"REQUEST_METHOD"| == 14 && |"REQUEST_URI"| == 11 && |"SERVER_PROTOCOL"| == 15 && |"TARGET"| == 6
      && |"QUERY_STRING"| == 12;
    FiveInserts("REQUEST_METHOD", "REQUEST_URI", "SERVER_PROTOCOL", "TARGET", "QUERY_STRING",
      verb, uri, version, uri[..k], if k < |uri| then uri[k + 1..] else "");
  }

  lemma LineStays(m: map<string, string>, m': map<string, string>, verb: string, uri: string, version: string)
    requires LineFaithful(m, verb, uri, version) && forall k :: k in m ==> k in m' && m'[k] == m[k]
    ensures LineFaithful(m', verb, uri, version)
  {
  }

  // ---------------------------------------------------------------- nothing that was read is lost

  lemma ReadLineGrows(m: map<string, string>, line: string)
    requires ReadLine(m, line).Parsed?
    ensures forall k :: k in m ==> k in ReadLine(m, line).parts && ReadLine(m, line).parts[k] == m[k]
  {
    hide Find, Tokens, TrimFront, TrimBack;
  }

  lemma {:induction false} ReadTextsGrow(m: map<string, string>, texts: seq<string>)
    requires ReadTexts(m, texts).Parsed?
    ensures forall k :: k in m ==> k in ReadTexts(m, texts).parts && ReadTexts(m, texts).parts[k] == m[k]
    decreases |texts|
  {
    hide ReadLine;
    if texts != [] {
      ReadLineGrows(m, "\n" + texts[0]);
      ReadTextsGrow(ReadLine(m, "\n" + texts[0]).parts, texts[1..]);
    }
  }

  // ---------------------------------------------------------------- a body of several lines

  /** Nothing is left without the carriage returns. */
  predicate Empty(line: string) {
    forall i :: 0 <= i < |line| ==> line[i] == '\r'
  }

  /** What a line of the body may be, as it is printed, when `known` are the keys so far and `host` is the value
      of the Host header: empty, or three words without a colon; or `key:` and at least one more character,
      with a key that is known already, or HTTP_HOST with the host that it would get in the end. */
  predicate Harmless(line: string, known: set<string>, host: Option<string>) {
    var k := Find(line, {':'});
    if k < |line| then
      k + 1 < |line| && (line[..k] in known || (line[..k] == "HTTP_HOST" && host == Some(line[k + 2..])))
    else
      Empty(line) || |Tokens(line, {'\t', '\n', ' '})| >= 3
  }

  function KeyOf(line: string): set<string> {
    var k := Find(line, {':'});
    if k < |line| then {line[..k]} else {}
  }

  predicate BodyLines(body: seq<string>) {
    forall i :: 0 <= i < |body| ==> '\n' !in body[i]
  }

  predicate AllHarmless(body: seq<string>, known: set<string>, host: Option<string>)
    decreases |body|
  {
    body == []
    || (Harmless(body[0], known, host) && AllHarmless(body[1..], known + KeyOf(body[0]), host))
  }

  // ---------------------------------------------------------------- white space around a line

  lemma {:induction false} SpaceAfter(s: string) returns (trail: string)
    ensures s == TrimRight(s) + trail && AllSpace(trail)
  {
    trail := "";
    if s != "" && IsSpace(s[|s| - 1]) {
      trail := SpaceAfter(s[..|s| - 1]);
      trail := trail + [s[|s| - 1]];
    }
  }

  lemma {:induction false} SpaceBefore(s: string) returns (lead: string)
    ensures s == lead + TrimLeft(s) && AllSpace(lead)
  {
    lead := "";
    if s != "" && IsSpace(s[0]) {
      lead := SpaceBefore(s[1..]);
      lead := [s[0]] + lead;
    }
  }

  /** Every text is one that cannot be trimmed, with white space around it. */
  lemma Core(s: string) returns (lead: string, core: string, trail: string)
    ensures s == lead + core + trail && AllSpace(lead) && AllSpace(trail) && Trimmed(core)
    ensures core == "" ==> trail == ""
  {
    var t := TrimRight(s);
    trail := SpaceAfter(s);
    TrimLeftDone(t);
    core := TrimLeft(t);
    lead := SpaceBefore(t);
    TrimIsTrimmed(s);
    if core == "" {
      lead, trail := lead + core + trail, "";
    }
  }

  lemma TrimSpaced(p: string, core: string, q: string)
    requires AllSpace(p) && AllSpace(q) && Trimmed(core)
    ensures Trim(p + core + q) == core
  {
    if core == "" {
      assert p + core + q == "" + (p + q);
      TrimRightSpace("", p + q);
    } else {
      TrimPadded(p, core, q);
    }
  }

  /** White space around a text makes no difference to what trimming leaves. */
  lemma TrimInner(p: string, s: string, q: string)
    requires AllSpace(p) && AllSpace(q)
    ensures Trim(p + s + q) == Trim(s)
  {
    var lead, core, trail := Core(s);
    TrimSpaced(lead, core, trail);
    assert p + s + q == (p + lead) + core + (trail + q);
    TrimSpaced(p + lead, core, trail + q);
  }

  lemma {:induction false} TrimmedBack(s: string) returns (q: string)
    ensures s == TrimBack(s, BREAKS) + q && forall i :: 0 <= i < |q| ==> q[i] in BREAKS
    ensures var t := TrimBack(s, BREAKS); t != "" ==> t[|t| - 1] !in BREAKS
  {
    q := "";
    if s != "" && s[|s| - 1] in BREAKS {
      q := TrimmedBack(s[..|s| - 1]);
      q := q + [s[|s| - 1]];
    }
  }

  lemma {:induction false} TrimmedFront(s: string) returns (p: string)
    ensures s == p + TrimFront(s, BREAKS) && forall i :: 0 <= i < |p| ==> p[i] in BREAKS
    ensures var t := TrimFront(s, BREAKS); t != "" ==> t[0] !in BREAKS
  {
    p := "";
    if s != "" && s[0] in BREAKS {
      p := TrimmedFront(s[1..]);
      p := [s[0]] + p;
    }
  }

  lemma BreaksAreSpace(q: string)
    requires forall i :: 0 <= i < |q| ==> q[i] in BREAKS
    ensures AllSpace(q)
  {
  }

  lemma OnlyBreaks(line: string, p: string, text: string, q: string)
    requires '\n' !in line && "\n" + line == p + text + q
    requires (forall i :: 0 <= i < |p| ==> p[i] in BREAKS) && (forall i :: 0 <= i < |q| ==> q[i] in BREAKS)
    requires text != "" ==> text[0] !in BREAKS
    ensures text == "" <==> Empty(line)
  {
    var s := p + text + q;
    forall i | 0 <= i < |line| ensures line[i] == s[i + 1] { assert ("\n" + line)[i + 1] == line[i]; }
    if text == "" {
      forall i | 0 <= i < |line| ensures line[i] == '\r' {
        assert s[i + 1] == if i + 1 < |p| then p[i + 1] else q[i + 1 - |p|];
      }
    } else {
      assert s[|p|] == text[0];
      assert s[0] == '\n';
      assert line[|p| - 1] == text[0];
    }
  }

  /** What is left of a line of the body for the words of a request line. */
  lemma LineText(line: string)
    requires '\n' !in line
    ensures var text := TrimFront(TrimBack("\n" + line, BREAKS), BREAKS);
      && (text == "" <==> Empty(line)) && Tokens(text, BLANKS) == Tokens(line, {'\t', '\n', ' '})
  {
    hide Split;
    var q := TrimmedBack("\n" + line);
    var back := TrimBack("\n" + line, BREAKS);
    var p := TrimmedFront(back);
    var text := TrimFront(back, BREAKS);
    BreaksAreSpace(p);
    BreaksAreSpace(q);
    TrimInner(p, text, q);
    TrimInner("\n", line, "");
    assert p + text + q == "\n" + line == "\n" + line + "";
    assert BLANKS == {'\t', '\n', ' '};
    OnlyBreaks(line, p, text, q);
  }

  /** A request line that comes after another one changes nothing. */
  lemma PartsKnown(m: map<string, string>, verb: string, uri: string, version: string)
    requires RESERVED <= m.Keys
    ensures RequestParts(m, verb, uri, version) == m
  {
    assert "REQUEST_METHOD" in RESERVED && "REQUEST_URI" in RESERVED && "SERVER_PROTOCOL" in RESERVED;
    assert "TARGET" in RESERVED && "QUERY_STRING" in RESERVED;
  }

  lemma ColonAt(line: string)
    ensures Find("\n" + line, {':'}) == Find(line, {':'}) + 1
  {
    assert ("\n" + line)[1..] == line;
  }

  lemma ReadKey(m: map<string, string>, line: string, k: nat)
    requires k == Find(line, {':'}) < |line|
    ensures ReadLine(m, "\n" + line) ==
      if k + 1 == |line| then Threw else Parsed(Insert(m, line[..k], line[k + 2..]))
  {
    ColonAt(line);
    var s := "\n" + line;
    assert s[1..k + 1] == line[..k];
    assert k + 1 < |line| ==> s[k + 3..] == line[k + 2..];
  }

  lemma ReadWords(m: map<string, string>, line: string)
    requires '\n' !in line && Find(line, {':'}) == |line| && RESERVED <= m.Keys
    ensures ReadLine(m, "\n" + line) ==
      if Empty(line) || |Tokens(line, {'\t', '\n', ' '})| >= 3 then Parsed(m) else Threw
  {
    hide Tokens, TrimFront, TrimBack, Empty;
    ColonAt(line);
    LineText(line);
    var t := Tokens(line, {'\t', '\n', ' '});
    if |t| >= 3 { PartsKnown(m, t[0], t[1], t[2]); }
  }

  /** What one line of the body does to the map, and when it ends the parse: with nothing after its colon, or
      with one or two words. */
  lemma BodyLineRead(m: map<string, string>, line: string, host: Option<string>)
    requires RESERVED <= m.Keys && '\n' !in line
    ensures Harmless(line, m.Keys, host) ==>
      var r := ReadLine(m, "\n" + line);
      r.Parsed? && r.parts.Keys == m.Keys + KeyOf(line)
      && (r.parts == m || (host.Some? && "HTTP_HOST" !in m && r.parts == m["HTTP_HOST" := host.value]))
    ensures ReadLine(m, "\n" + line).Parsed? && !Harmless(line, m.Keys, host) ==>
      exists key :: key !in m && key in ReadLine(m, "\n" + line).parts
        && (key == "HTTP_HOST" ==> host != Some(ReadLine(m, "\n" + line).parts[key]))
    ensures ReadLine(m, "\n" + line).Parsed? ==> ReadLine(m, "\n" + line).parts.Keys == m.Keys + KeyOf(line)
    ensures ReadLine(m, "\n" + line).Threw? <==>
      if ':' in line then Find(line, {':'}) + 1 == |line|
      else !Empty(line) && |Tokens(line, {'\t', '\n', ' '})| < 3
    ensures !ReadLine(m, "\n" + line).Undefined?
  {
    hide ReadLine, Tokens, Empty;
    var k := Find(line, {':'});
    if k == |line| {
      ReadWords(m, line);
    } else {
      ReadKey(m, line, k);
      assert line[k] == ':';
      if k + 1 < |line| {
        var key, value := line[..k], line[k + 2..];
        assert key !in m ==> key in Insert(m, key, value) && Insert(m, key, value)[key] == value;
      }
    }
  }

  /** A harmless body leaves the map as it is, but for the host that is copied anyway. */
  lemma {:induction false} HarmlessBody(m: map<string, string>, body: seq<string>, host: Option<string>)
    requires RESERVED <= m.Keys && BodyLines(body) && AllHarmless(body, m.Keys, host)
    ensures ReadTexts(m, body).Parsed?
    ensures var m' := ReadTexts(m, body).parts;
      m' == m || (host.Some? && "HTTP_HOST" !in m && m' == m["HTTP_HOST" := host.value])
    decreases |body|
  {
    hide ReadLine, KeyOf, Harmless;
    if body != [] {
      BodyLineRead(m, body[0], host);
      var m' := ReadLine(m, "\n" + body[0]).parts;
      assert BodyLines(body[1..]);
      HarmlessBody(m', body[1..], host);
    }
  }

  /** A body that leaves no new key but the host that is copied anyway is harmless. */
  lemma {:induction false} BodyIsHarmless(m: map<string, string>, body: seq<string>, host: Option<string>)
    requires RESERVED <= m.Keys && BodyLines(body) && ReadTexts(m, body).Parsed?
    requires var last := ReadTexts(m, body).parts;
      forall k :: k in last && k !in m ==> k == "HTTP_HOST" && host == Some(last[k])
    ensures AllHarmless(body, m.Keys, host)
    decreases |body|
  {
    hide ReadLine, KeyOf, Harmless;
    if body != [] {
      BodyLineRead(m, body[0], host);
      var m' := ReadLine(m, "\n" + body[0]).parts;
      assert BodyLines(body[1..]);
      ReadTextsGrow(m', body[1..]);
      BodyIsHarmless(m', body[1..], host);
    }
  }

  // ---------------------------------------------------------------- headers and their host

  /** The value of the Host header. */
  function HostOf(headers: seq<Header>): Option<string> {
    if headers == [] then None
    else if headers[0].name == "Host" then Some(headers[0].value)
    else HostOf(headers[1..])
  }

  lemma {:induction false} HostIs(headers: seq<Header>)
    ensures HostOf(headers).None? <==> "Host" !in Names(headers)
    ensures HostOf(headers).Some? ==> Header("Host", HostOf(headers).value) in headers
  {
    if headers != [] {
      HostIs(headers[1..]);
      NamesSplit(headers[0], headers[1..]);
      assert headers == [headers[0]] + headers[1..];
    }
  }

  /** Headers that are named like a key of the request line repeat its value, and one that is named
      HTTP_HOST repeats the host. */
  predicate Agreeing(verb: string, uri: string, version: string, headers: seq<Header>) {
    var parts := RequestParts(map[], verb, uri, version);
    forall h :: h in headers ==>
      && (h.name in parts ==> h.value == parts[h.name])
      && (h.name == "HTTP_HOST" && HostOf(headers).Some? ==> h.value == HostOf(headers).value)
  }

  lemma ReservedIsNoHost()
    ensures "Host" !in RESERVED && "HTTP_HOST" !in RESERVED && "Host" != "HTTP_HOST"
  {
    assert |"REQUEST_METHOD"| == 14 && |"REQUEST_URI"| == 11 && |"SERVER_PROTOCOL"| == 15 && |"TARGET"| == 6;
    assert |"QUERY_STRING"| == 12 && |"Host"| == 4 && |"HTTP_HOST"| == 9;
  }

  /** The map after the headers: a header has its value exactly when nothing before it had the name. */
  lemma HeaderInserted(m: map<string, string>, headers: seq<Header>, h: Header)
    requires DistinctNames(headers) && h in headers
    ensures h.name in InsertAll(m, headers)
    ensures InsertAll(m, headers)[h.name] == if h.name in m then m[h.name] else h.value
  {
    var i: nat :| i < |headers| && headers[i] == h;
    InsertedKeys(m, headers);
    assert h.name in Names(headers);
    if h.name !in m { InsertedValue(m, headers, i); }
  }

  lemma HostCopied(m: map<string, string>, m': map<string, string>, headers: seq<Header>)
    requires m.Keys == RESERVED + Names(headers) && forall h :: h in headers ==> m[h.name] == h.value
    requires m' == m || (HostOf(headers).Some? && "HTTP_HOST" !in m && m' == m["HTTP_HOST" := HostOf(headers).value])
    requires forall h :: h in headers && h.name == "HTTP_HOST" && HostOf(headers).Some? ==>
      h.value == HostOf(headers).value
    ensures HeadersFaithful(WithHost(m'), headers)
    ensures forall k :: k in m ==> k in WithHost(m') && WithHost(m')[k] == m[k]
  {
    HostIs(headers);
    ReservedIsNoHost();
    if "HTTP_HOST" in m {
      assert "HTTP_HOST" in Names(headers);
      var h :| h in headers && h.name == "HTTP_HOST";
      assert m["HTTP_HOST"] == h.value;
    }
    if HostOf(headers).Some? {
      assert m["Host"] == HostOf(headers).value;
    }
  }

  /** Without a colon in the request line. */
  lemma GoodRequest(verb: string, uri: string, version: string, headers: seq<Header>, body: seq<string>)
    requires Word(verb) && Word(uri) && Word(version) && PlainHeaders(headers) && DistinctNames(headers)
    requires Agreeing(verb, uri, version, headers)
    requires BodyLines(body)
    requires AllHarmless(body, RESERVED + Names(headers), HostOf(headers))
    ensures var r := ReadParts(Parsed(RequestParts(map[], verb, uri, version)), headers, body);
      r.Parsed? && LineFaithful(r.parts, verb, uri, version) && HeadersFaithful(r.parts, headers)
  {
    hide RequestParts, AllHarmless, HostOf;
    var parts := RequestParts(map[], verb, uri, version);
    var m := InsertAll(parts, headers);
    LineParts(verb, uri, version);
    InsertedKeys(parts, headers);
    forall h | h in headers ensures h.name in m && m[h.name] == h.value {
      HeaderInserted(parts, headers, h);
    }
    HarmlessBody(m, body, HostOf(headers));
    var m' := ReadTexts(m, body).parts;
    HostCopied(m, m', headers);
    LineStays(parts, WithHost(m'), verb, uri, version);
  }

  lemma WithHostGrows(m: map<string, string>)
    ensures forall k :: k in m ==> k in WithHost(m) && WithHost(m)[k] == m[k]
  {
  }

  /** A request that is read back as it was printed has agreeing headers and a harmless body. */
  lemma OnlyGoodRequests(verb: string, uri: string, version: string, headers: seq<Header>, body: seq<string>)
    requires Word(verb) && Word(uri) && Word(version) && PlainHeaders(headers) && DistinctNames(headers)
    requires BodyLines(body)
    requires var r := ReadParts(Parsed(RequestParts(map[], verb, uri, version)), headers, body);
      r.Parsed? && LineFaithful(r.parts, verb, uri, version) && HeadersFaithful(r.parts, headers)
    ensures Agreeing(verb, uri, version, headers)
    ensures AllHarmless(body, RESERVED + Names(headers), HostOf(headers))
  {
    hide RequestParts, AllHarmless, HostOf;
    var parts := RequestParts(map[], verb, uri, version);
    var m := InsertAll(parts, headers);
    var read := ReadTexts(m, body).parts;
    LineParts(verb, uri, version);
    InsertedKeys(parts, headers);
    ReadTextsGrow(m, body);
    WithHostGrows(read);
    HostIs(headers);
    forall h | h in headers
      ensures h.name in parts ==> h.value == parts[h.name]
      ensures h.name == "HTTP_HOST" && HostOf(headers).Some? ==> h.value == HostOf(headers).value
    {
      HeaderInserted(parts, headers, h);
    }
    forall k | k in read && k !in m ensures k == "HTTP_HOST" && HostOf(headers) == Some(read[k]) {}
    BodyIsHarmless(m, body, HostOf(headers));
  }

  // ---------------------------------------------------------------- a colon in the request line

  predicate Unspaced(s: string) {
    forall i :: 0 <= i < |s| ==> s[i] != ' '
  }

  /** A request line with a colon after the method is taken for a header whose name has a blank. */
  lemma ColonLine(verb: string, uri: string, version: string)
    requires Word(verb) && Token(uri) && Token(version) && ':' in RequestLine(verb, uri, version)
    ensures var r := ReadLine(map[], RequestLine(verb, uri, version));
      r.Parsed? ==> exists key :: key in r.parts && !Unspaced(key)
  {
    var line := RequestLine(verb, uri, version);
    var k := Find(line, {':'});
    assert k < |line|;
    forall i | 0 <= i < |verb| ensures line[i] == verb[i] {}
    assert line[|verb|] == ' ' && k > |verb|;
    if |line| - k >= 2 {
      assert line[0] == verb[0];
      var key := line[..k];
      assert key[|verb|] == ' ';
      assert key in Insert(map[], key, line[k + 2..]);
    }
  }

  lemma MethodUnspaced()
    ensures Unspaced("REQUEST_METHOD") && Unspaced("REQUEST_URI")
  {
  }

  lemma ProtocolUnspaced()
    ensures Unspaced("SERVER_PROTOCOL") && Unspaced("TARGET")
  {
  }

  lemma QueryUnspaced()
    ensures Unspaced("QUERY_STRING") && Unspaced("HTTP_HOST")
  {
  }

  lemma KeysUnspaced(headers: seq<Header>, key: string)
    requires PlainHeaders(headers)
    requires key in RESERVED + Names(headers) + (if "Host" in Names(headers) then {"HTTP_HOST"} else {})
    ensures Unspaced(key)
  {
    MethodUnspaced();
    ProtocolUnspaced();
    QueryUnspaced();
    if key in Names(headers) {
      var h :| h in headers && h.name == key;
      assert Word(h.name);
    }
  }

  lemma ColonRequest(verb: string, uri: string, version: string, headers: seq<Header>, body: seq<string>)
    requires Word(verb) && Token(uri) && Token(version) && ':' in RequestLine(verb, uri, version)
    requires PlainHeaders(headers)
    ensures var r := ReadParts(ReadLine(map[], RequestLine(verb, uri, version)), headers, body);
      r.Parsed? ==> !HeadersFaithful(r.parts, headers)
  {
    hide ReadLine, RequestLine;
    var first := ReadLine(map[], RequestLine(verb, uri, version));
    ColonLine(verb, uri, version);
    var r := ReadParts(first, headers, body);
    if r.Parsed? {
      var key :| key in first.parts && !Unspaced(key);
      var m := InsertAll(first.parts, headers);
      InsertedKeys(first.parts, headers);
      ReadTextsGrow(m, body);
      WithHostGrows(ReadTexts(m, body).parts);
      if HeadersFaithful(r.parts, headers) { KeysUnspaced(headers, key); }
    }
  }

  // ---------------------------------------------------------------- the round trip

  lemma BodyIsLines(verb: string, uri: string, version: string, headers: seq<Header>, body: seq<string>,
                    ends: seq<bool>)
    requires PlainLines(RequestTexts(verb, uri, version, headers, body), ends)
    ensures BodyLines(body)
  {
    var texts := RequestTexts(verb, uri, version, headers, body);
    forall i | 0 <= i < |body| ensures '\n' !in body[i] {
      assert texts[|headers| + 2 + i] == body[i];
      assert PlainLine(texts[|headers| + 2 + i], ends[|headers| + 2 + i]);
    }
  }

  /** For any printed request whose header names are distinct, and whatever mixture of line ends it is printed
      with, the parser gives back method, target and version, path and query, every header, and the host as
      HTTP_HOST, and no other key, if and only if the request line has no colon, the headers agree with the
      parser's own keys, and every line of the body is harmless. */
  lemma ParsePrinted(verb: string, uri: string, version: string, headers: seq<Header>, body: seq<string>,
                     ends: seq<bool>, tail: string)
    requires Word(verb) && Token(uri) && Token(version) && PlainHeaders(headers) && DistinctNames(headers)
    requires PlainLines(RequestTexts(verb, uri, version, headers, body), ends) && '\n' !in tail
    ensures var r := Parse(Print(RequestTexts(verb, uri, version, headers, body), ends) + tail);
      (r.Parsed? && LineFaithful(r.parts, verb, uri, version) && HeadersFaithful(r.parts, headers))
      <==>
      (':' !in RequestLine(verb, uri, version) && Agreeing(verb, uri, version, headers)
       && AllHarmless(body, RESERVED + Names(headers), HostOf(headers)))
  {
    hide ReadLine, RequestLine, Agreeing, AllHarmless, LineFaithful, HeadersFaithful, Parse, Print, PlainLines;
    hide HeaderTexts;
    ParsePrintedParts(verb, uri, version, headers, body, ends, tail);
    BodyIsLines(verb, uri, version, headers, body, ends);
    TokenLine(verb, uri, version);
    if ':' in RequestLine(verb, uri, version) {
      ColonRequest(verb, uri, version, headers, body);
    } else {
      RequestLineRead(verb, uri, version);
      var r := ReadParts(Parsed(RequestParts(map[], verb, uri, version)), headers, body);
      if Agreeing(verb, uri, version, headers)
        && AllHarmless(body, RESERVED + Names(headers), HostOf(headers)) {
        GoodRequest(verb, uri, version, headers, body);
      }
      if r.Parsed? && LineFaithful(r.parts, verb, uri, version) && HeadersFaithful(r.parts, headers) {
        OnlyGoodRequests(verb, uri, version, headers, body);
      }
    }
  }
}
