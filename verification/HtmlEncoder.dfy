/** The console page's encoder: whole-string replacements, one pass after the other. */
module HtmlEncoder {
  /** One pass: every `key` becomes `text`. */
  datatype Rule = Rule(key: char, text: string)

  /** boost::replace_all with a one-character search text; replaced text is not searched again. */
  function Replaced(s: string, rule: Rule): string {
    if s == "" then "" else Replaced(s[..|s| - 1], rule) + (if s[|s| - 1] == rule.key then rule.text else [s[|s| - 1]])
  }

  method ReplaceAll(s: string, rule: Rule) returns (r: string)
    ensures r == Replaced(s, rule)
  {
    r := "";
    for i := 0 to |s|
      invariant r == Replaced(s[..i], rule)
    {
      assert s[..i + 1][..i] == s[..i];
      r := r + (if s[i] == rule.key then rule.text else [s[i]]);
    }
    assert s[..|s|] == s;
  }

  /** Pass after pass over the whole text. */
  function Passes(s: string, rules: seq<Rule>): string
    decreases rules
  {
    if rules == [] then s else Passes(Replaced(s, rules[0]), rules[1..])
  }

  /** What the first rule that has the character as its key makes of it. */
  function Letter(c: char, rules: seq<Rule>): string {
    if rules == [] then [c] else if c == rules[0].key then rules[0].text else Letter(c, rules[1..])
  }

  /** One pass over the text, letter by letter. */
  function Translated(s: string, rules: seq<Rule>): string {
    if s == "" then "" else Letter(s[0], rules) + Translated(s[1..], rules)
  }

  /** No pass finds its key in a text that an earlier pass put in. */
  predicate Settled(rules: seq<Rule>) {
    forall i, j :: 0 <= i < j < |rules| ==> rules[j].key !in rules[i].text
  }

  lemma {:induction false} TranslatedAppend(a: string, b: string, rules: seq<Rule>)
    ensures Translated(a + b, rules) == Translated(a, rules) + Translated(b, rules)
  {
    if a == "" {
      assert a + b == b;
    } else {
      assert (a + b)[1..] == a[1..] + b;
      TranslatedAppend(a[1..], b, rules);
      assert Letter(a[0], rules) + (Translated(a[1..], rules) + Translated(b, rules)) ==
        Translated(a, rules) + Translated(b, rules);
    }
  }

  lemma {:induction false} LetterUntouched(c: char, rules: seq<Rule>)
    requires forall j :: 0 <= j < |rules| ==> rules[j].key != c
    ensures Letter(c, rules) == [c]
  {
    if rules != [] { LetterUntouched(c, rules[1..]); }
  }

  lemma {:induction false} TextUntouched(s: string, rules: seq<Rule>)
    requires forall j :: 0 <= j < |rules| ==> rules[j].key !in s
    ensures Translated(s, rules) == s
  {
    if s != "" {
      LetterUntouched(s[0], rules);
      TextUntouched(s[1..], rules);
    }
  }

  lemma {:induction false} FirstPass(s: string, rules: seq<Rule>)
    requires rules != [] && Settled(rules)
    ensures Translated(Replaced(s, rules[0]), rules[1..]) == Translated(s, rules)
  {
    if s != "" {
      var front, c, rest := s[..|s| - 1], s[|s| - 1], rules[1..];
      var t := if c == rules[0].key then rules[0].text else [c];
      FirstPass(front, rules);
      TranslatedAppend(Replaced(front, rules[0]), t, rest);
      TranslatedAppend(front, [c], rules);
      assert s == front + [c] && Translated([c], rules) == Letter(c, rules) && Translated([c], rest) == Letter(c, rest);
      if c == rules[0].key {
        forall j | 0 <= j < |rest| ensures rest[j].key !in t { assert rest[j] == rules[j + 1]; }
        TextUntouched(t, rest);
      }
    }
  }

  /** Pass fusion: for settled rules, the passes are one translation, letter by letter. */
  lemma {:induction false} Fusion(s: string, rules: seq<Rule>)
    requires Settled(rules)
    ensures Passes(s, rules) == Translated(s, rules)
    decreases rules
  {
    if rules == [] {
      TextUntouched(s, rules);
    } else {
      var rest := rules[1..];
      forall i, j | 0 <= i < j < |rest| ensures rest[j].key !in rest[i].text {
        assert rest[i] == rules[i + 1] && rest[j] == rules[j + 1];
      }
      Fusion(Replaced(s, rules[0]), rest);
      FirstPass(s, rules);
    }
  }

  // ---------------------------------------------------------------- the console's rules

  /** The five passes of encode, then the line-feed and carriage-return passes of the caller. */
  const RULES: seq<Rule> := [
    Rule('&', "&amp;"), Rule('\"', "&quot;"), Rule('\'', "&apos;"), Rule('<', "&lt;"), Rule('>', "&gt;"),
    Rule('\n', "&#13;"), Rule('\r', "")]

  function Encoded(content: string): string {
    Translated(content, RULES)
  }

  function Entity(c: char): string {
    match c
    case '&' => "&amp;"
    case '\"' => "&quot;"
    case '\'' => "&apos;"
    case '<' => "&lt;"
    case '>' => "&gt;"
    case '\n' => "&#13;"
    case '\r' => ""
    case _ => [c]
  }

  lemma LetterFrom(c: char, rules: seq<Rule>, i: nat)
    requires i < |rules|
    ensures Letter(c, rules[i..]) == if c == rules[i].key then rules[i].text else Letter(c, rules[i + 1..])
  {
    assert rules[i..][1..] == rules[i + 1..];
  }

  lemma LetterOfSeven(c: char, rules: seq<Rule>)
    requires |rules| == 7
    ensures Letter(c, rules) ==
      if c == rules[0].key then rules[0].text else if c == rules[1].key then rules[1].text
      else if c == rules[2].key then rules[2].text else if c == rules[3].key then rules[3].text
      else if c == rules[4].key then rules[4].text else if c == rules[5].key then rules[5].text
      else if c == rules[6].key then rules[6].text else [c]
  {
    assert rules[0..] == rules && rules[7..] == [];
    LetterFrom(c, rules, 0);
    LetterFrom(c, rules, 1);
    LetterFrom(c, rules, 2);
    LetterFrom(c, rules, 3);
    LetterFrom(c, rules, 4);
    LetterFrom(c, rules, 5);
    LetterFrom(c, rules, 6);
  }

  lemma LetterIsEntity(c: char)
    ensures Letter(c, RULES) == Entity(c)
  {
    LetterOfSeven(c, RULES);
  }

  /** The characters that would end the script's text or begin a tag, and the carriage return. */
  const MARKUP := {'\"', '\'', '<', '>', '\n', '\r'}

  predicate Plain(text: string) {
    forall k :: 0 <= k < |text| ==> text[k] !in MARKUP
  }

  lemma AmpersandsArePlain()
    ensures Plain("&amp;") && Plain("&quot;") && Plain("&apos;")
  {
  }

  lemma BracketsArePlain()
    ensures Plain("&lt;") && Plain("&gt;") && Plain("&#13;") && Plain("")
  {
  }

  lemma RulesArePlain(i: nat)
    requires i < 7
    ensures Plain(RULES[i].text)
  {
    hide Plain;
    AmpersandsArePlain();
    BracketsArePlain();
  }

  lemma KeysAreMarkup(j: nat)
    requires 0 < j < 7
    ensures RULES[j].key in MARKUP
  {
  }

  lemma RulesSettled()
    ensures Settled(RULES)
  {
    forall i, j | 0 <= i < j < 7 ensures RULES[j].key !in RULES[i].text {
      RulesArePlain(i);
      KeysAreMarkup(j);
    }
  }

  lemma OnePass(s: string, rules: seq<Rule>, i: nat)
    requires i < |rules|
    ensures Passes(s, rules[i..]) == Passes(Replaced(s, rules[i]), rules[i + 1..])
  {
    assert rules[i..][1..] == rules[i + 1..];
  }

  /** encode and its caller: seven replacements of the string in place. */
  method RunPasses(content: string, rules: seq<Rule>) returns (data: string)
    requires |rules| == 7
    ensures data == Passes(content, rules)
  {
    data := content;
    assert rules[0..] == rules && rules[7..] == [];
    OnePass(data, rules, 0);
    data := ReplaceAll(data, rules[0]);
    OnePass(data, rules, 1);
    data := ReplaceAll(data, rules[1]);
    OnePass(data, rules, 2);
    data := ReplaceAll(data, rules[2]);
    OnePass(data, rules, 3);
    data := ReplaceAll(data, rules[3]);
    OnePass(data, rules, 4);
    data := ReplaceAll(data, rules[4]);
    OnePass(data, rules, 5);
    data := ReplaceAll(data, rules[5]);
    OnePass(data, rules, 6);
    data := ReplaceAll(data, rules[6]);
  }

  method EncodeContent(content: string) returns (data: string)
    ensures data == Encoded(content)
  {
    data := RunPasses(content, RULES);
    RulesSettled();
    Fusion(content, RULES);
  }

  lemma NothingEncoded()
    ensures Encoded("") == ""
  {
  }

  lemma EncodedCons(content: string)
    requires content != ""
    ensures Encoded(content) == Entity(content[0]) + Encoded(content[1..])
  {
    LetterIsEntity(content[0]);
  }

  /** What the encoder makes of a text, letter by letter. */
  lemma EncodedLetters(a: string, b: string, c: char)
    ensures Encoded(a + b) == Encoded(a) + Encoded(b)
    ensures Encoded([c]) ==
      if c == '&' then "&amp;" else if c == '<' then "&lt;" else if c == '>' then "&gt;"
      else if c == '\'' then "&apos;" else if c == '\"' then "&quot;"
      else if c == '\n' then "&#13;" else if c == '\r' then "" else [c]
  {
    TranslatedAppend(a, b, RULES);
    EncodedCons([c]);
    NothingEncoded();
    assert [c][1..] == "" && Entity(c) + "" == Entity(c);
  }

  lemma {:induction false} NoRawMarkup(content: string, i: nat)
    requires i < |Encoded(content)|
    ensures Encoded(content)[i] !in MARKUP
  {
    hide Encoded;
    if content == "" {
      NothingEncoded();
      return;
    }
    EncodedCons(content);
    var c := content[0];
    if i >= |Entity(c)| { NoRawMarkup(content[1..], i - |Entity(c)|); }
  }

  // ---------------------------------------------------------------- the inverse

  function WithoutReturns(s: string): string {
    if s == "" then "" else (if s[0] == '\r' then "" else [s[0]]) + WithoutReturns(s[1..])
  }

  /** What a page reads a text's first character or entity as, and its length; the character reference 13
      stands for a line break. */
  function Reading(s: string): (r: (char, nat))
    requires s != ""
    ensures 1 <= r.1 <= |s|
  {
    if "&amp;" <= s then ('&', 5)
    else if "&quot;" <= s then ('\"', 6)
    else if "&apos;" <= s then ('\'', 6)
    else if "&lt;" <= s then ('<', 4)
    else if "&gt;" <= s then ('>', 4)
    else if "&#13;" <= s then ('\n', 5)
    else (s[0], 1)
  }

  function Decoded(s: string): string {
    if s == "" then "" else [Reading(s).0] + Decoded(s[Reading(s).1..])
  }

  /** An entity ends in a backslash only if it is one. */
  lemma EntityEnd(c: char)
    ensures Entity(c) == "" <==> c == '\r'
    ensures c == '\\' ==> Entity(c) == "\\"
    ensures c != '\\' && c != '\r' ==> Entity(c)[|Entity(c)| - 1] != '\\'
  {
  }

  lemma ReadingPlain(s: string)
    requires s != "" && s[0] != '&'
    ensures Reading(s) == (s[0], 1)
  {
  }

  lemma ReadingQuoted(c: char, rest: string)
    requires c in {'&', '\"', '\''}
    ensures Reading(Entity(c) + rest) == (c, |Entity(c)|)
  {
    var s := Entity(c) + rest;
    assert Entity(c) <= s;
    assert s[1] == Entity(c)[1] && s[2] == Entity(c)[2];
  }

  lemma ReadingBracket(c: char, rest: string)
    requires c in {'<', '>', '\n'}
    ensures Reading(Entity(c) + rest) == (c, |Entity(c)|)
  {
    var s := Entity(c) + rest;
    assert Entity(c) <= s;
    assert s[1] == Entity(c)[1];
  }

  lemma DecodeOther(c: char, rest: string)
    requires c !in {'&', '\"', '\'', '<', '>', '\n', '\r'}
    ensures Entity(c) == [c] && Decoded([c] + rest) == [c] + Decoded(rest)
  {
    hide Reading;
    var s := [c] + rest;
    assert s[0] == c && s[1..] == rest;
    ReadingPlain(s);
  }

  lemma DecodeEntity(c: char, rest: string)
    ensures Decoded(Entity(c) + rest) == (if c == '\r' then "" else [c]) + Decoded(rest)
  {
    hide Reading, Entity;
    EntityEnd(c);
    if c in {'&', '\"', '\'', '<', '>', '\n'} {
      if c in {'<', '>', '\n'} { ReadingBracket(c, rest); } else { ReadingQuoted(c, rest); }
      assert (Entity(c) + rest)[|Entity(c)|..] == rest;
    } else if c == '\r' {
      assert Entity(c) + rest == rest && "" + Decoded(rest) == Decoded(rest);
    } else {
      DecodeOther(c, rest);
    }
  }

  /** Decoding gives the content back without its carriage returns. */
  lemma {:induction false} DecodeEncoded(content: string)
    ensures Decoded(Encoded(content)) == WithoutReturns(content)
  {
    if content != "" {
      LetterIsEntity(content[0]);
      DecodeEntity(content[0], Encoded(content[1..]));
      DecodeEncoded(content[1..]);
    }
  }

  lemma {:induction false} EncodeWithoutReturns(content: string)
    ensures Encoded(WithoutReturns(content)) == Encoded(content)
  {
    if content != "" {
      var c, rest := content[0], content[1..];
      LetterIsEntity(c);
      EncodeWithoutReturns(rest);
      if c == '\r' {
        assert Entity(c) + Encoded(rest) == Encoded(rest);
        assert "" + WithoutReturns(rest) == WithoutReturns(rest);
      } else {
        assert ([c] + WithoutReturns(rest))[1..] == WithoutReturns(rest);
      }
    }
  }

  /** Two contents look the same to the page exactly when they differ only in carriage returns. */
  lemma EncodedAlike(a: string, b: string)
    ensures Encoded(a) == Encoded(b) <==> WithoutReturns(a) == WithoutReturns(b)
  {
    DecodeEncoded(a);
    DecodeEncoded(b);
    EncodeWithoutReturns(a);
    EncodeWithoutReturns(b);
  }

  // ---------------------------------------------------------------- the script's string literal

  const TAIL := "';</script>"

  /** The script up to the quote that begins its text. */
  function Head(session: string): string {
    "<script>document.getElementById('" + session + "').innerHTML += '"
  }

  /** Where a string literal that begins before s[i] ends: at the first quote that no backslash escapes,
      or past the text. */
  function LiteralEnd(s: string, i: nat): (end: nat)
    requires i <= |s|
    ensures i <= end <= |s| + 1
    decreases |s| - i
  {
    if i == |s| || s[i] == '\'' then i
    else if s[i] != '\\' then LiteralEnd(s, i + 1)
    else if i + 1 == |s| then |s| + 1
    else LiteralEnd(s, i + 2)
  }

  /** How many backslashes a text ends with. */
  function Trailing(s: string): nat {
    if s != "" && s[|s| - 1] == '\\' then 1 + Trailing(s[..|s| - 1]) else 0
  }

  predicate NoQuote(s: string) {
    forall k :: 0 <= k < |s| ==> s[k] != '\''
  }

  lemma {:induction false} TrailingTail(s: string, i: nat)
    requires i < |s|
    ensures Trailing(s) == if Trailing(s[i..]) < |s| - i then Trailing(s[i..]) else |s| - i + Trailing(s[..i])
    decreases |s| - i
  {
    if i + 1 < |s| {
      TrailingTail(s[..|s| - 1], i);
      assert s[..|s| - 1][i..] == s[i..][..|s| - 1 - i];
      assert s[..|s| - 1][..i] == s[..i];
    } else {
      assert s[i..][..0] == "";
    }
  }

  lemma {:induction false} TrailingBound(s: string)
    ensures Trailing(s) <= |s|
  {
    if s != "" { TrailingBound(s[..|s| - 1]); }
  }

  lemma TrailingOne(s: string)
    requires |s| == 1
    ensures Trailing(s) == if s[0] == '\\' then 1 else 0
  {
    assert s[..0] == "";
  }

  lemma TrailingTwo(s: string)
    requires |s| == 2 && s[0] == '\\'
    ensures Trailing(s) == if s[1] == '\\' then 2 else 0
  {
    TrailingOne(s[..1]);
  }

  /** A character that is no backslash makes no difference to the end of the text. */
  lemma DropOne(s: string)
    requires s != "" && s[0] != '\\'
    ensures Trailing(s) == Trailing(s[1..])
  {
    if |s| == 1 {
      TrailingOne(s);
    } else {
      TrailingBound(s[1..]);
      TrailingTail(s, 1);
      TrailingOne(s[..1]);
    }
  }

  lemma DropTwoOfMore(s: string)
    requires |s| > 2 && s[0] == '\\'
    ensures Trailing(s) % 2 == Trailing(s[2..]) % 2
  {
    hide Trailing;
    TrailingBound(s[2..]);
    TrailingTail(s, 2);
    TrailingTwo(s[..2]);
  }

  /** Nor, to its being even, a backslash with what it escapes. */
  lemma DropTwo(s: string)
    requires |s| >= 2 && s[0] == '\\'
    ensures Trailing(s) % 2 == Trailing(s[2..]) % 2
  {
    if |s| == 2 {
      TrailingTwo(s);
      assert Trailing(s[2..]) == 0;
    } else {
      DropTwoOfMore(s);
    }
  }

  /** Scanning a text without quotes: the scan stops at its end, or one past it, as the number of
      backslashes at the end is even or odd. */
  lemma {:induction false} ScanText(text: string, tail: string, i: nat)
    requires NoQuote(text) && tail != "" && i <= |text|
    ensures LiteralEnd(text + tail, i) == LiteralEnd(text + tail, |text| + Trailing(text[i..]) % 2)
    decreases |text| - i
  {
    var s := text + tail;
    if i < |text| {
      assert s[i] == text[i];
      if text[i] != '\\' {
        DropOne(text[i..]);
        assert text[i..][1..] == text[i + 1..];
        ScanText(text, tail, i + 1);
      } else if i + 1 < |text| {
        DropTwo(text[i..]);
        assert text[i..][2..] == text[i + 2..];
        ScanText(text, tail, i + 2);
      } else {
        TrailingOne(text[i..]);
      }
    }
  }

  lemma EncodedNoQuote(content: string)
    ensures NoQuote(Encoded(content))
  {
    forall k | 0 <= k < |Encoded(content)| ensures Encoded(content)[k] != '\'' {
      NoRawMarkup(content, k);
    }
  }

  lemma EncodedSnoc(front: string, c: char)
    ensures Encoded(front + [c]) == Encoded(front) + Entity(c)
  {
    TranslatedAppend(front, [c], RULES);
    LetterIsEntity(c);
    assert [c][1..] == "" && Entity(c) + "" == Entity(c);
  }

  lemma {:induction false} WithoutReturnsSnoc(front: string, c: char)
    ensures WithoutReturns(front + [c]) == WithoutReturns(front) + (if c == '\r' then "" else [c])
  {
    if front == "" {
      assert "" + [c] == [c] && [c][1..] == "";
    } else {
      assert (front + [c])[1..] == front[1..] + [c];
      WithoutReturnsSnoc(front[1..], c);
    }
  }

  lemma TrailingSnoc(s: string, t: string)
    requires t == "" || t == "\\" || t[|t| - 1] != '\\'
    ensures Trailing(s + t) == if t == "" then Trailing(s) else if t == "\\" then Trailing(s) + 1 else 0
  {
    if t == "" {
      assert s + t == s;
    } else {
      assert (s + t)[|s + t| - 1] == t[|t| - 1];
      if t == "\\" { assert (s + t)[..|s|] == s; }
    }
  }

  lemma TrailingBoth(a: string, b: string, c: char)
    requires Trailing(a) == Trailing(b)
    ensures Trailing(a + Entity(c)) == Trailing(b + (if c == '\r' then "" else [c]))
  {
    hide Trailing;
    EntityEnd(c);
    TrailingSnoc(a, Entity(c));
    TrailingSnoc(b, if c == '\r' then "" else [c]);
  }

  lemma TrailingLonger(front: string, c: char)
    requires Trailing(Encoded(front)) == Trailing(WithoutReturns(front))
    ensures Trailing(Encoded(front + [c])) == Trailing(WithoutReturns(front + [c]))
  {
    hide Trailing, Encoded, WithoutReturns;
    EncodedSnoc(front, c);
    WithoutReturnsSnoc(front, c);
    TrailingBoth(Encoded(front), WithoutReturns(front), c);
  }

  /** The encoder neither adds nor removes a backslash. */
  lemma {:induction false} TrailingEncoded(content: string)
    ensures Trailing(Encoded(content)) == Trailing(WithoutReturns(content))
  {
    if content != "" {
      var front, c := content[..|content| - 1], content[|content| - 1];
      TrailingEncoded(front);
      TrailingLonger(front, c);
      assert front + [c] == content;
    }
  }

  /** A shell's text: the literal ends at the quote that the script puts after it if and only if the text,
      without its carriage returns, ends in an even number of backslashes. */
  lemma ShellLiteral(content: string)
    ensures LiteralEnd(Encoded(content) + TAIL, 0) == |Encoded(content)| <==> Trailing(WithoutReturns(content)) % 2 == 0
  {
    var text := Encoded(content);
    EncodedNoQuote(content);
    TrailingEncoded(content);
    ScanText(text, TAIL, 0);
    assert text[0..] == text;
    assert (text + TAIL)[|text|] == TAIL[0] == '\'';
  }

  /** A command's text is followed by an end tag, so its literal always ends where the script says. */
  lemma CommandLiteral(content: string)
    ensures LiteralEnd("<b>" + Encoded(content) + "</b>" + TAIL, 0) == |"<b>" + Encoded(content) + "</b>"|
  {
    EncodedNoQuote(content);
    var text := "<b>" + Encoded(content) + "</b>";
    assert NoQuote(text);
    assert text[|text| - 1] == '>' && text[0..] == text;
    assert Trailing(text) == 0;
    ScanText(text, TAIL, 0);
    assert (text + TAIL)[|text|] == TAIL[0] == '\'';
  }

  lemma {:induction false} LiteralShift(p: string, s: string, i: nat)
    requires i <= |s|
    ensures LiteralEnd(p + s, |p| + i) == |p| + LiteralEnd(s, i)
    decreases |s| - i
  {
    if i < |s| {
      assert (p + s)[|p| + i] == s[i];
      if s[i] != '\'' && s[i] != '\\' {
        LiteralShift(p, s, i + 1);
      } else if s[i] == '\\' && i + 1 < |s| {
        LiteralShift(p, s, i + 2);
      }
    }
  }

  /** The script that appends text to the `pre` of a session. Its literal is the encoded text, if and only if
      the text, without its carriage returns, ends in an even number of backslashes. */
  method OutputShell(session: string, content: string) returns (script: string)
    ensures script == "<script>document.getElementById('" + session + "').innerHTML += '"
                      + (Encoded(content) + "';</script>")
    ensures LiteralEnd(script, |Head(session)|) == |Head(session) + Encoded(content)| <==>
      Trailing(WithoutReturns(content)) % 2 == 0
  {
    var data := EncodeContent(content);
    script := Head(session) + (data + TAIL);
    ShellLiteral(content);
    LiteralShift(Head(session), data + TAIL, 0);
  }

  /** The script that appends a command in bold: its literal always ends where the script says. */
  method OutputCommand(session: string, content: string) returns (script: string)
    ensures script == "<script>document.getElementById('" + session + "').innerHTML += '"
                      + ("<b>" + Encoded(content) + "</b>" + "';</script>")
    ensures LiteralEnd(script, |Head(session)|) == |Head(session) + ("<b>" + Encoded(content) + "</b>")|
  {
    var data := EncodeContent(content);
    script := Head(session) + ("<b>" + data + "</b>" + TAIL);
    CommandLiteral(content);
    LiteralShift(Head(session), "<b>" + data + "</b>" + TAIL, 0);
  }

  // ---------------------------------------------------------------- what the literal stands for

  /** What a script makes of the text after a backslash: what the escape stands for, and how many characters
      belong to it. */
  type Escapes = string -> (string, nat)

  predicate EscapeAt(escapes: Escapes, s: string)
    requires s != ""
  {
    var (text, n) := escapes(s);
    && 1 <= n <= |s| && |text| <= n
    && (if s[0] == '&' then text == "&" && n == 1 else '&' !in s[..n])
  }

  /** Every escape has a character, and stands for no more text than it takes up after the backslash. An
      escaped ampersand is an ampersand, and no other escape has one in it. */
  ghost predicate ScriptLike(escapes: Escapes) {
    forall s: string :: s != "" ==> EscapeAt(escapes, s)
  }

  /** The rule by which every escaped character stands for itself is one. */
  lemma PlainEscapes()
    ensures ScriptLike(s => if s == "" then ("", 0) else (s[..1], 1))
  {
    var escapes: Escapes := s => if s == "" then ("", 0) else (s[..1], 1);
    forall s: string | s != "" ensures EscapeAt(escapes, s) {
      assert s[..1] == [s[0]];
    }
  }

  /** The text that a literal stands for: every escape is resolved, whatever it stands for. */
  ghost function Unescaped(s: string, escapes: Escapes): string
    requires ScriptLike(escapes)
    decreases |s|
  {
    if s == "" then ""
    else if s[0] != '\\' then [s[0]] + Unescaped(s[1..], escapes)
    else if |s| == 1 then ""
    else
      assert EscapeAt(escapes, s[1..]);
      escapes(s[1..]).0 + Unescaped(s[1..][escapes(s[1..]).1..], escapes)
  }

  lemma {:induction false} UnescapedLength(s: string, escapes: Escapes)
    requires ScriptLike(escapes)
    ensures |Unescaped(s, escapes)| <= |s|
    ensures '\\' in s ==> |Unescaped(s, escapes)| < |s|
    ensures '\\' !in s ==> Unescaped(s, escapes) == s
    decreases |s|
  {
    if s != "" {
      if s[0] != '\\' {
        UnescapedLength(s[1..], escapes);
      } else if |s| > 1 {
        assert EscapeAt(escapes, s[1..]);
        UnescapedLength(s[1..][escapes(s[1..]).1..], escapes);
      }
    }
  }

  lemma EntityBackslash(c: char)
    ensures '\\' in Entity(c) <==> c == '\\'
  {
  }

  lemma InBoth(c: char, a: string, b: string)
    ensures c in a + b <==> c in a || c in b
  {
  }

  /** The encoder keeps the backslashes where they are, and adds none. */
  lemma {:induction false} EncodedBackslash(content: string)
    ensures '\\' in Encoded(content) <==> '\\' in content
  {
    hide Encoded, Entity;
    NothingEncoded();
    if content != "" {
      EncodedCons(content);
      EncodedBackslash(content[1..]);
      EntityBackslash(content[0]);
      InBoth('\\', Entity(content[0]), Encoded(content[1..]));
    }
  }

  /** The literal stands for the encoded text if and only if the text has no backslash; any backslash
      makes it shorter. */
  lemma LiteralKept(content: string, escapes: Escapes)
    requires ScriptLike(escapes)
    ensures Unescaped(Encoded(content), escapes) == Encoded(content) <==> '\\' !in content
    ensures '\\' in content ==> |Unescaped(Encoded(content), escapes)| < |Encoded(content)|
  {
    EncodedBackslash(content);
    UnescapedLength(Encoded(content), escapes);
  }

  // ---------------------------------------------------------------- what the page shows

  lemma {:induction false} DecodedPlain(p: string, y: string)
    requires '&' !in p
    ensures Decoded(p + y) == p + Decoded(y)
  {
    if p == "" {
      assert p + y == y;
    } else {
      hide Reading;
      var s := p + y;
      assert s[0] == p[0] != '&' && s[1..] == p[1..] + y;
      ReadingPlain(s);
      DecodedPlain(p[1..], y);
    }
  }

  lemma NoneInside(s: string, entity: string)
    requires entity != "" && entity <= s && '&' !in entity[1..]
    ensures '&' !in s[1..|entity|]
  {
    assert s[1..|entity|] == entity[1..];
  }

  lemma EntitiesInside()
    ensures '&' !in "&amp;"[1..] && '&' !in "&quot;"[1..] && '&' !in "&apos;"[1..]
    ensures '&' !in "&lt;"[1..] && '&' !in "&gt;"[1..] && '&' !in "&#13;"[1..]
  {
  }

  lemma ReadingInside(s: string)
    requires s != ""
    ensures '&' !in s[1..Reading(s).1]
  {
    EntitiesInside();
    if "&amp;" <= s { NoneInside(s, "&amp;"); }
    else if "&quot;" <= s { NoneInside(s, "&quot;"); }
    else if "&apos;" <= s { NoneInside(s, "&apos;"); }
    else if "&lt;" <= s { NoneInside(s, "&lt;"); }
    else if "&gt;" <= s { NoneInside(s, "&gt;"); }
    else if "&#13;" <= s { NoneInside(s, "&#13;"); }
  }

  /** The rest of an entity would be read as it is, had the ampersand not been there. */
  lemma DecodedStep(s: string)
    requires s != ""
    ensures |Decoded(s)| <= 1 + |Decoded(s[1..])|
  {
    var n := Reading(s).1;
    ReadingInside(s);
    assert Decoded(s) == [Reading(s).0] + Decoded(s[n..]);
    hide Decoded, Reading;
    DecodedPlain(s[1..n], s[n..]);
    assert s[1..n] + s[n..] == s[1..];
  }

  /** Text in front of an encoded text adds at most its own length to what is read. */
  lemma {:induction false} DecodedAfter(p: string, y: string)
    ensures |Decoded(p + y)| <= |p| + |Decoded(y)|
  {
    hide Decoded;
    if p == "" {
      assert p + y == y;
    } else {
      DecodedStep(p + y);
      assert (p + y)[1..] == p[1..] + y;
      DecodedAfter(p[1..], y);
    }
  }

  lemma {:induction false} UnescapedPlain(p: string, y: string, escapes: Escapes)
    requires ScriptLike(escapes) && '\\' !in p
    ensures Unescaped(p + y, escapes) == p + Unescaped(y, escapes)
  {
    hide ScriptLike;
    if p == "" {
      assert p + y == y;
    } else {
      assert (p + y)[0] == p[0] != '\\' && (p + y)[1..] == p[1..] + y;
      UnescapedPlain(p[1..], y, escapes);
    }
  }

  lemma EntityFirst(c: char)
    ensures Entity(c) != "" && Entity(c)[0] != '&' ==> Entity(c) == [c] && c != '\r'
    ensures Entity(c) == "" <==> c == '\r'
  {
  }

  /** Encoded text without an ampersand stands for as many characters of the content. */
  lemma {:induction false} Consumed(content: string, n: nat) returns (rest: string)
    requires n <= |Encoded(content)| && '&' !in Encoded(content)[..n]
    ensures Encoded(content)[n..] == Encoded(rest) && |rest| <= |content|
    ensures |WithoutReturns(content)| == n + |WithoutReturns(rest)|
  {
    hide Encoded, Entity;
    NothingEncoded();
    rest := content;
    if n > 0 {
      var c := content[0];
      EncodedCons(content);
      EntityFirst(c);
      if c == '\r' {
        assert Entity(c) + Encoded(content[1..]) == Encoded(content[1..]);
        rest := Consumed(content[1..], n);
      } else {
        assert Encoded(content)[0] == Entity(c)[0];
        assert Encoded(content)[n..] == Encoded(content[1..])[n - 1..];
        assert forall k :: 0 <= k < n - 1 ==> Encoded(content[1..])[k] == Encoded(content)[k + 1];
        rest := Consumed(content[1..], n - 1);
      }
    }
  }

  /** What the page shows of a content: the literal's text, with the entities read back. */
  ghost function Shown(content: string, escapes: Escapes): string
    requires ScriptLike(escapes)
  {
    Decoded(Unescaped(Encoded(content), escapes))
  }

  lemma NothingShown(escapes: Escapes)
    requires ScriptLike(escapes)
    ensures Shown("", escapes) == ""
  {
    hide ScriptLike;
    NothingEncoded();
  }

  lemma ShownPlain(content: string, escapes: Escapes)
    requires ScriptLike(escapes) && content != "" && content[0] != '\\'
    ensures |Shown(content, escapes)| - |Shown(content[1..], escapes)| ==
            |WithoutReturns(content)| - |WithoutReturns(content[1..])|
  {
    hide Encoded, Entity, ScriptLike, Unescaped, Decoded;
    var c, y := content[0], Encoded(content[1..]);
    EncodedCons(content);
    EntityBackslash(c);
    UnescapedPlain(Entity(c), y, escapes);
    DecodeEntity(c, Unescaped(y, escapes));
  }

  lemma UnescapedEscape(y: string, escapes: Escapes)
    requires ScriptLike(escapes) && y != ""
    ensures EscapeAt(escapes, y)
    ensures Unescaped(['\\'] + y, escapes) == escapes(y).0 + Unescaped(y[escapes(y).1..], escapes)
  {
    assert EscapeAt(escapes, y);
    hide ScriptLike;
    assert (['\\'] + y)[1..] == y;
  }

  lemma UnescapedOne(y: string, escapes: Escapes)
    requires ScriptLike(escapes) && y != "" && y[0] != '\\'
    ensures Unescaped(y, escapes) == [y[0]] + Unescaped(y[1..], escapes)
  {
    hide ScriptLike;
  }

  /** After a backslash and its escape, the page shows at most the escape's length more than what it shows
      of the rest. */
  lemma ShownEscape(content: string, escapes: Escapes) returns (rest: string)
    requires ScriptLike(escapes) && content != "" && content[0] == '\\' && Encoded(content[1..]) != ""
    ensures |rest| < |content|
    ensures |Shown(content, escapes)| - |Shown(rest, escapes)| < |WithoutReturns(content)| - |WithoutReturns(rest)|
  {
    hide Encoded, Entity, ScriptLike, Unescaped, Decoded;
    var y := Encoded(content[1..]);
    var (text, n) := escapes(y);
    EncodedCons(content);
    EntityEnd('\\');
    UnescapedEscape(y, escapes);
    if y[0] == '&' {
      rest := content[1..];
      UnescapedOne(y, escapes);
    } else {
      rest := Consumed(content[1..], n);
      DecodedAfter(text, Unescaped(Encoded(rest), escapes));
    }
  }

  lemma ShownBackslash(content: string, escapes: Escapes)
    requires ScriptLike(escapes) && content != "" && content[0] == '\\' && Encoded(content[1..]) == ""
    ensures Shown(content, escapes) == "" && WithoutReturns(content) != ""
  {
    hide Encoded, Entity, ScriptLike, Reading;
    EncodedCons(content);
    EntityEnd('\\');
    assert Encoded(content) == ['\\'];
  }

  /** The page never shows more than the content has, and less when it has a backslash. */
  lemma {:induction false} ShownLength(content: string, escapes: Escapes)
    requires ScriptLike(escapes)
    ensures |Shown(content, escapes)| <= |WithoutReturns(content)|
    ensures '\\' in content ==> |Shown(content, escapes)| < |WithoutReturns(content)|
    decreases |content|
  {
    hide ScriptLike, Shown;
    if content == "" {
      NothingShown(escapes);
    } else {
      if content[0] != '\\' {
        ShownPlain(content, escapes);
        ShownLength(content[1..], escapes);
      } else if Encoded(content[1..]) != "" {
        var rest := ShownEscape(content, escapes);
        ShownLength(rest, escapes);
      } else {
        ShownBackslash(content, escapes);
      }
    }
  }

  /** The page shows a text, but for its carriage returns, if and only if the text has no backslash. */
  lemma ShownText(content: string, escapes: Escapes)
    requires ScriptLike(escapes)
    ensures Shown(content, escapes) == WithoutReturns(content) <==> '\\' !in content
  {
    LiteralKept(content, escapes);
    DecodeEncoded(content);
    ShownLength(content, escapes);
  }
}
