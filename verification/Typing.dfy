/** What the shells make of typed text: which commands are redirected, and which events of the user world a
    line of the chat server is. Each result starts from the words and the numbers that were typed. */
module Typing {
  import opened Users
  import LineParser
  import Seqs
  import Session
  import Text
  import Words

  // ---------------------------------------------------------------- redirections

  /** Typed words are redirected to a file exactly when there are more than two, the last but one is the
      mark, and the file is the last, whatever blanks, tabs and line feeds lie between them. */
  lemma RedirectsWhen(lead: string, words: seq<string>, gaps: seq<string>, trail: string)
    requires Words.Typed(words, gaps, {' ', '\t', '\n'}) && Words.AllWhite(lead) && Words.AllWhite(trail)
    ensures var text := lead + Words.Spread(words, gaps) + trail;
      && (Session.Redirects(text) <==> |words| > 2 && words[|words| - 2] == ">")
      && (Session.Redirects(text) ==> Session.FileOf(text) == words[|words| - 1])
  {
    var d := {' ', '\t', '\n'};
    assert Text.BLANKS == d;
    Words.TokensOfWords(lead, words, gaps, trail, d);
  }

  /** Every character of s is one of t's. */
  ghost predicate Within(s: string, t: string) {
    forall c :: c in s ==> c in t
  }

  lemma {:induction false} TrimRightWithin(s: string)
    ensures Within(Text.TrimRight(s), s)
  {
    if s != "" && Text.IsSpace(s[|s| - 1]) { TrimRightWithin(s[..|s| - 1]); }
  }

  lemma {:induction false} TrimWithin(s: string)
    ensures Within(Text.Trim(s), s)
  {
    TrimRightWithin(s);
    Text.TrimLeftDone(Text.TrimRight(s));
  }

  lemma {:induction false} SplitWithin(s: string, d: set<char>)
    ensures forall t :: t in Text.Split(s, d) ==> Within(t, s)
    decreases |s|
  {
    var i := Text.Find(s, d);
    if i < |s| {
      var rest := s[i + Text.Span(s[i..], d)..];
      SplitWithin(rest, d);
      forall t | t in Text.Split(s, d) ensures Within(t, s) {
        assert t == s[..i] || t in Text.Split(rest, d);
      }
    }
  }

  lemma TokensWithin(s: string, d: set<char>)
    ensures forall i :: 0 <= i < |Text.Tokens(s, d)| ==> Within(Text.Tokens(s, d)[i], s)
  {
    var pieces := Text.Split(Text.Trim(s), d);
    TrimWithin(s);
    SplitWithin(Text.Trim(s), d);
    Text.TrimAllAt(pieces);
    forall i | 0 <= i < |pieces| ensures Within(Text.Trim(pieces[i]), s) {
      TrimWithin(pieces[i]);
      assert pieces[i] in pieces;
    }
  }

  /** A command without the mark is not redirected, whatever else it holds. */
  lemma NotRedirected(command: string)
    requires '>' !in command
    ensures !Session.Redirects(command)
  {
    TokensWithin(command, Text.BLANKS);
    var words := Text.Tokens(command, Text.BLANKS);
    assert '>' in ">";
    assert |words| > 2 ==> '>' !in words[|words| - 2];
  }

  // ---------------------------------------------------------------- user pipes

  /** What follows the mark of a user pipe: a number, or something that stoi rejects. */
  datatype Mark = NoMark | Number(n: int) | Other(word: string)

  function NumberText(n: int): string {
    if n < 0 then "-" + Text.Decimal(-n) else Text.Decimal(n)
  }

  predicate GoodMark(m: Mark) {
    m.Other? ==> m.word != "" && !Words.White(m.word[0]) && Words.NoFigure(m.word) && m.word[0] !in {'+', '-'}
  }

  /** The word of a user pipe, if there is one. */
  function MarkWord(sign: char, m: Mark): seq<string> {
    match m
    case NoMark => []
    case Number(n) => [[sign] + NumberText(n)]
    case Other(word) => [[sign] + word]
  }

  /** A command with at most one user pipe to read and one to write, in this order or, if `swapped`, the
      other one, and perhaps redirected to a file; `gaps` are the blanks between its words. */
  datatype Command = Command(
    name: string,
    before: seq<string>, input: Mark,
    between: seq<string>, output: Mark,
    after: seq<string>, file: Text.Option<string>,
    swapped: bool, gaps: seq<string>)

  function FileWords(c: Command): seq<string> {
    if c.file.Some? then [">", c.file.value] else []
  }

  function WordsOf(c: Command): seq<string> {
    [c.name] + c.before
    + (if c.swapped then MarkWord('>', c.output) else MarkWord('<', c.input))
    + c.between
    + (if c.swapped then MarkWord('<', c.input) else MarkWord('>', c.output))
    + c.after
    + FileWords(c)
  }

  /** No word of these is a user pipe of this kind. */
  predicate Quiet(words: seq<string>, mark: char) {
    forall i :: 0 <= i < |words| ==> !Marked(words[i], mark)
  }

  lemma QuietBoth(a: seq<string>, b: seq<string>, mark: char)
    requires Quiet(a, mark) && Quiet(b, mark)
    ensures Quiet(a + b, mark)
  {
  }

  predicate NoRedirection(words: seq<string>) {
    forall i :: 0 <= i < |words| ==> words[i] != ">"
  }

  lemma NoneInBoth(a: seq<string>, b: seq<string>)
    requires NoRedirection(a) && NoRedirection(b)
    ensures NoRedirection(a + b)
  {
  }

  /** The words before a user pipe are no user pipes of its kind; those after it may be, and are passed on to
      the command. */
  predicate GoodCommand(c: Command) {
    && Quiet([c.name] + c.before, '<') && Quiet([c.name] + c.before, '>')
    && Quiet(c.between, if c.swapped then '<' else '>')
    && (c.input.NoMark? ==> Quiet(c.between, '<') && Quiet(c.after, '<') && Quiet(FileWords(c), '<'))
    && (c.output.NoMark? ==> Quiet(c.between, '>') && Quiet(c.after, '>'))
    && NoRedirection([c.name] + c.before) && NoRedirection(c.between) && NoRedirection(c.after)
    && GoodMark(c.input) && GoodMark(c.output)
    && Words.Typed(WordsOf(c), c.gaps, {' ', '\t', '\n', '\r'})
    && (forall i :: 0 <= i < |WordsOf(c)| ==> '|' !in WordsOf(c)[i] && '!' !in WordsOf(c)[i])
  }

  function TextOf(c: Command): string
    requires GoodCommand(c)
  {
    Words.Spread(WordsOf(c), c.gaps)
  }

  /** A user pipe asks for its number; what is no int ends the server. */
  function Asks(uid: int, m: Mark, event: int -> Event): seq<Event> {
    match m
    case NoMark => []
    case Number(n) => [if -2147483648 <= n <= 2147483647 then event(n) else Throw(uid)]
    case Other(_) => [Throw(uid)]
  }

  /** A command receives first and sends then, however it is written. */
  function CommandEvents(uid: int, c: Command): seq<Event> {
    Asks(uid, c.input, n => Receive(uid, n)) + Asks(uid, c.output, n => Send(uid, n))
  }

  function PipelineEvents(uid: int, commands: seq<Command>): seq<Event> {
    if commands == [] then [] else CommandEvents(uid, commands[0]) + PipelineEvents(uid, commands[1..])
  }

  lemma NumberIs(n: int)
    ensures Text.Stoi(NumberText(n)) == if -2147483648 <= n <= 2147483647 then Text.Some(n) else Text.None
    ensures NumberText(n) != ""
  {
    var size: nat := if n < 0 then -n else n;
    var sign := if n < 0 then "-" else "";
    Words.StoiOfNumber("", sign, "", size, "");
    assert "" + (sign + ("" + Text.Decimal(size) + "")) == NumberText(n);
  }

  lemma OtherIs(word: string)
    requires GoodMark(Other(word))
    ensures Text.Stoi(word) == Text.None
  {
    Words.StoiOfOther("", "", word);
    assert "" + ("" + word) == word;
  }

  lemma MarkIs(uid: int, sign: char, m: Mark, event: int -> Event)
    requires GoodMark(m) && !m.NoMark?
    ensures var w := MarkWord(sign, m)[0];
      Marked(w, sign) && [Numbered(uid, w[1..], event)] == Asks(uid, m, event)
  {
    match m
    case Number(n) =>
      NumberIs(n);
      assert ([sign] + NumberText(n))[1..] == NumberText(n);
    case Other(word) =>
      OtherIs(word);
      assert ([sign] + word)[1..] == word;
  }

  /** The first marked word of a sequence is found. */
  lemma FoundMark(a: seq<string>, word: seq<string>, b: seq<string>, mark: char)
    requires |word| <= 1 && (word != [] ==> Marked(word[0], mark))
    requires Quiet(a, mark) && (word == [] ==> Quiet(b, mark))
    ensures var words := a + word + b;
      && FirstMarked(words, mark) == (if word == [] then |words| else |a|)
      && Without(words, FirstMarked(words, mark)) == a + b
      && (word != [] ==> words[|a|] == word[0])
  {
    var words := a + word + b;
    if word == [] {
      QuietBoth(a, b, mark);
      assert words == a + b;
    } else {
      assert words[|a|] == word[0];
      assert forall i :: 0 <= i < |a| ==> words[i] == a[i];
      assert words[..|a|] == a && words[|a| + 1..] == b;
    }
  }

  /** A redirection at the end, and only there, is taken off. */
  lemma FileTakenOff(words: seq<string>, file: seq<string>)
    requires words != [] && NoRedirection(words)
    requires file == [] || (|file| == 2 && file[0] == ">")
    ensures WithoutFile(words + file) == words
  {
    var all := words + file;
    if file == [] {
      assert all == words;
    } else {
      assert all[|all| - 2] == file[0] && all[..|words|] == words;
    }
  }

  /** A command whose words are, without the one that it reads, x with at most one word to write and then
      y and the redirection. */
  lemma Requested(uid: int, a: seq<string>, input: seq<string>, b: seq<string>,
                  x: seq<string>, output: seq<string>, y: seq<string>, file: seq<string>)
    requires |input| <= 1 && (input != [] ==> Marked(input[0], '<')) && Quiet(a, '<')
    requires input == [] ==> Quiet(b, '<')
    requires a + b == x + output + y + file && x != []
    requires |output| <= 1 && (output != [] ==> Marked(output[0], '>')) && Quiet(x, '>')
    requires output == [] ==> Quiet(y, '>')
    requires NoRedirection(x + output + y)
    requires file == [] || (|file| == 2 && file[0] == ">")
    ensures Requests(uid, a + input + b) ==
      (if input == [] then [] else [ReceiveEvent(uid, input[0][1..])]) +
      (if output == [] then [] else [SendEvent(uid, output[0][1..])])
  {
    FoundMark(a, input, b, '<');
    FileTakenOff(x + output + y, file);
    FoundMark(x, output, y, '>');
  }

  /** What the parts of a command have in common. */
  predicate Parts(a: seq<string>, input: seq<string>, between: seq<string>, output: seq<string>, after: seq<string>,
                  file: seq<string>)
  {
    && a != [] && |input| <= 1 && |output| <= 1 && (file == [] || (|file| == 2 && file[0] == ">"))
    && (input != [] ==> Marked(input[0], '<')) && (output != [] ==> Marked(output[0], '>'))
    && Quiet(a, '<') && Quiet(a, '>') && Quiet(output, '<')
    && (input == [] ==> Quiet(between, '<') && Quiet(after, '<') && Quiet(file, '<'))
    && (output == [] ==> Quiet(between, '>') && Quiet(after, '>'))
    && NoRedirection(a) && NoRedirection(between) && NoRedirection(after) && NoRedirection(output)
  }

  function Asked(uid: int, input: seq<string>, output: seq<string>): seq<Event>
    requires (input != [] ==> input[0] != "") && (output != [] ==> output[0] != "")
  {
    (if input == [] then [] else [ReceiveEvent(uid, input[0][1..])]) +
    (if output == [] then [] else [SendEvent(uid, output[0][1..])])
  }

  lemma Regrouped(a: seq<string>, b: seq<string>, c: seq<string>, d: seq<string>, e: seq<string>)
    ensures a + (b + c + d + e) == a + b + c + d + e
  {
  }

  lemma ReadFirst(uid: int, a: seq<string>, input: seq<string>, between: seq<string>, output: seq<string>,
                  after: seq<string>, file: seq<string>)
    requires Parts(a, input, between, output, after, file) && Quiet(between, '>')
    ensures Requests(uid, a + input + between + output + after + file) == Asked(uid, input, output)
  {
    hide Quiet, NoRedirection, Marked, Requests;
    var back := between + output + after + file;
    if input == [] {
      QuietBoth(between, output, '<');
      QuietBoth(between + output, after, '<');
      QuietBoth(between + output + after, file, '<');
    }
    QuietBoth(a, between, '>');
    NoneInBoth(a, between);
    NoneInBoth(a + between, output);
    NoneInBoth(a + between + output, after);
    Regrouped(a, between, output, after, file);
    Requested(uid, a, input, back, a + between, output, after, file);
    Regrouped(a + input, between, output, after, file);
  }

  lemma WriteFirst(uid: int, a: seq<string>, input: seq<string>, between: seq<string>, output: seq<string>,
                   after: seq<string>, file: seq<string>)
    requires Parts(a, input, between, output, after, file) && Quiet(between, '<')
    ensures Requests(uid, a + output + between + input + after + file) == Asked(uid, input, output)
  {
    hide Quiet, NoRedirection, Marked, Requests;
    var front := a + output + between;
    QuietBoth(a, output, '<');
    QuietBoth(a + output, between, '<');
    if input == [] { QuietBoth(after, file, '<'); }
    if output == [] { QuietBoth(between, after, '>'); }
    NoneInBoth(a, output);
    NoneInBoth(between, after);
    NoneInBoth(a + output, between + after);
    assert front + (after + file) == a + output + (between + after) + file;
    Requested(uid, front, input, after + file, a, output, between + after, file);
    assert front + input + (after + file) == a + output + between + input + after + file;
  }

  lemma CommandParts(c: Command)
    requires GoodCommand(c)
    ensures Parts([c.name] + c.before, MarkWord('<', c.input), c.between, MarkWord('>', c.output), c.after,
                  FileWords(c))
  {
    if !c.input.NoMark? { MarkIs(0, '<', c.input, n => Receive(0, n)); }
    if !c.output.NoMark? { MarkIs(0, '>', c.output, n => Send(0, n)); }
  }

  lemma AskedIs(uid: int, c: Command)
    requires GoodCommand(c)
    ensures var input, output := MarkWord('<', c.input), MarkWord('>', c.output);
      && (input != [] ==> input[0] != "") && (output != [] ==> output[0] != "")
      && Asked(uid, input, output) == CommandEvents(uid, c)
  {
    if !c.input.NoMark? { MarkIs(uid, '<', c.input, n => Receive(uid, n)); }
    if !c.output.NoMark? { MarkIs(uid, '>', c.output, n => Send(uid, n)); }
  }

  /** A typed command asks for its user pipes, the one to read first. */
  lemma RequestsTyped(uid: int, c: Command)
    requires GoodCommand(c)
    ensures Requests(uid, WordsOf(c)) == CommandEvents(uid, c)
  {
    hide Requests, Parts;
    var a, file := [c.name] + c.before, FileWords(c);
    var input, output := MarkWord('<', c.input), MarkWord('>', c.output);
    CommandParts(c);
    if c.swapped {
      WriteFirst(uid, a, input, c.between, output, c.after, file);
    } else {
      ReadFirst(uid, a, input, c.between, output, c.after, file);
    }
    AskedIs(uid, c);
  }

  // ---------------------------------------------------------------- lines

  predicate GoodCommands(commands: seq<Command>) {
    forall i :: 0 <= i < |commands| ==> GoodCommand(commands[i])
  }

  function TextsOf(commands: seq<Command>): (texts: seq<string>)
    requires GoodCommands(commands)
    ensures |texts| == |commands|
  {
    if commands == [] then [] else [TextOf(commands[0])] + TextsOf(commands[1..])
  }

  lemma {:induction false} NoBars(words: seq<string>, gaps: seq<string>)
    requires |words| == |gaps| + 1
    requires forall i :: 0 <= i < |words| ==> '|' !in words[i] && '!' !in words[i]
    requires forall i :: 0 <= i < |gaps| ==> Words.Gap(gaps[i], {' ', '\t', '\n', '\r'})
    ensures var text := Words.Spread(words, gaps); '|' !in text && '!' !in text
    decreases |gaps|
  {
    if gaps != [] {
      NoBars(words[1..], gaps[1..]);
      assert Words.Gap(gaps[0], {' ', '\t', '\n', '\r'});
      assert '|' !in words[0] && '!' !in words[0];
    }
  }

  lemma TextIsPlain(c: Command)
    requires GoodCommand(c)
    ensures LineParser.Plain(TextOf(c))
  {
    var words := WordsOf(c);
    Words.SpreadEnds(words, c.gaps, {' ', '\t', '\n', '\r'});
    var text := TextOf(c);
    Words.SameWhite(text[0]);
    Words.SameWhite(text[|text| - 1]);
    NoBars(words, c.gaps);
  }

  lemma {:induction false} TextsArePlain(commands: seq<Command>)
    requires GoodCommands(commands)
    ensures LineParser.AllPlain(TextsOf(commands))
  {
    if commands != [] {
      TextIsPlain(commands[0]);
      TextsArePlain(commands[1..]);
    }
  }

  lemma TokensTyped(c: Command)
    requires GoodCommand(c)
    ensures Text.Tokens(TextOf(c), WORD_BREAKS) == WordsOf(c)
  {
    var d := {' ', '\t', '\n', '\r'};
    assert WORD_BREAKS == d;
    Words.TokensOfWords("", WordsOf(c), c.gaps, "", d);
    assert "" + TextOf(c) + "" == TextOf(c);
  }

  lemma {:induction false} LineRequestsTyped(uid: int, commands: seq<Command>)
    requires GoodCommands(commands)
    ensures LineRequests(uid, TextsOf(commands)) == PipelineEvents(uid, commands)
  {
    if commands != [] {
      TokensTyped(commands[0]);
      RequestsTyped(uid, commands[0]);
      LineRequestsTyped(uid, commands[1..]);
      assert TextsOf(commands)[1..] == TextsOf(commands[1..]);
    }
  }

  /** The line does not begin like one that is no pipeline. */
  predicate NoKeyword(line: string) {
    && !("exit" <= line) && !("printenv " <= line) && !("setenv " <= line) && !("who" <= line)
    && !("name " <= line) && !("yell " <= line) && !("tell " <= line)
  }

  lemma PipelineIs(uid: int, line: string)
    requires NoKeyword(line) && line != "" && line != "\r"
    ensures var p := LineParser.Parse(line);
      LineEvents(uid, line, false) == if p.Parsed? then LineRequests(uid, p.commands) else [Throw(uid)]
  {
    assert Classify(line, false).Pipes?;
  }

  lemma PaddedLine(lead: string, texts: seq<string>, number: nat, pipeStderr: bool, trail: string)
    requires texts != [] && LineParser.AllPlain(texts) && Words.AllWhite(lead) && Words.AllWhite(trail)
    ensures var s := LineParser.Print(texts, number, pipeStderr);
      && LineParser.Parse(lead + s + trail) == LineParser.Parse(s)
      && lead + s + trail != "" && lead + s + trail != "\r"
  {
    hide LineParser.Join, LineParser.PipeInfo, Text.Tokens;
    var s := LineParser.Print(texts, number, pipeStderr);
    LineParser.JoinEnds(texts);
    assert LineParser.Plain(texts[0]) && s != "" && s[0] == texts[0][0];
    LineParser.PrintedIsTrimmed(texts, number, pipeStderr);
    Words.SameWhite(s[0]);
    Words.SameWhite(s[|s| - 1]);
    Words.TrimAround(lead, s, trail);
    Text.TrimOfTrimmed(s);
    assert (lead + s + trail)[|lead|] == s[0] != '\r';
  }

  /** A typed pipeline is exactly the user pipes of its commands, command by command; a destination that is
      no int ends the server. */
  lemma TypedPipeline(uid: int, lead: string, commands: seq<Command>, number: nat, pipeStderr: bool, trail: string)
    requires commands != [] && GoodCommands(commands) && (pipeStderr ==> number != 0)
    requires Words.AllWhite(lead) && Words.AllWhite(trail)
    requires NoKeyword(lead + LineParser.Print(TextsOf(commands), number, pipeStderr) + trail)
    ensures LineEvents(uid, lead + LineParser.Print(TextsOf(commands), number, pipeStderr) + trail, false) ==
      if number <= 2147483647 then PipelineEvents(uid, commands) else [Throw(uid)]
  {
    hide LineEvents, NoKeyword, LineParser.Print, LineParser.Parse;
    var texts := TextsOf(commands);
    TextsArePlain(commands);
    LineParser.ParsePrinted(texts, number, pipeStderr);
    PaddedLine(lead, texts, number, pipeStderr, trail);
    PipelineIs(uid, lead + LineParser.Print(texts, number, pipeStderr) + trail);
    LineRequestsTyped(uid, commands);
  }

  // ---------------------------------------------------------------- the other lines

  /** The words that execute looks for begin with different letters. */
  lemma OneKeyword(line: string, word: string)
    requires word in {"exit", "printenv ", "setenv ", "who", "name ", "yell ", "tell "} && word <= line
    ensures line != "" && line != "\r"
    ensures Classify(line, false) ==
      if word == "exit" then Leaves else if word == "setenv " then SetsEnv else if word == "name " then Names
      else if word == "tell " then Tells else Silent
  {
    assert line[0] == word[0];
  }

  /** `exit` leaves, whatever follows it, and so does the end of the input, except with an empty line. */
  lemma LeavingLines(uid: int, rest: string, failed: bool, line: string)
    ensures LineEvents(uid, "exit" + rest, failed) == [Leave(uid)]
    ensures line != "" && line != "\r" ==> LineEvents(uid, line, true) == [Leave(uid)]
    ensures LineEvents(uid, "", failed) == [] == LineEvents(uid, "\r", failed)
  {
    assert "exit" <= "exit" + rest;
    assert !("exit" <= "") && !("exit" <= "\r");
  }

  lemma QuietLines(uid: int, word: string, rest: string)
    requires word in {"printenv ", "who", "yell "}
    ensures LineEvents(uid, word + rest, false) == []
  {
    OneKeyword(word + rest, word);
  }

  lemma NameLine(uid: int, name: string)
    ensures LineEvents(uid, "name " + name, false) == [Name(uid, name)]
  {
    hide Classify;
    OneKeyword("name " + name, "name ");
    assert ("name " + name)[5..] == name;
  }

  lemma NumberHasNoBlank(n: int)
    ensures Text.Free(NumberText(n), {' '})
  {
  }

  /** `tell n text`, or without a text. */
  lemma TellLine(uid: int, n: int, text: string)
    requires text == "" || text[0] == ' '
    ensures LineEvents(uid, "tell " + (NumberText(n) + text), false) ==
      if -2147483648 <= n <= 2147483647 then [Tell(uid, n)] else [Throw(uid)]
  {
    hide Classify;
    var rest := NumberText(n) + text;
    OneKeyword("tell " + rest, "tell ");
    assert ("tell " + rest)[5..] == rest;
    NumberHasNoBlank(n);
    Text.FindAfter(NumberText(n), text, {' '});
    assert rest[..|NumberText(n)|] == NumberText(n);
    NumberIs(n);
  }

  lemma TellOther(uid: int, word: string, text: string)
    requires GoodMark(Other(word)) && ' ' !in word && (text == "" || text[0] == ' ')
    ensures LineEvents(uid, "tell " + (word + text), false) == [Throw(uid)]
  {
    hide Classify;
    var rest := word + text;
    OneKeyword("tell " + rest, "tell ");
    assert ("tell " + rest)[5..] == rest;
    Text.FindAfter(word, text, {' '});
    assert rest[..|word|] == word;
    OtherIs(word);
  }

  lemma SetEnvIs(uid: int, rest: string)
    ensures LineEvents(uid, "setenv " + rest, false) ==
      if |Text.Tokens([' '] + rest, WORD_BREAKS)| < 2 then [Throw(uid)] else []
  {
    hide Classify;
    OneKeyword("setenv " + rest, "setenv ");
    assert ("setenv " + rest)[6..] == [' '] + rest;
  }

  lemma WordsAfterBlank(lead: string, words: seq<string>, gaps: seq<string>, trail: string)
    requires Words.Typed(words, gaps, {' ', '\t', '\n', '\r'}) && Words.AllWhite(lead) && Words.AllWhite(trail)
    ensures Text.Tokens([' '] + (lead + Words.Spread(words, gaps) + trail), WORD_BREAKS) == words
  {
    var d, text := {' ', '\t', '\n', '\r'}, Words.Spread(words, gaps);
    assert WORD_BREAKS == d;
    Words.TokensOfWords([' '] + lead, words, gaps, trail, d);
    assert [' '] + lead + text + trail == [' '] + (lead + text + trail);
  }

  /** setenv takes two words; with one it ends the server. */
  lemma SetEnvLine(uid: int, lead: string, words: seq<string>, gaps: seq<string>, trail: string)
    requires Words.Typed(words, gaps, {' ', '\t', '\n', '\r'}) && Words.AllWhite(lead) && Words.AllWhite(trail)
    ensures LineEvents(uid, "setenv " + (lead + Words.Spread(words, gaps) + trail), false) ==
      if |words| == 1 then [Throw(uid)] else []
  {
    hide LineEvents, Text.Tokens, Words.Spread, Words.AllWhite;
    SetEnvIs(uid, lead + Words.Spread(words, gaps) + trail);
    WordsAfterBlank(lead, words, gaps, trail);
  }

  lemma NoTokens(blanks: string, d: set<char>)
    requires Words.AllWhite(blanks)
    ensures Text.Tokens(blanks, d) == [""]
  {
    Words.WhiteIsSpace(blanks);
    Text.TrimRightSpace("", blanks);
    assert "" + blanks == blanks;
    Text.SplitFree("", d);
    Text.TrimAllAt([""]);
  }

  lemma SetEnvNothing(uid: int, blanks: string)
    requires Words.AllWhite(blanks)
    ensures LineEvents(uid, "setenv " + blanks, false) == [Throw(uid)]
  {
    SetEnvIs(uid, blanks);
    NoTokens([' '] + blanks, WORD_BREAKS);
  }
}
