/** From the text of a line to its commands and its destination, and back. */
module LineParser {
  import Seqs
  import opened Text
  import Words

  /** What execute works with; BadNumber when stoi throws. */
  datatype Parsed = Parsed(commands: seq<string>, number: int, pipeStderr: bool) | BadNumber

  const BARS: set<char> := {'|', '!'}

  /** The text after the last blank. */
  function LastString(s: string): (r: string)
    ensures |r| <= |s| && s[|s| - |r|..] == r && Free(r, {' '})
    ensures |r| < |s| ==> s[|s| - |r| - 1] == ' '
  {
    if s == "" || s[|s| - 1] == ' ' then "" else LastString(s[..|s| - 1]) + [s[|s| - 1]]
  }

  /** The destination and whether stderr goes there, from the last string of a trimmed line. */
  function PipeInfo(s: string): Option<(int, bool)> {
    var last := LastString(s);
    if last == "" || last[0] !in BARS then Some((0, false))
    else
      match Stoi(last[1..])
      case Some(n) => Some((n, last[0] == '!'))
      case None => None
  }

  function Parse(line: string): Parsed {
    var copy := Trim(line);
    match PipeInfo(copy)
    case None => BadNumber
    case Some((number, pipeStderr)) =>
      var commands := Tokens(copy, BARS);
      Parsed(if number != 0 then commands[..|commands| - 1] else commands, number, pipeStderr)
  }

  /** The first steps of execute. */
  method ParseLine(line: string) returns (r: Parsed)
    ensures r == Parse(line)
  {
    var copy := Trim(line);
    var last := LastString(copy);
    var number, pipeStderr := 0, false;
    if last != "" && last[0] == '!' {
      pipeStderr := true;
    }
    if last != "" && (last[0] == '!' || last[0] == '|') {
      match Stoi(last[1..]) {
        case None => return BadNumber;
        case Some(n) => number := n;
      }
    }
    var commands := SplitAndTrim(copy, BARS);
    if number != 0 {
      commands := commands[..|commands| - 1];
    }
    return Parsed(commands, number, pipeStderr);
  }

  // ---------------------------------------------------------------- a printer, and the round trip

  /** A command that a printed line can hold. */
  predicate Plain(c: string) {
    Words.Word(c, {'|', '!'})
  }

  predicate AllPlain(commands: seq<string>) {
    forall i :: 0 <= i < |commands| ==> Plain(commands[i])
  }

  function Join(commands: seq<string>): string
    requires commands != []
  {
    if |commands| == 1 then commands[0] else commands[0] + " | " + Join(commands[1..])
  }

  function NumberWord(number: nat, pipeStderr: bool): string {
    [if pipeStderr then '!' else '|'] + Decimal(number)
  }

  function Suffix(number: nat, pipeStderr: bool): string {
    if number == 0 then "" else " " + NumberWord(number, pipeStderr)
  }

  /** The line that a user types. */
  function Print(commands: seq<string>, number: nat, pipeStderr: bool): string
    requires commands != []
  {
    Join(commands) + Suffix(number, pipeStderr)
  }

  /** The text before the last command. */
  function Lead(commands: seq<string>): (a: string)
    requires commands != []
    ensures a == "" || a[|a| - 1] == ' '
  {
    if |commands| == 1 then "" else commands[0] + " | " + Lead(commands[1..])
  }

  lemma {:induction false} JoinIsLead(commands: seq<string>)
    requires commands != []
    ensures Join(commands) == Lead(commands) + commands[|commands| - 1]
  {
    if |commands| > 1 {
      JoinIsLead(commands[1..]);
      Seqs.Assoc(commands[0] + " | ", Lead(commands[1..]), commands[|commands| - 1]);
    }
  }

  lemma JoinEnds(commands: seq<string>)
    requires commands != [] && forall i :: 0 <= i < |commands| ==> commands[i] != ""
    ensures Join(commands) != "" && Join(commands)[0] == commands[0][0]
    ensures var c := commands[|commands| - 1]; Join(commands)[|Join(commands)| - 1] == c[|c| - 1]
  {
    JoinIsLead(commands);
  }

  /** The last string does not look further back than a blank. */
  lemma {:induction false} LastAfter(a: string, b: string)
    requires a == "" || a[|a| - 1] == ' '
    ensures LastString(a + b) == LastString(b)
  {
    if b == "" {
      assert a + b == a;
    } else {
      var front := b[..|b| - 1];
      assert (a + b)[..|a + b| - 1] == a + front;
      assert (a + b)[|a + b| - 1] == b[|b| - 1];
      LastAfter(a, front);
    }
  }

  lemma {:induction false} LastOfFree(b: string)
    requires Free(b, {' '})
    ensures LastString(b) == b
  {
    if b != "" {
      LastOfFree(b[..|b| - 1]);
    }
  }

  lemma PrintedIsTrimmed(commands: seq<string>, number: nat, pipeStderr: bool)
    requires commands != [] && AllPlain(commands)
    ensures Trimmed(Print(commands, number, pipeStderr))
  {
    JoinEnds(commands);
    var s := Print(commands, number, pipeStderr);
    if number != 0 {
      assert s[|s| - 1] == Decimal(number)[|Decimal(number)| - 1];
    }
  }

  lemma PrintedIsText(commands: seq<string>, number: nat, pipeStderr: bool)
    requires commands != [] && AllPlain(commands)
    ensures Print(commands, number, pipeStderr) != ""
  {
    assert Plain(commands[0]);
    JoinEnds(commands);
  }

  lemma PlainInfo(commands: seq<string>)
    requires commands != [] && AllPlain(commands)
    ensures PipeInfo(Join(commands)) == Some((0, false))
  {
    var c := commands[|commands| - 1];
    JoinIsLead(commands);
    LastAfter(Lead(commands), c);
    var last := LastString(c);
    assert last != "" && last[0] == c[|c| - |last|];
  }

  lemma InfoOfWord(s: string, number: nat, pipeStderr: bool)
    requires number != 0 && LastString(s) == NumberWord(number, pipeStderr)
    ensures PipeInfo(s) == if number <= INT_MAX then Some((number, pipeStderr)) else None
  {
    assert NumberWord(number, pipeStderr)[1..] == Decimal(number);
    StoiOfDecimal(number);
  }

  lemma NumberedInfo(j: string, number: nat, pipeStderr: bool)
    requires number != 0
    ensures PipeInfo(j + Suffix(number, pipeStderr)) == if number <= INT_MAX then Some((number, pipeStderr)) else None
  {
    var word := NumberWord(number, pipeStderr);
    Seqs.Assoc(j, " ", word);
    LastAfter(j + " ", word);
    LastOfFree(word);
    InfoOfWord(j + " " + word, number, pipeStderr);
  }

  /** A separator ends a command; `p` is the blank that the separator before it has left. */
  lemma CommandToken(p: string, c: string, bar: char, rest: string)
    requires AllSpace(p) && Free(p, BARS) && Plain(c) && bar in BARS && rest != "" && rest[0] !in BARS
    ensures TrimAll(Split(p + c + " " + [bar] + rest, BARS)) == [c] + TrimAll(Split(rest, BARS))
  {
    SplitAt(p + c + " ", bar, rest, BARS);
    TrimPadded(p, c, " ");
  }

  lemma LastToken(p: string, c: string)
    requires AllSpace(p) && Free(p, BARS) && Plain(c)
    ensures TrimAll(Split(p + c, BARS)) == [c]
  {
    SplitFree(p + c, BARS);
    assert p + c + "" == p + c;
    TrimPadded(p, c, "");
  }

  lemma Flatten(p: string, c: string, b: string, bar: string, d: string)
    ensures p + (c + (b + (bar + d))) == p + c + b + bar + d
  {
    Seqs.Assoc(p, c, b + (bar + d));
    Seqs.Assoc(p + c, b, bar + d);
    Seqs.Assoc(p + c + b, bar, d);
  }

  lemma DecimalToken(number: nat)
    ensures TrimAll(Split(Decimal(number), BARS)) == [Decimal(number)]
  {
    SplitFree(Decimal(number), BARS);
    TrimOfTrimmed(Decimal(number));
  }

  lemma NumberToken(p: string, c: string, number: nat, pipeStderr: bool)
    requires AllSpace(p) && Free(p, BARS) && Plain(c) && number != 0
    ensures TrimAll(Split(p + (c + Suffix(number, pipeStderr)), BARS)) == [c] + [Decimal(number)]
  {
    var bar := if pipeStderr then '!' else '|';
    Flatten(p, c, " ", [bar], Decimal(number));
    CommandToken(p, c, bar, Decimal(number));
    DecimalToken(number);
  }

  /** The tokens of a printed line: its commands, and the number if there is one. */
  function Printed(commands: seq<string>, number: nat): seq<string> {
    commands + (if number == 0 then [] else [Decimal(number)])
  }

  lemma PrintedSplit(p: string, commands: seq<string>, number: nat, pipeStderr: bool)
    requires |commands| > 1
    ensures p + Print(commands, number, pipeStderr) ==
            p + commands[0] + " " + ['|'] + (" " + Print(commands[1..], number, pipeStderr))
  {
    var j, x := Join(commands[1..]), Suffix(number, pipeStderr);
    assert commands[0] + " | " + j + x == commands[0] + " " + ['|'] + (" " + (j + x));
  }

  lemma PrintedFront(commands: seq<string>, number: nat)
    requires commands != []
    ensures [commands[0]] + Printed(commands[1..], number) == Printed(commands, number)
  {
    Seqs.Assoc([commands[0]], commands[1..], if number == 0 then [] else [Decimal(number)]);
    assert commands == [commands[0]] + commands[1..];
  }

  lemma MoreTokens(p: string, commands: seq<string>, number: nat, pipeStderr: bool)
    requires AllSpace(p) && Free(p, BARS) && |commands| > 1 && AllPlain(commands)
    requires TrimAll(Split(" " + Print(commands[1..], number, pipeStderr), BARS)) == Printed(commands[1..], number)
    ensures TrimAll(Split(p + Print(commands, number, pipeStderr), BARS)) == Printed(commands, number)
  {
    var rest := " " + Print(commands[1..], number, pipeStderr);
    PrintedSplit(p, commands, number, pipeStderr);
    CommandToken(p, commands[0], '|', rest);
    PrintedFront(commands, number);
  }

  lemma {:induction false} PrintedTokens(p: string, commands: seq<string>, number: nat, pipeStderr: bool)
    requires AllSpace(p) && Free(p, BARS) && commands != [] && AllPlain(commands)
    ensures TrimAll(Split(p + Print(commands, number, pipeStderr), BARS)) == Printed(commands, number)
    decreases |commands|
  {
    if |commands| > 1 {
      PrintedTokens(" ", commands[1..], number, pipeStderr);
      MoreTokens(p, commands, number, pipeStderr);
    } else if number == 0 {
      LastToken(p, commands[0]);
      assert commands[0] + "" == commands[0];
    } else {
      NumberToken(p, commands[0], number, pipeStderr);
    }
  }

  /** Parsing a printed line gives the line back, if and only if its number fits an int; beyond that stoi
      throws. */
  lemma ParsePrinted(commands: seq<string>, number: nat, pipeStderr: bool)
    requires commands != [] && AllPlain(commands)
    requires pipeStderr ==> number != 0
    ensures Parse(Print(commands, number, pipeStderr)) ==
            if number <= INT_MAX then Parsed(commands, number, pipeStderr) else BadNumber
  {
    hide Join, Split, LastString, Stoi, Decimal, AllPlain;
    var s := Print(commands, number, pipeStderr);
    PrintedIsTrimmed(commands, number, pipeStderr);
    TrimOfTrimmed(s);
    if number == 0 {
      assert s == Join(commands);
      PlainInfo(commands);
    } else {
      NumberedInfo(Join(commands), number, pipeStderr);
    }
    assert "" + s == s;
    PrintedTokens("", commands, number, pipeStderr);
  }

  /** A line always has a command left after its number is popped. */
  lemma AlwaysACommand(line: string)
    ensures Parse(line).Parsed? ==> Parse(line).commands != []
  {
    var copy := Trim(line);
    var last := LastString(copy);
    TrimIsTrimmed(line);
    TrimOfTrimmed(copy);
    TrimAllAt(Split(copy, BARS));
    if last != "" && last[0] in BARS {
      assert copy[|copy| - |last|] in BARS;
      assert Find(copy, BARS) < |copy|;
    }
  }

  // ---------------------------------------------------------------- any line

  lemma LastIs(front: string, last: string)
    requires (front == "" || front[|front| - 1] == ' ') && ' ' !in last
    ensures LastString(front + last) == last
  {
    LastAfter(front, last);
    LastOfFree(last);
  }

  lemma BarTokens(s: string, pieces: seq<string>, gaps: seq<string>)
    requires Words.Pieces(pieces, gaps, {'|', '!'}) && Words.Spread(pieces, gaps) == s
    requires s != "" && !Words.White(s[0]) && !Words.White(s[|s| - 1])
    ensures Tokens(s, BARS) == seq(|pieces|, i requires 0 <= i < |pieces| => Trim(pieces[i]))
  {
    assert BARS == {'|', '!'};
    Words.SplitSpread(pieces, gaps, BARS);
    assert "" + s + "" == s;
    Words.TrimAround("", s, "");
    TrimAllAt(pieces);
  }

  /** Any line: white space, commands with bars between them, and white space. What comes after the last
      blank decides: with a bar before it, a number other than 0 is the destination and not a command, and
      what is no number ends the parse; without one, the line has no destination. */
  lemma ParseAny(lead: string, front: string, last: string, trail: string, pieces: seq<string>, gaps: seq<string>)
    requires Words.AllWhite(lead) && Words.AllWhite(trail)
    requires (front == "" || front[|front| - 1] == ' ') && ' ' !in last
    requires Words.Pieces(pieces, gaps, {'|', '!'}) && Words.Spread(pieces, gaps) == front + last != ""
    requires !Words.White((front + last)[0]) && last != "" && !Words.White(last[|last| - 1])
    ensures var commands, n := seq(|pieces|, i requires 0 <= i < |pieces| => Trim(pieces[i])), Stoi(last[1..]);
      Parse(lead + (front + last) + trail) ==
        if last[0] != '|' && last[0] != '!' then Parsed(commands, 0, false)
        else if n == None then BadNumber
        else if n.value == 0 then Parsed(commands, 0, last[0] == '!')
        else Parsed(commands[..|commands| - 1], n.value, last[0] == '!')
  {
    hide LastString, Tokens, Words.Pieces, Words.Spread, Stoi, Trim;
    var s := front + last;
    assert s[|s| - 1] == last[|last| - 1];
    Words.TrimAround(lead, s, trail);
    LastIs(front, last);
    BarTokens(s, pieces, gaps);
  }

  /** A line of white space is one empty command. */
  lemma ParseBlank(blanks: string)
    requires Words.AllWhite(blanks)
    ensures Parse(blanks) == Parsed([""], 0, false)
  {
    Words.WhiteIsSpace(blanks);
    TrimRightSpace("", blanks);
    assert "" + blanks == blanks;
    SplitFree("", BARS);
    TrimAllAt([""]);
  }
}
