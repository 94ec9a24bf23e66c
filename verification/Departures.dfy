/** Sessions that a shell can be brought into and in which a line's output does not go where the line
    was sent: the exceptions of the results about runs are reachable. */
module Departures {
  import opened Kernel
  import opened Session
  import opened Runs
  import opened Engine
  import LineParser
  import Text

  const TERMINAL: Table := map[STDIN := Device, STDOUT := Device, STDERR := Device]

  method RunLine(shell: Shell, commands: seq<string>, destination: nat, pipeStderr: bool)
    requires shell.Valid() && commands != [] && destination < WINDOW
    modifies shell, shell.fds, shell.pipes.pipesFd
    ensures shell.Valid()
    ensures shell.View().lines == old(shell.View().lines) + [Pipeline(commands, destination, pipeStderr)]
  {
    shell.RunPipeline(commands, destination, pipeStderr);
  }

  /** `ls |1` and then a built-in line. */
  method BuiltInDestination() returns (shell: Shell)
    ensures shell.Valid() && SentToBuiltIn(shell.View())
  {
    shell := new Shell(TERMINAL, _ => true);
    RunLine(shell, ["ls"], 1, false);
    ghost var s1 := shell.View();
    shell.RunBuiltIn();
    assert shell.View().lines == s1.lines + [BuiltIn];
    assert Sent(shell.View().lines, 0, 1);
  }

  /** 51 stages with `|1`: the destination has a pipe, and the last stage does not write it. */
  method SlicedDestination() returns (shell: Shell)
    ensures shell.Valid() && HasLast(shell.View(), 0) && shell.View().lines[0].destination == 1
    ensures !WritesOut(shell.View().processes[LastStage(shell.View(), 0)], WriteEnd(shell.View().pipeOf[1]))
  {
    hide Redirects, FileOf, Reachable, Initial;
    shell := new Shell(TERMINAL, _ => true);
    var commands := seq(51, _ => "cat");
    RunLine(shell, commands, 1, false);
    Delivery(shell.View(), 0);
  }

  lemma SecondShares(lines: seq<Line>)
    requires lines == [Pipeline(["ls"], 2, true), Pipeline(["ls"], 1, true)]
    ensures Shared(lines, 1)
  {
    assert lines[0].destination == 2;
  }

  /** `ls !2` and then `ls !1`, to the same line: the second leaves its standard error at the terminal. */
  method SharedErrors() returns (shell: Shell)
    ensures shell.Valid() && HasLast(shell.View(), 1) && shell.View().lines[1] == Pipeline(["ls"], 1, true)
    ensures Errors(shell.View().processes[LastStage(shell.View(), 1)]) == Device
  {
    hide Redirects, Reachable, Initial;
    shell := new Shell(TERMINAL, _ => true);
    RunLine(shell, ["ls"], 2, true);
    RunLine(shell, ["ls"], 1, true);
    SecondShares(shell.View().lines);
    ErrorDelivery(shell.View(), 1);
  }

  predicate Word(s: string) {
    s != "" && Text.Trimmed(s) && Text.Free(s, Text.BLANKS)
  }

  lemma TwoTokens(a: string, b: string)
    requires Text.Free(a, Text.BLANKS) && Text.Free(b, Text.BLANKS) && b != "" && b[0] !in Text.BLANKS
    ensures Text.Split(a + [' '] + b, Text.BLANKS) == [a] + [b]
  {
    Text.SplitAt(a, ' ', b, Text.BLANKS);
    Text.SplitFree(b, Text.BLANKS);
  }

  lemma Between(command: string, tail: string, a: string)
    requires command != "" && Text.Trimmed(command) && Word(a) && a <= tail
    ensures Text.Split(command + [' '] + tail, Text.BLANKS) ==
      Text.Split(command, Text.BLANKS) + Text.Split(tail, Text.BLANKS)
  {
    assert tail[0] == a[0];
    Text.SplitBetween(command, ' ', tail, Text.BLANKS);
  }

  lemma MoreTokens(command: string, a: string, b: string)
    requires command != "" && Text.Trimmed(command) && Word(a) && Word(b)
    ensures Text.Split(command + [' '] + (a + [' '] + b), Text.BLANKS) == Text.Split(command, Text.BLANKS) + ([a] + [b])
  {
    TwoTokens(a, b);
    Between(command, a + [' '] + b, a);
  }

  lemma TrimmedEnds(command: string, a: string, b: string)
    requires command != "" && Text.Trimmed(command) && Word(a) && Word(b)
    ensures Text.Trimmed(command + [' '] + (a + [' '] + b))
  {
    var text := command + [' '] + (a + [' '] + b);
    assert text[0] == command[0] && text[|text| - 1] == b[|b| - 1];
  }

  lemma LastTokens(words: seq<string>, a: string, b: string)
    requires words != [] && Text.Trimmed(a) && Text.Trimmed(b)
    ensures var t := Text.TrimAll(words + ([a] + [b])); |t| > 2 && t[|t| - 2] == a && t[|t| - 1] == b
  {
    Text.TrimAllAt(words + ([a] + [b]));
    Text.TrimOfTrimmed(a);
    Text.TrimOfTrimmed(b);
  }

  lemma RedirectsIf(text: string, front: seq<string>, mark: string, file: string)
    requires Text.Trimmed(text) && Text.Split(text, Text.BLANKS) == front + ([mark] + [file])
    requires front != [] && mark == ">" && Text.Trimmed(mark) && Text.Trimmed(file)
    ensures Redirects(text) && FileOf(text) == file
  {
    Text.TrimOfTrimmed(text);
    LastTokens(front, mark, file);
  }

  /** The usual spelling of a redirection is one. */
  lemma RedirectsTo(command: string, mark: string, file: string, text: string)
    requires command != "" && Text.Trimmed(command) && mark == ">" && Word(mark) && Word(file)
    requires text == command + [' '] + (mark + [' '] + file)
    ensures Redirects(text) && FileOf(text) == file
  {
    TrimmedEnds(command, mark, file);
    MoreTokens(command, mark, file);
    RedirectsIf(text, Text.Split(command, Text.BLANKS), mark, file);
  }

  lemma LsToFile()
    ensures Redirects("ls > f") && FileOf("ls > f") == "f"
  {
    assert "ls > f" == "ls" + [' '] + (">" + [' '] + "f");
    RedirectsTo("ls", ">", "f", "ls > f");
  }

  /** `ls > f |1`: the file gets the output, and the pipe of the destination does not. */
  method RedirectedDestination() returns (shell: Shell)
    ensures shell.Valid() && HasLast(shell.View(), 0) && shell.View().lines[0] == Pipeline(["ls > f"], 1, false)
    ensures Output(shell.View().processes[LastStage(shell.View(), 0)]) == File("f")
  {
    hide Redirects, FileOf, Reachable, Initial;
    shell := new Shell(TERMINAL, _ => true);
    RunLine(shell, ["ls > f"], 1, false);
    LsToFile();
    Delivery(shell.View(), 0);
  }

  /** `ls > f` where f cannot be opened: the command does not run. */
  method RefusedFile() returns (shell: Shell)
    ensures shell.Valid() && HasLast(shell.View(), 0) && shell.View().lines[0] == Pipeline(["ls > f"], 0, false)
    ensures var last := shell.View().processes[LastStage(shell.View(), 0)]; !last.started && last.faults == 1
  {
    hide Redirects, FileOf, Reachable, Initial;
    shell := new Shell(TERMINAL, _ => false);
    RunLine(shell, ["ls > f"], 0, false);
    LsToFile();
    Delivery(shell.View(), 0);
    NoFaults(shell.View());
  }

  // ---------------------------------------------------------------- typed lines

  /** Commands typed with bars between them, and perhaps a destination, are run as exactly that line. */
  method TypePipeline(shell: Shell, commands: seq<string>, number: nat, pipeStderr: bool, input: string)
    requires shell.Valid() && commands != [] && LineParser.AllPlain(commands)
    requires number < 1500 && (pipeStderr ==> number != 0) && input == LineParser.Print(commands, number, pipeStderr)
    requires !("exit" <= input || "printenv " <= input || "setenv " <= input || "unsetenv " <= input)
    modifies shell, shell.fds, shell.pipes.pipesFd
    ensures shell.Valid() && Step(old(shell.View()), Pipeline(commands, number, pipeStderr), shell.View())
  {
    hide LineParser.Parse, LineParser.Print, Step;
    LineParser.ParsePrinted(commands, number, pipeStderr);
    LineParser.PrintedIsText(commands, number, pipeStderr);
    var alive := shell.Handle(input, false);
  }

  /** A line for the environment uses up a slot. */
  method TypeEnvironment(shell: Shell, word: string, rest: string)
    requires shell.Valid() && word in {"printenv", "setenv", "unsetenv"} && InReach(word + " " + rest)
    modifies shell, shell.fds, shell.pipes.pipesFd
    ensures shell.Valid() && Step(old(shell.View()), BuiltIn, shell.View())
  {
    hide LineParser.Parse, Step;
    var input := word + " " + rest;
    assert word + " " <= input;
    assert "printenv" + " " == "printenv " && "setenv" + " " == "setenv " && "unsetenv" + " " == "unsetenv ";
    var alive := shell.Handle(input, false);
  }
}
