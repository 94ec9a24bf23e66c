/** A session of the shell, seen from outside: which process reads and writes which pipe.

    Lines that use up a slot of the window are numbered from 0. The shell itself only knows
    distances (`|N` is "N lines from now"); here every destination is an absolute line number. */
module Session {
  import opened Kernel
  import Text

  const WINDOW: nat := 1500   // length of redirection_info
  const CHUNK: nat := 50      // the longest pipeline that is run in one piece

  datatype Node = Node(input: int, output: int, error: int, writeEnd: int)

  const DEFAULT_NODE := Node(STDIN, STDOUT, STDERR, -1)

  /** A forked child; its pid is its index in fork order. `table` is what it holds once it is connected
      to its stage, and `exec` what it holds when it calls exec; a child that throws instead is not started. */
  datatype Process = Process(command: string, table: Table, exec: Table, faults: nat, started: bool)

  /** The command ends in `> file`, after at least one word. */
  predicate Redirects(command: string) {
    var words := Text.Tokens(command, Text.BLANKS);
    |words| > 2 && words[|words| - 2] == ">"
  }

  function FileOf(command: string): string
    requires Redirects(command)
  {
    var words := Text.Tokens(command, Text.BLANKS);
    words[|words| - 1]
  }

  /** A redirection replaces the standard output of the stage, and nothing else. If its file cannot be
      opened, one call misses and the command does not run. */
  predicate AtExec(p: Process, openable: bool) {
    && (p.started <==> !Redirects(p.command) || openable)
    && p.faults == (if p.started then 0 else 1)
    && p.exec == if Redirects(p.command) && openable then p.table[STDOUT := File(FileOf(p.command))] else p.table
  }

  /** The child with pid `pid`; `opens` says which children can open the file of their redirection. */
  predicate ChildAtExec(opens: nat -> bool, procs: seq<Process>, pid: nat)
    requires pid < |procs|
  {
    AtExec(procs[pid], opens(pid))
  }

  predicate AtExecFrom(opens: nat -> bool, procs: seq<Process>, from: nat) {
    forall pid :: from <= pid < |procs| ==> ChildAtExec(opens, procs, pid)
  }

  lemma AtExecSnoc(opens: nat -> bool, procs: seq<Process>, p: Process)
    requires AtExecFrom(opens, procs, 0) && AtExec(p, opens(|procs|))
    ensures AtExecFrom(opens, procs + [p], 0)
  {
    forall pid: nat | pid < |procs| + 1 ensures ChildAtExec(opens, procs + [p], pid) {
      if pid < |procs| { assert ChildAtExec(opens, procs, pid); }
    }
  }

  predicate Ready(p: Process) {
    {STDIN, STDOUT, STDERR} <= p.table.Keys
  }

  /** The ends that a child's stage is connected to. */
  function In(p: Process): End { if STDIN in p.table then p.table[STDIN] else Device }

  function Out(p: Process): End { if STDOUT in p.table then p.table[STDOUT] else Device }

  function Err(p: Process): End { if STDERR in p.table then p.table[STDERR] else Device }

  /** Where its command reads and writes. */
  function Input(p: Process): End { if STDIN in p.exec then p.exec[STDIN] else Device }

  function Output(p: Process): End { if STDOUT in p.exec then p.exec[STDOUT] else Device }

  function Errors(p: Process): End { if STDERR in p.exec then p.exec[STDERR] else Device }

  /** A line that uses up a slot: a pipeline for fork and exec, or printenv, setenv, unsetenv. */
  datatype Line =
    | Pipeline(commands: seq<string>, destination: nat, pipeStderr: bool)
    | BuiltIn

  predicate WellFormed(line: Line) {
    line.Pipeline? ==> |line.commands| > 0 && line.destination < WINDOW
  }

  function Count(line: Line): nat { if line.Pipeline? then |line.commands| else 0 }

  /** The line's own output goes to the line `destination` lines later. A pipeline that has to be
      sliced does not deliver: its last stage writes to the terminal. */
  predicate Delivers(line: Line) {
    line.Pipeline? && line.destination != 0 && |line.commands| <= CHUNK
  }

  datatype State = State(
    window: seq<Node>,
    table: Table,
    nextPipe: nat,
    processes: seq<Process>,
    terminated: set<nat>,     // pids that waitpid has waited for
    faults: nat,
    lines: seq<Line>,         // the lines so far
    first: seq<nat>,          // the pid of each line's first stage
    pipeOf: map<nat, nat>,    // the numbered pipe made for a destination line
    opens: nat -> bool)       // whether the child with a pid can open the file it is redirected to

  /** `node` holds the two ends of pipe `p`. */
  predicate Pending(t: Table, node: Node, p: nat) {
    && node.input != STDIN && node.output == STDOUT && node.error == STDERR
    && node.input in t && t[node.input] == ReadEnd(p)
    && node.writeEnd in t && t[node.writeEnd] == WriteEnd(p)
  }

  function Entry(node: Node): set<int> {
    if node.input != STDIN then {node.input, node.writeEnd} else {}
  }

  // ---------------------------------------------------------------- one line

  /** The processes of one pipeline, connected stage to stage by pipes of their own in [lo, hi). */
  predicate Wired(procs: seq<Process>, line: Line, input: End, output: End, error: End, lo: nat, hi: nat)
    requires line.Pipeline?
  {
    var n := |line.commands|;
    && |procs| == n
    && (forall k :: 0 <= k < n ==> Ready(procs[k]) && procs[k].command == line.commands[k])
    && (n > 0 ==> In(procs[0]) == input && Out(procs[n - 1]) == output && Err(procs[n - 1]) == error)
    && (forall k :: 0 <= k < n - 1 ==>
          && Out(procs[k]).WriteEnd? && lo <= Out(procs[k]).pipe < hi
          && Err(procs[k]) == if line.pipeStderr then Out(procs[k]) else Device)
    && (forall j, k :: 0 <= j < n - 1 && k == j + 1 ==>
          Out(procs[j]).WriteEnd? && In(procs[k]) == ReadEnd(Out(procs[j]).pipe))
    && (forall j, k :: 0 <= j < k < n - 1 ==> Out(procs[j]) != Out(procs[k]))
  }

  /** Stage k holds write ends only of pipes open before the line (except the one the line reads),
      of its destination, and of pipes that stage k or a later stage writes. */
  ghost predicate HoldsOnly(procs: seq<Process>, before: Table, front: Node, target: End) {
    forall k, p: nat {:trigger Has(procs[k].table, WriteEnd(p))} |
        0 <= k < |procs| && Has(procs[k].table, WriteEnd(p)) ::
      || Has(before - Entry(front), WriteEnd(p))
      || target == WriteEnd(p)
      || exists l :: k <= l < |procs| && Out(procs[l]) == WriteEnd(p)
  }

  /** The destination has no pipe yet, so that the line makes one. */
  predicate MakesPipe(s: State, line: Line) {
    line.Pipeline? && line.destination != 0 && |s.lines| + line.destination !in s.pipeOf
  }

  /** The table after opening the destination's pipe. */
  function WithTarget(s: State, line: Line, node: Node): Table {
    if MakesPipe(s, line)
    then s.table[node.input := ReadEnd(s.nextPipe)][node.writeEnd := WriteEnd(s.nextPipe)]
    else s.table
  }

  function NewPipeOf(s: State, line: Line): map<nat, nat> {
    if MakesPipe(s, line) then s.pipeOf[|s.lines| + line.destination := s.nextPipe] else s.pipeOf
  }

  function Target(s: State, line: Line): End {
    if line.Pipeline? && line.destination != 0 && |s.lines| + line.destination in NewPipeOf(s, line)
    then WriteEnd(NewPipeOf(s, line)[|s.lines| + line.destination]) else Device
  }

  /** What the line records: its number, and its destination's new pipe. */
  ghost predicate HistoryStep(s: State, line: Line, s': State) {
    && s'.lines == s.lines + [line]
    && s'.first == s.first + [|s.processes|]
    && s'.pipeOf == NewPipeOf(s, line) && s'.opens == s.opens
    && s'.nextPipe >= s.nextPipe + (if MakesPipe(s, line) then 1 else 0)
  }

  /** The node that the line leaves at its destination, if it makes a pipe for it. */
  function TargetNode(s: State, line: Line, s': State): Node {
    if MakesPipe(s, line) && 0 < line.destination <= |s'.window| then s'.window[line.destination - 1] else DEFAULT_NODE
  }

  /** One slot is used up, and no node but the destination's has changed. */
  predicate WindowStep(s: State, line: Line, s': State)
    requires WellFormed(line) && |s.window| == WINDOW
  {
    var slid, node := s.window[1..] + [DEFAULT_NODE], TargetNode(s, line, s');
    && s'.window == (if MakesPipe(s, line) then slid[line.destination - 1 := node] else slid)
    && (MakesPipe(s, line) ==>
          && node.input != STDIN && node.output == STDOUT && node.error == STDERR
          && node.input !in s.table && node.writeEnd !in s.table && node.input != node.writeEnd)
  }

  /** The pipe that the line reads is closed and its destination's is open; nothing else has changed. */
  predicate TableStep(s: State, line: Line, s': State)
    requires |s.window| == WINDOW
  {
    && s'.table == WithTarget(s, line, TargetNode(s, line, s')) - Entry(s.window[0])
    && s'.faults == s.faults
  }

  predicate Forked(s: State, s': State, n: nat) {
    |s'.processes| == |s.processes| + n && s.processes == s'.processes[..|s.processes|]
  }

  /** The children of the newest line. */
  function Children(s: State, s': State): seq<Process>
    requires |s.processes| <= |s'.processes|
  {
    s'.processes[|s.processes|..]
  }

  /** The number of the first pipe between two stages. */
  function FirstInner(s: State, line: Line): nat {
    s.nextPipe + (if MakesPipe(s, line) then 1 else 0)
  }

  predicate WiredStep(s: State, line: Line, s': State)
    requires line.Pipeline? && |s.window| == WINDOW && |s.processes| <= |s'.processes|
  {
    Wired(Children(s, s'), line,
          if s.window[0].input in s.table then s.table[s.window[0].input] else Device,
          if Delivers(line) then Target(s, line) else Device,
          if Delivers(line) && line.pipeStderr && MakesPipe(s, line) then Target(s, line) else Device,
          FirstInner(s, line), s'.nextPipe)
  }

  ghost predicate ChildrenStep(s: State, line: Line, s': State)
    requires line.Pipeline? && |s.window| == WINDOW
  {
    && Forked(s, s', |line.commands|)
    && WiredStep(s, line, s')
    && HoldsOnly(Children(s, s'), s.table, s.window[0], Target(s, line))
    && AtExecFrom(s.opens, s'.processes, |s.processes|)
  }

  /** The prompt waits for all of the line's children, or for none. */
  ghost predicate WaitStep(s: State, line: Line, s': State) {
    forall pid :: pid in s'.terminated <==>
      pid in s.terminated || (!Delivers(line) && |s.processes| <= pid < |s'.processes|)
  }

  /** What one line does to the session. */
  ghost predicate Step(s: State, line: Line, s': State)
    requires WellFormed(line) && |s.window| == WINDOW
  {
    match line
    case Pipeline(_, _, _) =>
      && HistoryStep(s, line, s')
      && WindowStep(s, line, s')
      && TableStep(s, line, s')
      && ChildrenStep(s, line, s')
      && WaitStep(s, line, s')
    case BuiltIn =>
      s' == s.(window := s.window[1..] + [DEFAULT_NODE],
               lines := s.lines + [line], first := s.first + [|s.processes|])
  }

  // ---------------------------------------------------------------- the invariant

  /** Slot i of the window belongs to the line i lines from now. */
  predicate SlotInv(s: State, i: nat)
    requires i < |s.window|
  {
    var t := |s.lines| + i;
    if t in s.pipeOf then Pending(s.table, s.window[i], s.pipeOf[t]) else s.window[i] == DEFAULT_NODE
  }

  /** Every destination within reach has at most one pipe, and no two share one. */
  predicate PipesInv(s: State) {
    && (forall t :: t in s.pipeOf ==> t < |s.lines| + WINDOW && s.pipeOf[t] < s.nextPipe)
    && (forall t, u :: t in s.pipeOf && u in s.pipeOf && s.pipeOf[t] == s.pipeOf[u] ==> t == u)
  }

  predicate WindowInv(s: State) {
    && |s.window| == WINDOW
    && (forall i :: 0 <= i < WINDOW ==> SlotInv(s, i))
    && PipesInv(s)
  }

  /** The shell keeps the numbered pipe `p` open: its destination is still to come, or it was a
      built-in line, which drops its node without closing the pipe. */
  ghost predicate Live(s: State, p: nat) {
    exists t :: t in s.pipeOf && s.pipeOf[t] == p && (t >= |s.lines| || s.lines[t].BuiltIn?)
  }

  /** No two descriptors share a pipe end. */
  predicate Unshared(t: Table) {
    forall a, b :: a in t && b in t && t[a] == t[b] && t[a] != Device ==> a == b
  }

  /** The shell itself opens no files. */
  predicate NoFiles(t: Table) {
    forall fd :: fd in t ==> !t[fd].File?
  }

  ghost predicate TableInv(s: State) {
    && Standard(s.table)
    && Unshared(s.table) && NoFiles(s.table)
    && (forall p: nat :: Has(s.table, ReadEnd(p)) <==> Live(s, p))
    && (forall p: nat :: Has(s.table, WriteEnd(p)) <==> Live(s, p))
  }

  /** Every holder of a write end comes before the reader, and the shell itself is no holder. */
  ghost predicate EofInv(s: State) {
    && (forall i, j, p: nat {:trigger Has(s.processes[i].table, WriteEnd(p)), In(s.processes[j])} |
          0 <= i < |s.processes| && 0 <= j < |s.processes| ::
          Has(s.processes[i].table, WriteEnd(p)) && In(s.processes[j]) == ReadEnd(p) ==> i < j)
    && (forall j, p: nat :: 0 <= j < |s.processes| && In(s.processes[j]) == ReadEnd(p) ==> !Has(s.table, WriteEnd(p)))
    && (forall i, p: nat {:trigger Has(s.processes[i].table, WriteEnd(p))} | 0 <= i < |s.processes| ::
          Has(s.processes[i].table, WriteEnd(p)) ==> p < s.nextPipe)
    && (forall j, p: nat :: 0 <= j < |s.processes| && In(s.processes[j]) == ReadEnd(p) ==> p < s.nextPipe)
  }

  /** An earlier line was sent to the same destination as line t. */
  predicate Shared(lines: seq<Line>, t: nat)
    requires t < |lines| && lines[t].Pipeline?
  {
    exists u :: 0 <= u < t && lines[u].Pipeline? && lines[u].destination != 0
                && u + lines[u].destination == t + lines[t].destination
  }

  /** The children of line t. */
  function Stages(s: State, t: nat): seq<Process>
    requires t < |s.lines| && |s.first| == |s.lines| && s.first[t] + Count(s.lines[t]) <= |s.processes|
  {
    s.processes[s.first[t]..s.first[t] + Count(s.lines[t])]
  }

  function LineInput(s: State, t: nat): End {
    if t in s.pipeOf then ReadEnd(s.pipeOf[t]) else Device
  }

  function LineOutput(s: State, t: nat): End
    requires t < |s.lines|
    requires Delivers(s.lines[t]) ==> t + s.lines[t].destination in s.pipeOf
  {
    if Delivers(s.lines[t]) then WriteEnd(s.pipeOf[t + s.lines[t].destination]) else Device
  }

  /** Only the first line sent to a destination sends its stderr there too. */
  function LineError(s: State, t: nat): End
    requires t < |s.lines|
    requires Delivers(s.lines[t]) ==> t + s.lines[t].destination in s.pipeOf
  {
    if Delivers(s.lines[t]) && s.lines[t].pipeStderr && !Shared(s.lines, t) then LineOutput(s, t) else Device
  }

  predicate LineWired(s: State, t: nat)
    requires t < |s.lines| && |s.first| == |s.lines| && s.first[t] + Count(s.lines[t]) <= |s.processes|
    requires s.lines[t].Pipeline? && (s.lines[t].destination != 0 ==> t + s.lines[t].destination in s.pipeOf)
  {
    var line := s.lines[t];
    Wired(Stages(s, t), line, LineInput(s, t), LineOutput(s, t), LineError(s, t), 0, s.nextPipe)
  }

  /** `e` is the write end of a destination's pipe. */
  ghost predicate Numbered(pipeOf: map<nat, nat>, e: End) {
    exists d :: d in pipeOf && e == WriteEnd(pipeOf[d])
  }

  /** Line t read, wrote and was wired as its destination and the destinations of earlier lines say. */
  ghost predicate LineInv(s: State, t: nat)
    requires t < |s.lines| && |s.first| == |s.lines|
  {
    var line := s.lines[t];
    && s.first[t] + Count(line) <= |s.processes|
    && WellFormed(line)
    && (line.Pipeline? && line.destination != 0 ==> t + line.destination in s.pipeOf)
    && (line.Pipeline? ==>
          && LineWired(s, t)
          && (forall k :: 0 <= k < Count(line) - 1 ==> !Numbered(s.pipeOf, Out(Stages(s, t)[k]))))
  }

  ghost predicate LinesInv(s: State) {
    && |s.first| == |s.lines|
    && forall t :: 0 <= t < |s.lines| ==> LineInv(s, t)
  }

  /** The children of consecutive lines lie next to each other. */
  predicate LayoutInv(s: State) {
    && |s.first| == |s.lines|
    && (forall t, u :: 0 <= t < |s.lines| - 1 && u == t + 1 ==> s.first[u] == s.first[t] + Count(s.lines[t]))
    && (if s.lines == [] then s.processes == []
        else s.first[0] == 0 && |s.processes| == s.first[|s.lines| - 1] + Count(s.lines[|s.lines| - 1]))
  }

  predicate Routes(line: Line, t: nat, d: nat) {
    line.Pipeline? && line.destination != 0 && t + line.destination == d
  }

  /** Only a line that was routed makes a numbered pipe. */
  ghost predicate SourcesInv(s: State) {
    forall d :: d in s.pipeOf ==> exists t :: 0 <= t < |s.lines| && Routes(s.lines[t], t, d)
  }

  /** A pipe written by two processes is a numbered pipe. */
  ghost predicate WritersInv(s: State) {
    forall a, b | 0 <= a < b < |s.processes| && Out(s.processes[a]) == Out(s.processes[b]) ::
      Out(s.processes[a]) == Device || Numbered(s.pipeOf, Out(s.processes[a]))
  }

  ghost predicate RouteInv(s: State) {
    LinesInv(s) && LayoutInv(s) && SourcesInv(s) && WritersInv(s)
  }

  ghost predicate Inv(s: State) {
    WindowInv(s) && TableInv(s) && EofInv(s) && RouteInv(s) && AtExecFrom(s.opens, s.processes, 0)
  }

  // ---------------------------------------------------------------- every step keeps it

  lemma StepKeepsSlot(s: State, line: Line, s': State, i: nat)
    requires WindowInv(s) && line.Pipeline? && WellFormed(line) && i < WINDOW
    requires HistoryStep(s, line, s') && WindowStep(s, line, s') && TableStep(s, line, s')
    ensures SlotInv(s', i)
  {
    assert SlotInv(s, 0);
    if i == WINDOW - 1 {
      assert |s.lines| + WINDOW !in s.pipeOf;
    } else {
      assert SlotInv(s, i + 1);
      assert s.window[1..][i] == s.window[i + 1];
    }
  }

  lemma StepKeepsWindow(s: State, line: Line, s': State)
    requires WindowInv(s) && WellFormed(line) && Step(s, line, s')
    ensures WindowInv(s')
  {
    forall i | 0 <= i < WINDOW ensures SlotInv(s', i) {
      if line.Pipeline? {
        StepKeepsSlot(s, line, s', i);
      } else {
        assert i < WINDOW - 1 ==> SlotInv(s, i + 1);
      }
    }
  }

  /** `p` is the pipe that the next line reads. */
  predicate IsEntry(s: State, p: nat) {
    |s.lines| in s.pipeOf && s.pipeOf[|s.lines|] == p
  }

  /** After a pipeline, the pipe it read is no longer live and its new destination's is. */
  lemma LiveAfter(s: State, line: Line, s': State, p: nat)
    requires WindowInv(s) && WellFormed(line) && line.Pipeline? && HistoryStep(s, line, s')
    ensures Live(s', p) <==> (Live(s, p) && !IsEntry(s, p)) || (MakesPipe(s, line) && p == s.nextPipe)
  {
    var now := |s.lines|;
    forall t | 0 <= t < |s.lines| ensures s'.lines[t] == s.lines[t] {}
    assert s'.lines[now] == line;
    if Live(s', p) {
      var t: nat :| t in s'.pipeOf && s'.pipeOf[t] == p && (t >= now + 1 || s'.lines[t].BuiltIn?);
      assert t in s.pipeOf || (MakesPipe(s, line) && p == s.nextPipe);
    }
    if MakesPipe(s, line) && p == s.nextPipe {
      assert now + line.destination in s'.pipeOf;
    }
    if Live(s, p) {
      var t: nat :| t in s.pipeOf && s.pipeOf[t] == p && (t >= now || s.lines[t].BuiltIn?);
      assert t in s'.pipeOf && s'.pipeOf[t] == p;
    }
  }

  lemma HasWithout(t: Table, gone: set<int>, e: End)
    requires forall a, b :: a in t && b in t && t[a] == t[b] == e ==> a == b
    ensures Has(t - gone, e) <==> Has(t, e) && !exists fd :: fd in gone && fd in t && t[fd] == e
  {
    if fd :| fd in t && t[fd] == e {
      assert fd !in gone ==> fd in t - gone && (t - gone)[fd] == e;
    }
    if fd :| fd in t - gone && (t - gone)[fd] == e {
      assert t[fd] == e;
    }
  }

  lemma HasWith(t: Table, r: int, w: int, q: nat, e: End)
    requires r !in t && w !in t && r != w
    ensures Has(t[r := ReadEnd(q)][w := WriteEnd(q)], e) <==> Has(t, e) || e == ReadEnd(q) || e == WriteEnd(q)
  {
    var t' := t[r := ReadEnd(q)][w := WriteEnd(q)];
    assert t'[r] == ReadEnd(q) && t'[w] == WriteEnd(q);
    if fd :| fd in t && t[fd] == e {
      assert t'[fd] == e;
    }
  }

  /** The next pipe is not open yet. */
  lemma FreshPipe(s: State)
    requires WindowInv(s) && TableInv(s)
    ensures !Has(s.table, ReadEnd(s.nextPipe)) && !Has(s.table, WriteEnd(s.nextPipe))
    ensures forall fd :: fd in s.table && s.table[fd] != Device ==> s.table[fd].pipe < s.nextPipe
  {
    forall fd | fd in s.table && s.table[fd] != Device ensures s.table[fd].pipe < s.nextPipe {
      assert Has(s.table, s.table[fd]);
      assert Live(s, s.table[fd].pipe);
    }
  }

  /** Opening the destination adds the two ends of its new pipe. */
  lemma HasTarget(s: State, line: Line, s': State, e: End)
    requires WindowInv(s) && TableInv(s) && WellFormed(line) && line.Pipeline? && WindowStep(s, line, s') && IsPipe(e)
    ensures var before := WithTarget(s, line, TargetNode(s, line, s'));
      && Unshared(before) && (Has(before, e) <==> Has(s.table, e) || (MakesPipe(s, line) && e.pipe == s.nextPipe))
      && forall fd :: fd in s.table ==> fd in before && before[fd] == s.table[fd]
  {
    FreshPipe(s);
    if MakesPipe(s, line) {
      HasWith(s.table, TargetNode(s, line, s').input, TargetNode(s, line, s').writeEnd, s.nextPipe, e);
    }
  }

  /** Closing the front node closes the two ends of the pipe that the line reads. */
  lemma HasWithoutEntry(s: State, t: Table, e: End)
    requires WindowInv(s) && Unshared(t) && IsPipe(e) && forall fd :: fd in s.table ==> fd in t && t[fd] == s.table[fd]
    ensures Has(t - Entry(s.window[0]), e) <==> Has(t, e) && !IsEntry(s, e.pipe)
  {
    assert SlotInv(s, 0);
    HasWithout(t, Entry(s.window[0]), e);
    if IsEntry(s, e.pipe) {
      var fd := if e.ReadEnd? then s.window[0].input else s.window[0].writeEnd;
      assert fd in Entry(s.window[0]) && fd in t && t[fd] == e;
    }
  }

  lemma EntryIsOld(s: State, p: nat)
    requires WindowInv(s) && IsEntry(s, p)
    ensures p < s.nextPipe
  {
  }

  /** The ends in the shell's own table change as the live pipes do. */
  lemma HasAfter(s: State, line: Line, s': State, e: End)
    requires WindowInv(s) && TableInv(s) && WellFormed(line) && line.Pipeline?
    requires WindowStep(s, line, s') && TableStep(s, line, s') && IsPipe(e)
    ensures Has(s'.table, e) <==>
      (Has(s.table, e) && !IsEntry(s, e.pipe)) || (MakesPipe(s, line) && e.pipe == s.nextPipe)
  {
    HasTarget(s, line, s', e);
    HasWithoutEntry(s, WithTarget(s, line, TargetNode(s, line, s')), e);
    if IsEntry(s, e.pipe) { EntryIsOld(s, e.pipe); }
  }

  lemma StepKeepsUnshared(s: State, line: Line, s': State)
    requires WindowInv(s) && TableInv(s) && WellFormed(line) && line.Pipeline?
    requires WindowStep(s, line, s') && TableStep(s, line, s')
    ensures Standard(s'.table) && Unshared(s'.table) && NoFiles(s'.table)
  {
    FreshPipe(s);
    assert SlotInv(s, 0);
  }

  lemma BuiltInKeepsLive(s: State, line: Line, s': State, p: nat)
    requires |s.window| == WINDOW && line.BuiltIn? && Step(s, line, s')
    ensures Live(s, p) <==> Live(s', p)
  {
    if Live(s, p) {
      var t: nat :| t in s.pipeOf && s.pipeOf[t] == p && (t >= |s.lines| || s.lines[t].BuiltIn?);
      assert t in s'.pipeOf && (t > |s.lines| || s'.lines[t].BuiltIn?);
    }
    if Live(s', p) {
      var t: nat :| t in s'.pipeOf && s'.pipeOf[t] == p && (t >= |s'.lines| || s'.lines[t].BuiltIn?);
      assert t < |s.lines| ==> s'.lines[t] == s.lines[t];
    }
  }

  lemma StepKeepsTable(s: State, line: Line, s': State)
    requires WindowInv(s) && TableInv(s) && WellFormed(line) && Step(s, line, s')
    ensures TableInv(s')
  {
    if line.Pipeline? {
      StepKeepsUnshared(s, line, s');
      forall p: nat
        ensures Has(s'.table, ReadEnd(p)) <==> Live(s', p)
        ensures Has(s'.table, WriteEnd(p)) <==> Live(s', p)
      {
        LiveAfter(s, line, s', p);
        HasAfter(s, line, s', ReadEnd(p));
        HasAfter(s, line, s', WriteEnd(p));
      }
    } else {
      forall p: nat ensures Live(s, p) <==> Live(s', p) {
        BuiltInKeepsLive(s, line, s', p);
      }
    }
  }

  // ---------------------------------------------------------------- end of file

  /** Stage k may hold p: an older pipe that the line does not read, the destination's new pipe, or a
      pipe between two stages that this stage or a later one writes. */
  ghost predicate MayHold(s: State, line: Line, procs: seq<Process>, k: nat, p: nat) {
    || (Has(s.table, WriteEnd(p)) && !IsEntry(s, p) && p < s.nextPipe)
    || (MakesPipe(s, line) && p == s.nextPipe)
    || exists l :: k <= l < |procs| - 1 && Out(procs[l]) == WriteEnd(p)
  }

  /** Stage k reads the pipe its line was routed to, or the pipe of the stage before it. */
  predicate MayRead(s: State, line: Line, procs: seq<Process>, k: nat, p: nat) {
    if k == 0 then IsEntry(s, p) && p < s.nextPipe
    else k <= |procs| && Out(procs[k - 1]) == WriteEnd(p) && FirstInner(s, line) <= p
  }

  lemma HeldByStage(s: State, line: Line, s': State, k: nat, p: nat)
    requires WellFormed(line) && line.Pipeline? && |s.window| == WINDOW && ChildrenStep(s, line, s')
    requires k < |line.commands| && Has(Children(s, s')[k].table, WriteEnd(p))
    ensures
      || Has(s.table - Entry(s.window[0]), WriteEnd(p))
      || Target(s, line) == WriteEnd(p)
      || MayHold(s, line, Children(s, s'), k, p)
  {
    var procs := Children(s, s');
    assert Out(procs[|procs| - 1]) == Device || Out(procs[|procs| - 1]) == Target(s, line);
    if !Has(s.table - Entry(s.window[0]), WriteEnd(p)) && Target(s, line) != WriteEnd(p) {
      var l :| k <= l < |procs| && Out(procs[l]) == WriteEnd(p);
      assert l < |procs| - 1;
    }
  }

  lemma OlderPipe(s: State, p: nat)
    requires WindowInv(s) && TableInv(s) && Has(s.table - Entry(s.window[0]), WriteEnd(p))
    ensures Has(s.table, WriteEnd(p)) && !IsEntry(s, p) && p < s.nextPipe
  {
    assert SlotInv(s, 0);
    FreshPipe(s);
    HasWithout(s.table, Entry(s.window[0]), WriteEnd(p));
  }

  /** The destination's pipe is the new one, or an older one other than the line's own input. */
  lemma TargetIsOpen(s: State, line: Line)
    requires WindowInv(s) && TableInv(s) && WellFormed(line) && line.Pipeline?
    ensures Target(s, line) == Device || Target(s, line).WriteEnd?
    ensures Target(s, line).WriteEnd? ==>
      var p := Target(s, line).pipe;
      if MakesPipe(s, line) then p == s.nextPipe
      else Has(s.table, WriteEnd(p)) && !IsEntry(s, p) && p < s.nextPipe
  {
    if Target(s, line).WriteEnd? && !MakesPipe(s, line) {
      assert Live(s, s.pipeOf[|s.lines| + line.destination]);
    }
  }

  lemma ChildHolds(s: State, line: Line, s': State, k: nat, p: nat)
    requires WindowInv(s) && TableInv(s) && WellFormed(line) && line.Pipeline? && ChildrenStep(s, line, s')
    requires k < |line.commands| && Has(Children(s, s')[k].table, WriteEnd(p))
    ensures MayHold(s, line, Children(s, s'), k, p)
  {
    HeldByStage(s, line, s', k, p);
    if Has(s.table - Entry(s.window[0]), WriteEnd(p)) {
      OlderPipe(s, p);
    } else if Target(s, line) == WriteEnd(p) {
      TargetIsOpen(s, line);
    }
  }

  lemma ChildReads(s: State, line: Line, s': State, k: nat, p: nat)
    requires WindowInv(s) && Standard(s.table) && WellFormed(line) && line.Pipeline? && ChildrenStep(s, line, s')
    requires k < |line.commands| && In(Children(s, s')[k]) == ReadEnd(p)
    ensures MayRead(s, line, Children(s, s'), k, p)
  {
    var procs := Children(s, s');
    assert SlotInv(s, 0);
    if k > 0 {
      assert In(procs[k]) == ReadEnd(Out(procs[k - 1]).pipe);
    }
  }

  /** Among the line's own children, the holder of a write end comes before the reader. */
  lemma OwnOrder(s: State, line: Line, s': State, k: nat, m: nat, p: nat)
    requires WellFormed(line) && line.Pipeline? && |s.window| == WINDOW && ChildrenStep(s, line, s')
    requires k < |line.commands| && m < |line.commands|
    requires MayHold(s, line, Children(s, s'), k, p) && MayRead(s, line, Children(s, s'), m, p)
    ensures k < m
  {
    var procs := Children(s, s');
    if l :| k <= l < |procs| - 1 && Out(procs[l]) == WriteEnd(p) {
      assert FirstInner(s, line) <= Out(procs[l]).pipe;
      assert m > 0;
      assert l == m - 1;
    }
  }

  /** No older process reads a pipe that a new child holds a write end of. */
  lemma NotReadBefore(s: State, line: Line, s': State, k: nat, j: nat, p: nat)
    requires EofInv(s) && WellFormed(line) && line.Pipeline? && |s.window| == WINDOW && ChildrenStep(s, line, s')
    requires k < |line.commands| && MayHold(s, line, Children(s, s'), k, p)
    requires j < |s.processes|
    ensures In(s.processes[j]) != ReadEnd(p)
  {
    var procs := Children(s, s');
    if l :| k <= l < |procs| - 1 && Out(procs[l]) == WriteEnd(p) {
      assert FirstInner(s, line) <= Out(procs[l]).pipe;
    }
  }

  lemma SameBefore(s: State, s': State, n: nat)
    requires Forked(s, s', n)
    ensures forall a :: 0 <= a < |s.processes| ==> s'.processes[a] == s.processes[a]
    ensures forall a :: |s.processes| <= a < |s'.processes| ==> s'.processes[a] == Children(s, s')[a - |s.processes|]
  {
    forall a | 0 <= a < |s.processes| ensures s'.processes[a] == s.processes[a] {
      assert s'.processes[..|s.processes|][a] == s'.processes[a];
    }
  }

  lemma ChildrenInOrder(s: State, line: Line, s': State, i: nat, j: nat, p: nat)
    requires Inv(s) && WellFormed(line) && line.Pipeline? && ChildrenStep(s, line, s')
    requires i < |s'.processes| && j < |s'.processes|
    requires Has(s'.processes[i].table, WriteEnd(p)) && In(s'.processes[j]) == ReadEnd(p)
    ensures i < j
  {
    hide SlotInv, PipesInv, Live, LineInv, LayoutInv, SourcesInv, WritersInv, HoldsOnly, WiredStep, AtExecFrom;
    var n0 := |s.processes|;
    SameBefore(s, s', |line.commands|);
    if i >= n0 {
      var k: nat := i - n0;
      ChildHolds(s, line, s', k, p);
      if j < n0 {
        NotReadBefore(s, line, s', k, j, p);
      } else {
        ChildReads(s, line, s', j - n0, p);
        OwnOrder(s, line, s', k, j - n0, p);
      }
    }
  }

  lemma ShellHoldsNone(s: State, line: Line, s': State, j: nat, p: nat)
    requires Inv(s) && WellFormed(line) && line.Pipeline? && Step(s, line, s')
    requires j < |s'.processes| && In(s'.processes[j]) == ReadEnd(p)
    ensures !Has(s'.table, WriteEnd(p)) && p < s'.nextPipe
  {
    HasAfter(s, line, s', WriteEnd(p));
    SameBefore(s, s', |line.commands|);
    if j >= |s.processes| {
      ChildReads(s, line, s', j - |s.processes|, p);
      FreshPipe(s);
    }
  }

  lemma HeldAreOld(s: State, line: Line, s': State, i: nat, p: nat)
    requires Inv(s) && WellFormed(line) && line.Pipeline? && Step(s, line, s')
    requires i < |s'.processes| && Has(s'.processes[i].table, WriteEnd(p))
    ensures p < s'.nextPipe
  {
    hide SlotInv, PipesInv, Live, LineInv, LayoutInv, SourcesInv, WritersInv, HoldsOnly, WindowStep, TableStep;
    SameBefore(s, s', |line.commands|);
    if i >= |s.processes| {
      ChildHolds(s, line, s', i - |s.processes|, p);
    }
  }

  lemma StepKeepsEof(s: State, line: Line, s': State)
    requires Inv(s) && WellFormed(line) && Step(s, line, s')
    ensures EofInv(s')
  {
    if line.Pipeline? {
      forall i, j, p: nat | 0 <= i < |s'.processes| && 0 <= j < |s'.processes|
        && Has(s'.processes[i].table, WriteEnd(p)) && In(s'.processes[j]) == ReadEnd(p)
        ensures i < j
      {
        ChildrenInOrder(s, line, s', i, j, p);
      }
      forall j, p: nat | 0 <= j < |s'.processes| && In(s'.processes[j]) == ReadEnd(p)
        ensures !Has(s'.table, WriteEnd(p)) && p < s'.nextPipe
      {
        ShellHoldsNone(s, line, s', j, p);
      }
      forall i, p: nat | 0 <= i < |s'.processes| && Has(s'.processes[i].table, WriteEnd(p)) ensures p < s'.nextPipe {
        HeldAreOld(s, line, s', i, p);
      }
    }
  }

  // ---------------------------------------------------------------- routing

  lemma SharedKept(s: State, line: Line, s': State, t: nat)
    requires s'.lines == s.lines + [line] && t < |s.lines| && s.lines[t].Pipeline?
    ensures Shared(s.lines, t) <==> Shared(s'.lines, t)
  {
    assert forall u :: 0 <= u <= t ==> s'.lines[u] == s.lines[u];
  }

  lemma NotNumberedYet(s: State, line: Line, s': State, e: End)
    requires HistoryStep(s, line, s') && e.WriteEnd? && e.pipe < s.nextPipe && !Numbered(s.pipeOf, e)
    ensures !Numbered(s'.pipeOf, e)
  {
    if d :| d in s'.pipeOf && e == WriteEnd(s'.pipeOf[d]) {
      assert d in s.pipeOf;
    }
  }

  /** A line that was already there keeps its children and its pipes. */
  lemma OldLineKept(s: State, line: Line, s': State, t: nat)
    requires PipesInv(s) && HistoryStep(s, line, s') && Forked(s, s', Count(line))
    requires t < |s.lines| == |s.first| && LineInv(s, t)
    ensures LineInv(s', t)
  {
    assert s'.lines[t] == s.lines[t] && s'.first[t] == s.first[t];
    if s.lines[t].Pipeline? {
      var procs := Stages(s, t);
      assert Stages(s', t) == procs by { SameBefore(s, s', Count(line)); }
      SharedKept(s, line, s', t);
      forall k | 0 <= k < |procs| - 1 ensures !Numbered(s'.pipeOf, Out(procs[k])) {
        assert !Numbered(s.pipeOf, Out(procs[k])) && Out(procs[k]).pipe < s.nextPipe;
        NotNumberedYet(s, line, s', Out(procs[k]));
      }
    }
  }

  /** A destination has no pipe yet exactly when no earlier line was routed to it. */
  lemma RoutedBefore(s: State, line: Line, s': State)
    requires LinesInv(s) && SourcesInv(s) && line.Pipeline? && HistoryStep(s, line, s')
    ensures line.destination != 0 ==> (MakesPipe(s, line) <==> !Shared(s'.lines, |s.lines|))
  {
    var now, d := |s.lines|, |s.lines| + line.destination;
    if line.destination != 0 {
      if d in s.pipeOf {
        var u :| 0 <= u < now && Routes(s.lines[u], u, d);
        assert s'.lines[u] == s.lines[u];
      }
      if Shared(s'.lines, now) {
        var u :| 0 <= u < now && s'.lines[u].Pipeline? && s'.lines[u].destination != 0
                 && u + s'.lines[u].destination == now + line.destination;
        assert s'.lines[u] == s.lines[u];
        assert LineInv(s, u);
      }
    }
  }

  lemma NewLineWired(s: State, line: Line, s': State)
    requires WindowInv(s) && TableInv(s) && LinesInv(s) && SourcesInv(s)
    requires WellFormed(line) && line.Pipeline? && HistoryStep(s, line, s') && Forked(s, s', Count(line))
    requires WiredStep(s, line, s')
    ensures LineInv(s', |s.lines|)
  {
    hide Live;
    var now, procs := |s.lines|, Children(s, s');
    assert s'.lines[now] == line && s'.first[now] == |s.processes|;
    assert Stages(s', now) == procs;
    assert SlotInv(s, 0);
    RoutedBefore(s, line, s');
    forall k | 0 <= k < |procs| - 1 ensures !Numbered(s'.pipeOf, Out(procs[k])) {
      assert FirstInner(s, line) <= Out(procs[k]).pipe;
    }
  }

  /** A new child never writes an older pipe, unless it is the destination's. */
  lemma NewWriters(s: State, line: Line, s': State, a: nat, k: nat)
    requires EofInv(s) && WellFormed(line) && line.Pipeline? && |s.window| == WINDOW && s'.pipeOf == NewPipeOf(s, line)
    requires ChildrenStep(s, line, s')
    requires k < |line.commands| && a < |s.processes| + k
    requires Out(s'.processes[a]) == Out(Children(s, s')[k]) != Device
    ensures Numbered(s'.pipeOf, Out(s'.processes[a]))
  {
    var procs := Children(s, s');
    SameBefore(s, s', |line.commands|);
    if k == |procs| - 1 {
      assert Out(procs[k]) == Target(s, line);
    } else if a < |s.processes| {
      var p := Out(procs[k]).pipe;
      assert s.processes[a].table[STDOUT] == WriteEnd(p);
      assert Has(s.processes[a].table, WriteEnd(p));
      assert false;
    } else {
      assert false;
    }
  }

  lemma NumberedMore(s: State, line: Line, s': State, e: End)
    requires s'.pipeOf == NewPipeOf(s, line) && Numbered(s.pipeOf, e)
    ensures Numbered(s'.pipeOf, e)
  {
    var d :| d in s.pipeOf && e == WriteEnd(s.pipeOf[d]);
    assert d in s'.pipeOf && s'.pipeOf[d] == s.pipeOf[d];
  }

  lemma StepKeepsWriters(s: State, line: Line, s': State)
    requires EofInv(s) && WritersInv(s) && WellFormed(line) && line.Pipeline? && |s.window| == WINDOW
    requires s'.pipeOf == NewPipeOf(s, line) && ChildrenStep(s, line, s')
    ensures WritersInv(s')
  {
    SameBefore(s, s', |line.commands|);
    forall a, b | 0 <= a < b < |s'.processes| && Out(s'.processes[a]) == Out(s'.processes[b])
      ensures Out(s'.processes[a]) == Device || Numbered(s'.pipeOf, Out(s'.processes[a]))
    {
      if Out(s'.processes[a]) != Device {
        if b < |s.processes| {
          NumberedMore(s, line, s', Out(s.processes[a]));
        } else {
          NewWriters(s, line, s', a, b - |s.processes|);
        }
      }
    }
  }

  lemma StepKeepsSources(s: State, line: Line, s': State)
    requires SourcesInv(s) && HistoryStep(s, line, s')
    ensures SourcesInv(s')
  {
    var now := |s.lines|;
    forall d | d in s'.pipeOf ensures exists t :: 0 <= t < |s'.lines| && Routes(s'.lines[t], t, d) {
      if d in s.pipeOf {
        var t :| 0 <= t < now && Routes(s.lines[t], t, d);
        assert Routes(s'.lines[t], t, d);
      } else {
        assert Routes(s'.lines[now], now, d);
      }
    }
  }

  lemma Recorded(s: State, line: Line, s': State)
    requires WellFormed(line) && |s.window| == WINDOW && Step(s, line, s')
    ensures HistoryStep(s, line, s') && Forked(s, s', Count(line))
  {
  }

  lemma LineKept(s: State, line: Line, s': State, t: nat)
    requires WindowInv(s) && TableInv(s) && LinesInv(s) && SourcesInv(s) && WellFormed(line)
    requires HistoryStep(s, line, s') && Forked(s, s', Count(line)) && t < |s'.lines|
    requires line.Pipeline? ==> WiredStep(s, line, s')
    ensures |s'.first| == |s'.lines| && LineInv(s', t)
  {
    if t < |s.lines| {
      assert LineInv(s, t);
      OldLineKept(s, line, s', t);
    } else if line.Pipeline? {
      NewLineWired(s, line, s');
    }
  }

  lemma StepKeepsLines(s: State, line: Line, s': State)
    requires WindowInv(s) && TableInv(s) && LinesInv(s) && SourcesInv(s) && WellFormed(line)
    requires HistoryStep(s, line, s') && Forked(s, s', Count(line))
    requires line.Pipeline? ==> WiredStep(s, line, s')
    ensures LinesInv(s')
  {
    forall t | 0 <= t < |s'.lines| ensures LineInv(s', t) {
      LineKept(s, line, s', t);
    }
  }

  lemma StepKeepsLayout(s: State, line: Line, s': State)
    requires LayoutInv(s) && HistoryStep(s, line, s') && Forked(s, s', Count(line))
    ensures LayoutInv(s')
  {
  }

  lemma StepKeepsRoute(s: State, line: Line, s': State)
    requires Inv(s) && WellFormed(line) && Step(s, line, s')
    ensures RouteInv(s')
  {
    Recorded(s, line, s');
    StepKeepsLines(s, line, s');
    StepKeepsLayout(s, line, s');
    StepKeepsSources(s, line, s');
    if line.Pipeline? {
      StepKeepsWriters(s, line, s');
    }
  }

  lemma StepKeepsExec(s: State, line: Line, s': State)
    requires WellFormed(line) && |s.window| == WINDOW && Step(s, line, s') && AtExecFrom(s.opens, s.processes, 0)
    ensures AtExecFrom(s'.opens, s'.processes, 0)
  {
    if line.Pipeline? {
      SameBefore(s, s', |line.commands|);
      forall pid: nat | pid < |s'.processes| ensures ChildAtExec(s'.opens, s'.processes, pid) {
        if pid < |s.processes| { assert ChildAtExec(s.opens, s.processes, pid); }
      }
    }
  }

  /** Whatever the line, the invariant survives it. */
  lemma StepKeepsInv(s: State, line: Line, s': State)
    requires Inv(s) && WellFormed(line) && Step(s, line, s')
    ensures Inv(s')
  {
    StepKeepsWindow(s, line, s');
    StepKeepsTable(s, line, s');
    StepKeepsEof(s, line, s');
    StepKeepsRoute(s, line, s');
    StepKeepsExec(s, line, s');
  }
}
