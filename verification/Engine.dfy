/** The shell that runs lines: the sliding window of nodes, and the children it forks. */
module Engine {
  import opened Kernel
  import opened Session
  import opened Runs
  import opened Chunks
  import opened Slicing
  import LineParser
  import Seqs
  import Text

  /** The destination of a fork line lies inside the window; outside it the source has no defined behaviour. */
  predicate InReach(input: string) {
    var p := LineParser.Parse(input);
    p.Parsed? ==> 0 <= p.number < 1500
  }

  lemma Differs(word: string, other: string, input: string)
    requires word <= input && word != "" && other != "" && word[0] != other[0]
    ensures !(other <= input)
  {
    assert input[0] == word[0];
  }

  /** No two of the words that main_loop looks for begin the same line. */
  lemma Keywords(input: string)
    ensures "exit" <= input ==> input != "" && !("printenv " <= input || "setenv " <= input || "unsetenv " <= input)
    ensures "printenv " <= input || "setenv " <= input || "unsetenv " <= input ==> input != ""
  {
    if "exit" <= input {
      Differs("exit", "printenv ", input);
      Differs("exit", "setenv ", input);
      Differs("exit", "unsetenv ", input);
    }
  }

  /** Whatever a line does, it is in the history afterwards. */
  lemma Grows(s: State, line: Line, s': State)
    requires WellFormed(line) && |s.window| == WINDOW && Step(s, line, s')
    ensures s' != s
  {
    Recorded(s, line, s');
    assert |s'.lines| == |s.lines| + 1;
  }

  class Shell {
    const fds: Descriptors
    const pipes: Pipes
    const opens: nat -> bool       // whether the child with a pid can open the file it is redirected to
    var window: seq<Node>          // redirection_info
    var processes: seq<Process>    // every child forked so far; a pid is an index
    var terminated: set<nat>       // children that waitpid has waited for
    var pidTable: seq<nat>         // pid_table of the line that is running
    // the history of the session
    ghost var lines: seq<Line>
    ghost var first: seq<nat>
    ghost var pipeOf: map<nat, nat>

    /** A shell starts with descriptors of the terminal and of sockets only. */
    constructor (table: Table, opens: nat -> bool)
      requires Standard(table) && forall fd :: fd in table ==> table[fd] == Device
      ensures Valid() && Initial(View()) && this.opens == opens && |window| == 1500
      ensures fresh(fds) && fresh(pipes) && fresh(pipes.pipesFd) && fds.table == table && fds.peak == |table|
    {
      fds := new Descriptors(table, 0);
      pipes := new Pipes();
      this.opens := opens;
      window := seq(WINDOW, _ => DEFAULT_NODE);
      processes, terminated, pidTable := [], {}, [];
      lines, first, pipeOf := [], [], map[];
      new;
      InitialReachable(View());
    }

    ghost predicate Sized()
      reads pipes
    {
      pipes.pipesFd.Length == 15000
    }

    /** Every child so far held at exec what its stage and its redirection say. */
    ghost predicate ChildrenReady()
      reads this`processes
    {
      AtExecFrom(opens, processes, 0)
    }

    ghost function View(): State
      reads this, fds
    {
      State(window, fds.table, fds.nextPipe, processes, terminated, fds.faults, lines, first, pipeOf, opens)
    }

    /** Between two lines. */
    ghost predicate Valid()
      reads this, fds, pipes
    {
      Sized() && |window| == WINDOW && Reachable(View()) && pidTable == []
    }

    /** waitpid(pid, nullptr, 0) returns once the child has terminated. */
    method WaitPid(pid: nat)
      modifies this`terminated
      ensures terminated == old(terminated) + {pid}
    {
      terminated := terminated + {pid};
    }

    /** Routes the front node to the node at `destination`, which gets a pipe unless it has one. */
    method OpenNumberedPipe(destination: nat, pipeStderr: bool)
      requires 0 < destination < |window|
      requires Standard(fds.table)
      modifies this`window, fds
      ensures |window| == |old(window)|
      ensures fds.faults == old(fds.faults)
      ensures old(window[destination].input) != STDIN ==>
        && window == old(window)[0 := old(window[0]).(output := old(window[destination].writeEnd))]
        && fds.table == old(fds.table) && fds.nextPipe == old(fds.nextPipe) && fds.peak == old(fds.peak)
      ensures old(window[destination].input) == STDIN ==>
        var node := window[destination];
        && node == old(window[destination]).(input := node.input, writeEnd := node.writeEnd)
        && window == old(window)[destination := node]
             [0 := old(window[0]).(output := node.writeEnd,
                                   error := if pipeStderr then node.writeEnd else old(window[0].error))]
        && node.input != STDIN && node.input !in old(fds.table) && node.writeEnd !in old(fds.table)
        && node.input != node.writeEnd
        && fds.table == old(fds.table)[node.input := ReadEnd(old(fds.nextPipe))]
                                      [node.writeEnd := WriteEnd(old(fds.nextPipe))]
        && fds.nextPipe == old(fds.nextPipe) + 1
        && |fds.table| == |old(fds.table)| + 2
        && fds.peak == if old(fds.peak) < |fds.table| then |fds.table| else old(fds.peak)
    {
      var target, current := window[destination], window[0];
      if target.input == STDIN {
        var p := fds.Pipe();
        target := target.(input := p.r, writeEnd := p.w);
        current := current.(output := p.w);
        if pipeStderr {
          current := current.(error := p.w);
        }
      } else {
        current := current.(output := target.writeEnd);
      }
      window := window[destination := target][0 := current];
    }

    /** In the child: its three streams become those of its stage. A failing dup2 throws. */
    method Connect(child: Descriptors, input: int, output: int, error: int) returns (live: bool)
      requires |window| > 0
      modifies child
      ensures
        var t, x := old(child.table), Streams(input, output, error);
        Attached(t, x) && Standard(t) && ClosesOther(t, window[0], [], x) ==>
          live && child.table == Connected(t, window[0], x) && child.faults == old(child.faults)
      ensures input != STDIN && input !in old(child.table) ==> !live
    {
      live := true;
      if input != STDIN {
        var r := child.Dup2(input, STDIN);
        if r != 0 {
          return false;
        }
        if input == window[0].input {
          child.Close(window[0].writeEnd);
        }
      }
      if output != STDOUT {
        var r := child.Dup2(output, STDOUT);
        if r == -1 {
          return false;
        }
      }
      if error != STDERR {
        var r := child.Dup2(error, STDERR);
        if r == -1 {
          return false;
        }
      }
    }

    /** In the child: a command that ends in `> file` writes the file. A file that cannot be opened
        makes dup2 miss, which throws. */
    method Redirect(child: Descriptors, command: string, openable: bool) returns (live: bool)
      modifies child
      ensures live <==> !Redirects(command) || openable
      ensures STDOUT in old(child.table) ==>
        child.table ==
          if Redirects(command) && openable then old(child.table)[STDOUT := File(FileOf(command))] else old(child.table)
      ensures child.faults == old(child.faults) + if live then 0 else 1
    {
      live := true;
      var words := Text.SplitAndTrim(command, Text.BLANKS);
      if |words| > 2 {
        if words[|words| - 2] == ">" {
          var output := child.Open(words[|words| - 1], openable);
          var r := child.Dup2(output, STDOUT);
          if r == -1 {
            return false;
          }
          child.Close(output);
        }
      }
    }

    /** fork, and what the child does to its descriptors before exec. */
    method ForkProcess(command: string, pipeCount: nat, input: int, output: int, error: int) returns (pid: nat)
      requires pipeCount <= pipes.pipesFd.Length && |window| > 0
      modifies this`processes
      ensures pid == |old(processes)| && |processes| == |old(processes)| + 1 && processes[..pid] == old(processes)
      ensures processes[pid].command == command
      ensures
        var x, s := Streams(input, output, error), pipes.pipesFd[..pipeCount];
        Sound(fds.table, window[0], s, x) ==>
          processes[pid].table == ChildTable(fds.table, window[0], s, x) && AtExec(processes[pid], opens(pid))
      ensures input != STDIN && input !in fds.table ==> !processes[pid].started
    {
      ghost var s, x := pipes.pipesFd[..pipeCount], Streams(input, output, error);
      var child := fds.Fork();
      var live := Connect(child, input, output, error);
      if Sound(fds.table, window[0], s, x) {
        ConnectedTable(fds.table, window[0], s, x);
      }
      if live {
        pipes.ClosePipes(child, pipeCount);
      }
      var table := child.table;
      pid := |processes|;
      if live {
        live := Redirect(child, command, opens(pid));
      }
      processes := processes + [Process(command, table, child.table, child.faults, live)];
    }
  
    /** Forks stage j of m, connected as its place in the chunk says. */
    method ForkStage(command: string, j: nat, m: nat, pipeStderr: bool,
                     ghost was: Table, ghost t: Table, ghost s: seq<PipeFd>, ghost base: nat)
      returns (input: int, pid: nat, ghost c: Process)
      requires Sized() && j < m <= CHUNK && |window| > 0
      requires Plugged(was, window[0]) && Below(was, base)
      requires s == pipes.pipesFd[..m - 1] && Added(was, t, s, base) && fds.table == TableAt(t, window[0], j)
      requires ChildrenReady()
      modifies this`processes
      ensures input == StreamsOf(window[0], s, m, pipeStderr, j).input && pid == |old(processes)|
      ensures processes == old(processes) + [c] && IsStage(c, t, window[0], s, pipeStderr, command, j)
      ensures ChildrenReady()
    {
      StageSound(was, t, window[0], s, base, pipeStderr, j);
      input := if j == 0 then window[0].input else pipes.pipesFd[j - 1].r;
      var output := if j == m - 1 then window[0].output else pipes.pipesFd[j].w;
      var error := STDERR;
      if pipeStderr {
        error := if j == m - 1 then window[0].error else pipes.pipesFd[j].w;
      }
      assert Streams(input, output, error) == StreamsOf(window[0], s, m, pipeStderr, j);
      pid := ForkProcess(command, m - 1, input, output, error);
      c := processes[pid];
      assert processes == old(processes) + [c];
      AtExecSnoc(opens, old(processes), c);
    }

    /** After stage 0 the shell closes the pipe that the chunk reads. */
    method StartStage(command: string, j: nat, m: nat, pipeStderr: bool,
                      ghost was: Table, ghost t: Table, ghost s: seq<PipeFd>, ghost base: nat)
      returns (ghost c: Process)
      requires Sized() && j < m <= CHUNK && |window| > 0
      requires Plugged(was, window[0]) && Below(was, base)
      requires s == pipes.pipesFd[..m - 1] && Added(was, t, s, base) && fds.table == TableAt(t, window[0], j)
      requires ChildrenReady()
      modifies this`processes, this`pidTable, fds
      ensures fds.nextPipe == old(fds.nextPipe) && fds.faults == old(fds.faults) && fds.peak == old(fds.peak)
      ensures pidTable == old(pidTable) + [|old(processes)|]
      ensures fds.table == TableAt(t, window[0], j + 1)
      ensures processes == old(processes) + [c] && IsStage(c, t, window[0], s, pipeStderr, command, j)
      ensures ChildrenReady()
    {
      ClosesEntry(was, t, window[0], s, base, pipeStderr, j);
      var input, pid;
      input, pid, c := ForkStage(command, j, m, pipeStderr, was, t, s, base);
      pidTable := pidTable + [pid];
      if input == window[0].input && input != STDIN {
        fds.Close(window[0].writeEnd);
        fds.Close(window[0].input);
      }
    }
  
    /** Forks the stages of one chunk, whose pipes are open. */
    method StageLoop(commands: seq<string>, pipeStderr: bool,
                     ghost was: Table, ghost t: Table, ghost s: seq<PipeFd>, ghost base: nat)
      returns (ghost chunk: seq<Process>)
      requires Sized() && 0 < |commands| <= CHUNK && |window| > 0
      requires Plugged(was, window[0]) && Below(was, base)
      requires s == pipes.pipesFd[..|commands| - 1] && Added(was, t, s, base) && fds.table == t
      requires ChildrenReady()
      modifies this`processes, this`pidTable, fds
      ensures fds.table == t - Entry(window[0])
      ensures fds.nextPipe == old(fds.nextPipe) && fds.faults == old(fds.faults) && fds.peak == old(fds.peak)
      ensures processes == old(processes) + chunk
      ensures pidTable == old(pidTable) + Pids(|old(processes)|, |commands|)
      ensures |chunk| == |commands| && Started(t, window[0], s, pipeStderr, commands, chunk) && ChildrenReady()
    {
      hide ChildrenReady, IsStage, Plugged, Below, Added;
      chunk := [];
      var m := |commands|;
      for j := 0 to m
        invariant fds.table == TableAt(t, window[0], j)
        invariant fds.nextPipe == old(fds.nextPipe) && fds.faults == old(fds.faults) && fds.peak == old(fds.peak)
        invariant processes == old(processes) + chunk && |chunk| == j
        invariant pidTable == old(pidTable) + Pids(|old(processes)|, j)
        invariant Started(t, window[0], s, pipeStderr, commands, chunk) && ChildrenReady()
      {
        ghost var c := StartStage(commands[j], j, m, pipeStderr, was, t, s, base);
        StartedSnoc(t, window[0], s, pipeStderr, commands, chunk, c);
        Seqs.Assoc(old(processes), chunk, [c]);
        Seqs.Assoc(old(pidTable), Pids(|old(processes)|, j), [|old(processes)| + j]);
        chunk := chunk + [c];
      }
    }

    /** The shell's own close of a chunk's pipes. */
    method CloseChunk(pipeCount: nat, ghost was: Table, ghost t: Table, ghost base: nat)
      requires pipeCount <= pipes.pipesFd.Length && |window| > 0 && Plugged(was, window[0]) && Below(was, base)
      requires Added(was, t, pipes.pipesFd[..pipeCount], base) && fds.table == t - Entry(window[0])
      modifies fds
      ensures fds.table == was - Entry(window[0])
      ensures fds.nextPipe == old(fds.nextPipe) && fds.faults == old(fds.faults) && fds.peak == old(fds.peak)
    {
      ghost var s := pipes.pipesFd[..pipeCount];
      NumbersOpen(was, t, window[0], s, base);
      ClosedAgain(was, t, window[0], s, base);
      pipes.ClosePipes(fds, pipeCount);
    }

    /** Opens the pipes of one chunk, forks its stages and closes the pipes again. */
    method StartStages(commands: seq<string>, pipeStderr: bool) returns (ghost chunk: seq<Process>)
      requires Sized() && ChildrenReady() && 0 < |commands| <= CHUNK && |window| > 0
      requires Plugged(fds.table, window[0]) && Below(fds.table, fds.nextPipe)
      modifies this`processes, this`pidTable, fds, pipes.pipesFd
      ensures fds.table == old(fds.table) - Entry(window[0])
      ensures fds.nextPipe == old(fds.nextPipe) + |commands| - 1 && fds.faults == old(fds.faults)
      ensures fds.peak <= old(fds.peak) || fds.peak <= |old(fds.table)| + 2 * (|commands| - 1)
      ensures processes == old(processes) + chunk
      ensures pidTable == old(pidTable) + Pids(|old(processes)|, |commands|)
      ensures ChunkForked(old(fds.table), window[0], chunk, commands, pipeStderr, old(fds.nextPipe)) && ChildrenReady()
    {
      ghost var was, base := fds.table, fds.nextPipe;
      var pipeCount := |commands| - 1;
      pipes.OpenPipes(fds, pipeCount);
      ghost var t, s := fds.table, pipes.pipesFd[..pipeCount];
      chunk := StageLoop(commands, pipeStderr, was, t, s, base);
      CloseChunk(pipeCount, was, t, base);
      ChunkIsWired(was, t, window[0], s, base, pipeStderr, commands, chunk);
    }
  
    /** Waits for every child of the line when the chunk writes to the terminal. Otherwise the loop that
        should wait for all but the last child is left at once, since `size < size - 1` is false. */
    method WaitForChunk()
      requires |window| > 0
      modifies this`terminated
      ensures forall pid :: pid in terminated <==>
        pid in old(terminated) || (window[0].output == STDOUT && pid in pidTable)
    {
      if window[0].output == STDOUT {
        for i := 0 to |pidTable|
          invariant forall pid :: pid in terminated <==> pid in old(terminated) || pid in pidTable[..i]
        {
          WaitPid(pidTable[i]);
        }
        assert pidTable[..|pidTable|] == pidTable;
      }
    }

    /** Inserts a temporary node at index 1 and routes the front node to it. */
    method OpenLink() returns (ghost link: Node)
      requires |window| > 0
      requires Plugged(fds.table, window[0]) && Below(fds.table, fds.nextPipe)
      modifies this`window, fds
      ensures FreshLink(old(fds.table), link)
      ensures window == [LinkedFront(old(window[0]), link), link] + old(window)[1..]
      ensures fds.table == Linked(old(fds.table), link, old(fds.nextPipe))
      ensures fds.nextPipe == old(fds.nextPipe) + 1 && fds.faults == old(fds.faults)
      ensures |fds.table| == |old(fds.table)| + 2
      ensures fds.peak <= old(fds.peak) || fds.peak <= |fds.table|
      ensures Plugged(fds.table, window[0]) && Below(fds.table, fds.nextPipe)
    {
      window := [window[0]] + [DEFAULT_NODE] + window[1..];
      OpenNumberedPipe(1, true);
      link := window[1];
      PluggedLink(old(fds.table), old(window[0]), link, old(fds.nextPipe));
    }

    /** One pass of the slicing loop that more passes follow. */
    method RunInnerChunk(commands: seq<string>, pipeStderr: bool) returns (ghost chunk: seq<Process>, ghost link: Node)
      requires Sized() && ChildrenReady() && 0 < |commands| <= CHUNK && |window| > 0
      requires Plugged(fds.table, window[0]) && Below(fds.table, fds.nextPipe)
      modifies this`window, this`processes, this`pidTable, this`terminated, fds, pipes.pipesFd
      ensures window == [link] + old(window)[1..]
      ensures processes == old(processes) + chunk
      ensures pidTable == old(pidTable) + Pids(|old(processes)|, |commands|)
      ensures terminated == old(terminated)
      ensures fds.faults == old(fds.faults) && fds.nextPipe == old(fds.nextPipe) + |commands|
      ensures fds.peak <= old(fds.peak) || fds.peak <= |old(fds.table)| + 2 * |commands|
      ensures LinkedChunk(old(fds.table), old(window[0]), old(fds.nextPipe), link, fds.table,
                          chunk, commands, pipeStderr)
      ensures ChildrenReady()
    {
      hide ChildrenReady, ChunkForked;
      link := OpenLink();
      chunk := StartStages(commands, pipeStderr);
      WaitForChunk();
      window := window[1..];
    }

    /** The last pass of the slicing loop. */
    method RunLastChunk(commands: seq<string>, pipeStderr: bool) returns (ghost chunk: seq<Process>)
      requires Sized() && ChildrenReady() && 0 < |commands| <= CHUNK && |window| > 0
      requires Plugged(fds.table, window[0]) && Below(fds.table, fds.nextPipe)
      modifies this`processes, this`pidTable, this`terminated, fds, pipes.pipesFd
      ensures processes == old(processes) + chunk
      ensures pidTable == old(pidTable) + Pids(|old(processes)|, |commands|)
      ensures forall pid :: pid in terminated <==>
        pid in old(terminated) || (window[0].output == STDOUT && pid in pidTable)
      ensures fds.faults == old(fds.faults) && fds.nextPipe == old(fds.nextPipe) + |commands| - 1
      ensures fds.table == old(fds.table) - Entry(window[0])
      ensures fds.peak <= old(fds.peak) || fds.peak <= |old(fds.table)| + 2 * (|commands| - 1)
      ensures ChunkForked(old(fds.table), window[0], chunk, commands, pipeStderr, old(fds.nextPipe)) && ChildrenReady()
    {
      chunk := StartStages(commands, pipeStderr);
      WaitForChunk();
    }
  
    /** Opens the destination of the line, if it has one. */
    method OpenDestination(ghost line: Line, destination: nat, pipeStderr: bool) returns (ghost node: Node)
      requires Sized() && Inv(View()) && line.Pipeline? && WellFormed(line)
      requires destination == line.destination && pipeStderr == line.pipeStderr
      modifies this`window, fds
      ensures |window| == WINDOW && Opening(old(View()), line, fds.table, window[0])
      ensures fds.table == WithTarget(old(View()), line, node) && fds.faults == old(fds.faults)
      ensures fds.nextPipe == FirstInner(old(View()), line)
      ensures |fds.table| <= |old(fds.table)| + (if destination == 0 then 0 else 2)
      ensures fds.peak <= old(fds.peak) || fds.peak <= |fds.table|
      ensures if MakesPipe(old(View()), line)
              then window[1..] == old(window)[1..][destination - 1 := node] && FreshLink(old(fds.table), node)
              else window[1..] == old(window)[1..]
    {
      hide Opening, TableInv, EofInv, RouteInv;
      ghost var s := View();
      node := DEFAULT_NODE;
      if destination == 0 {
        OpeningPlain(s, line);
      } else {
        TargetInWindow(s, line);
        PluggedFront(s);
        OpenNumberedPipe(destination, pipeStderr);
        if MakesPipe(s, line) {
          node := window[destination];
          OpeningNew(s, line, node, window[0]);
        } else {
          OpeningShared(s, line);
        }
      }
    }
  
    /** A chunk that more commands follow takes the slicing loop one pass further. */
    method InnerPass(commands: seq<string>, pipeStderr: bool,
                     ghost s: State, ghost line: Line, ghost t0: Table, ghost f0: Node, ghost procs: seq<Process>)
      returns (ghost chunk: seq<Process>)
      requires Sized() && ChildrenReady() && |window| > 0
      requires |s.window| == WINDOW && line.Pipeline? && pipeStderr == line.pipeStderr
      requires Opening(s, line, t0, f0) && Progress(s, line, t0, f0, procs, window[0], fds.table, fds.nextPipe)
      requires |commands| == CHUNK && |procs| + CHUNK < |line.commands|
      requires commands == line.commands[|procs|..|procs| + CHUNK]
      modifies this`window, this`processes, this`pidTable, this`terminated, fds, pipes.pipesFd
      ensures window != [] && window == [window[0]] + old(window)[1..]
      ensures |chunk| == CHUNK && processes == old(processes) + chunk
      ensures pidTable == old(pidTable) + Pids(|old(processes)|, CHUNK)
      ensures terminated == old(terminated) && fds.faults == old(fds.faults)
      ensures Progress(s, line, t0, f0, procs + chunk, window[0], fds.table, fds.nextPipe) && ChildrenReady()
      ensures fds.peak <= old(fds.peak) || fds.peak <= |t0| + 102
    {
      ghost var t, front, next, link := fds.table, window[0], fds.nextPipe, DEFAULT_NODE;
      chunk, link := RunInnerChunk(commands, pipeStderr);
      InnerProgress(s, line, t0, f0, procs, front, t, next, link, fds.table, chunk, commands);
    }

    /** The last chunk ends the slicing loop. */
    method LastPass(commands: seq<string>, pipeStderr: bool,
                    ghost s: State, ghost line: Line, ghost t0: Table, ghost f0: Node, ghost procs: seq<Process>)
      returns (ghost chunk: seq<Process>)
      requires Sized() && ChildrenReady() && |window| > 0
      requires |s.window| == WINDOW && line.Pipeline? && pipeStderr == line.pipeStderr
      requires Opening(s, line, t0, f0) && Progress(s, line, t0, f0, procs, window[0], fds.table, fds.nextPipe)
      requires 0 < |commands| <= CHUNK && |procs| + |commands| == |line.commands|
      requires commands == line.commands[|procs|..|procs| + |commands|]
      modifies this`processes, this`pidTable, this`terminated, fds, pipes.pipesFd
      ensures |chunk| == |commands| && processes == old(processes) + chunk
      ensures pidTable == old(pidTable) + Pids(|old(processes)|, |commands|)
      ensures forall pid :: pid in terminated <==> pid in old(terminated) || (!Delivers(line) && pid in pidTable)
      ensures fds.faults == old(fds.faults)
      ensures Finished(s, line, t0, f0, procs + chunk, fds.table, fds.nextPipe) && ChildrenReady()
      ensures fds.peak <= old(fds.peak) || fds.peak <= |t0| + 102
    {
      ghost var t, next := fds.table, fds.nextPipe;
      chunk := RunLastChunk(commands, pipeStderr);
      LastProgress(s, line, t0, f0, procs, window[0], t, next, chunk, commands);
    }
  
    /** The slicing loop has forked `procs`. The children in `before` had been waited for when it began. */
    ghost predicate Sliced(s: State, line: Line, t0: Table, f0: Node, procs: seq<Process>, before: set<nat>)
      requires |s.window| == WINDOW
      reads this, fds
    {
      match line
      case BuiltIn => false
      case Pipeline(commands, _, _) =>
        && window != []
        && if |procs| < |commands|
           then terminated == before && Progress(s, line, t0, f0, procs, window[0], fds.table, fds.nextPipe)
           else Finished(s, line, t0, f0, procs, fds.table, fds.nextPipe)
                && forall pid :: pid in terminated <==> pid in before || (!Delivers(line) && pid in pidTable)
    }

    /** One pass of the slicing loop, from command i on: a chunk of 50, or all that is left. */
    method Pass(commands: seq<string>, i: nat, pipeStderr: bool,
                ghost s: State, ghost line: Line, ghost t0: Table, ghost f0: Node, ghost procs: seq<Process>,
                ghost before: set<nat>)
      returns (next: nat, ghost chunk: seq<Process>)
      requires Sized() && ChildrenReady() && |s.window| == WINDOW && line.Pipeline?
      requires commands == line.commands && pipeStderr == line.pipeStderr
      requires Opening(s, line, t0, f0) && Sliced(s, line, t0, f0, procs, before)
      requires i == |procs| < |commands| && i <= |processes|
      modifies this`window, this`processes, this`pidTable, this`terminated, fds, pipes.pipesFd
      ensures i < next == i + |chunk| <= |commands| && |chunk| <= CHUNK && processes == old(processes) + chunk
      ensures old(pidTable) == Pids(|old(processes)| - i, i) ==> pidTable == Pids(|old(processes)| - i, next)
      ensures fds.faults == old(fds.faults)
      ensures Sliced(s, line, t0, f0, procs + chunk, before) && ChildrenReady()
      ensures window[1..] == old(window)[1..]
      ensures fds.peak <= old(fds.peak) || fds.peak <= |t0| + 102
    {
      hide Progress, Finished, Opening, ChildrenReady, Delivers, Pids;
      next := if i + CHUNK < |commands| then i + CHUNK else |commands|;
      var part := commands[i..next];
      if next < |commands| {
        chunk := InnerPass(part, pipeStderr, s, line, t0, f0, procs);
      } else {
        chunk := LastPass(part, pipeStderr, s, line, t0, f0, procs);
      }
      PidsAppend(|old(processes)| - i, i, |part|);
    }

    /** The slicing loop. */
    method RunChunks(commands: seq<string>, pipeStderr: bool,
                     ghost s: State, ghost line: Line, ghost t0: Table, ghost f0: Node)
      returns (ghost procs: seq<Process>)
      requires Sized() && ChildrenReady() && |s.window| == WINDOW && line.Pipeline?
      requires commands == line.commands != [] && pipeStderr == line.pipeStderr && pidTable == []
      requires Opening(s, line, t0, f0) && Sliced(s, line, t0, f0, [], terminated)
      modifies this`window, this`processes, this`pidTable, this`terminated, fds, pipes.pipesFd
      ensures processes == old(processes) + procs && pidTable == Pids(|old(processes)|, |commands|)
      ensures fds.faults == old(fds.faults)
      ensures |procs| == |commands| && Sliced(s, line, t0, f0, procs, old(terminated)) && ChildrenReady()
      ensures window[1..] == old(window)[1..]
      ensures fds.peak <= old(fds.peak) || fds.peak <= |t0| + 102
    {
      var i := 0;
      procs := [];
      while i < |commands|
        invariant i == |procs| <= |commands| && processes == old(processes) + procs
        invariant pidTable == Pids(|old(processes)|, i) && fds.faults == old(fds.faults)
        invariant Sliced(s, line, t0, f0, procs, old(terminated)) && ChildrenReady()
        invariant window[1..] == old(window)[1..]
        invariant fds.peak <= old(fds.peak) || fds.peak <= |t0| + 102
      {
        ghost var chunk;
        i, chunk := Pass(commands, i, pipeStderr, s, line, t0, f0, procs, old(terminated));
        Seqs.Assoc(old(processes), procs, chunk);
        procs := procs + chunk;
      }
    }
  
    /** The rest of execute, once the destination is open. */
    method ExecuteChunks(commands: seq<string>, pipeStderr: bool, ghost s: State, ghost line: Line, ghost node: Node)
      returns (ghost procs: seq<Process>)
      requires Sized() && ChildrenReady() && |s.window| == WINDOW && WellFormed(line) && line.Pipeline?
      requires commands == line.commands && pipeStderr == line.pipeStderr && pidTable == []
      requires |window| == WINDOW && Opening(s, line, fds.table, window[0])
      requires fds.table == WithTarget(s, line, node) && fds.nextPipe == FirstInner(s, line)
      requires processes == s.processes && terminated == s.terminated && fds.faults == s.faults && opens == s.opens
      requires if MakesPipe(s, line)
               then window[1..] == s.window[1..][line.destination - 1 := node] && FreshLink(s.table, node)
               else window[1..] == s.window[1..]
      modifies this`window, this`processes, this`pidTable, this`terminated, fds, pipes.pipesFd
      ensures Executed(s, line, View(), old(fds.table), old(window[0]), node, procs) && pidTable == []
      ensures fds.peak <= old(fds.peak) || fds.peak <= |old(fds.table)| + 102
    {
      OpeningProgress(s, line, fds.table, window[0]);
      procs := RunChunks(commands, pipeStderr, s, line, fds.table, window[0]);
      PidsAre(|s.processes|, |commands|);
      pidTable := [];
    }

    /** ForkAndExec::execute */
    method Execute(commands: seq<string>, destination: nat, pipeStderr: bool)
      returns (ghost t0: Table, ghost f0: Node, ghost node: Node, ghost procs: seq<Process>)
      requires Valid() && commands != [] && destination < WINDOW
      modifies this`window, this`processes, this`pidTable, this`terminated, fds, pipes.pipesFd
      ensures Executed(old(View()), Pipeline(commands, destination, pipeStderr), View(), t0, f0, node, procs)
      ensures pidTable == []
      ensures fds.peak <= |old(fds.table)| + (if destination == 0 then 102 else 104)
    {
      hide Finished, Reachable, Inv;
      ghost var s, line := View(), Pipeline(commands, destination, pipeStderr);
      ReachableInv(s);
      fds.peak := |fds.table|;
      assert View() == s;
      node := OpenDestination(line, destination, pipeStderr);
      t0, f0 := fds.table, window[0];
      procs := ExecuteChunks(commands, pipeStderr, s, line, node);
      assert Executed(s, line, View(), t0, f0, node, procs);
    }

    /** ~Command: the window slides by one slot. `s` is the session before the line. */
    method Slide(ghost s: State, ghost line: Line)
      requires window != []
      modifies this`window, this`lines, this`first, this`pipeOf
      ensures View() == Slid(s, line, old(View())) && pidTable == old(pidTable)
    {
      ghost var v := View();
      window := window[1..] + [DEFAULT_NODE];
      lines, first, pipeOf := s.lines + [line], s.first + [|s.processes|], NewPipeOf(s, line);
      SameState(View(), Slid(s, line, v));
    }

    /** ForkAndExec: one pipeline, of any length. */
    method RunPipeline(commands: seq<string>, destination: nat, pipeStderr: bool)
      requires Valid() && commands != [] && destination < WINDOW
      modifies this, fds, pipes.pipesFd
      ensures Valid() && Step(old(View()), Pipeline(commands, destination, pipeStderr), View())
      ensures fds.peak <= |old(fds.table)| + (if destination == 0 then 102 else 104)
    {
      hide Executed, Initial, ChildrenStep, TableStep, WaitStep, HistoryStep;
      ghost var s, line := View(), Pipeline(commands, destination, pipeStderr);
      ghost var t0, f0, node, procs := Execute(commands, destination, pipeStderr);
      ghost var v := View();
      ReachableInv(s);
      ExecutedStep(s, line, v, t0, f0, node, procs);
      Slide(s, line);
      ReachableStep(s, line, View());
    }

    /** PrintEnv, SetEnv and UnsetEnv fork nothing, but they use up a slot too. */
    method RunBuiltIn()
      requires Valid()
      modifies this
      ensures Valid() && Step(old(View()), BuiltIn, View())
    {
      ghost var s := View();
      ReachableInv(s);
      Slide(s, BuiltIn);
      ReachableStep(s, BuiltIn, View());
    }
  
    /** One round of main_loop. It ends with `exit`, with the end of the input, and with a number that stoi
        rejects. An empty line leaves everything alone, a line for the environment uses up a slot, and any
        other line is run as it is parsed. */
    method Handle(input: string, endOfInput: bool) returns (alive: bool)
      requires Valid() && InReach(input)
      modifies this, fds, pipes.pipesFd
      ensures alive ==> Valid()
      ensures alive ==> !endOfInput && !("exit" <= input)
      ensures !alive ==> endOfInput || "exit" <= input || LineParser.Parse(input).BadNumber?
      ensures !endOfInput && input == "" ==> alive
      ensures !endOfInput && ("printenv " <= input || "setenv " <= input || "unsetenv " <= input) ==>
        alive && Step(old(View()), BuiltIn, View())
      ensures alive && input != "" && !("printenv " <= input || "setenv " <= input || "unsetenv " <= input) ==>
        var p := LineParser.Parse(input);
        p.Parsed? && p.commands != [] && Step(old(View()), Pipeline(p.commands, p.number, p.pipeStderr), View())
      ensures alive ==> (View() == old(View()) <==> input == "")
    {
      hide Step, Reachable;
      ghost var s := View();
      Keywords(input);
      if "exit" <= input || endOfInput {
        return false;
      }
      alive := true;
      if input == "" {
        return;
      }
      if "printenv " <= input || "setenv " <= input || "unsetenv " <= input {
        RunBuiltIn();
        Grows(s, BuiltIn, View());
        return;
      }
      var parsed := LineParser.ParseLine(input);
      if parsed.BadNumber? {
        return false;
      }
      LineParser.AlwaysACommand(input);
      RunPipeline(parsed.commands, parsed.number, parsed.pipeStderr);
      Grows(s, Pipeline(parsed.commands, parsed.number, parsed.pipeStderr), View());
    }
  }
}
