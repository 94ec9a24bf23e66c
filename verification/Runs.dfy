/** Whole sessions: every state that some sequence of lines reaches. */
module Runs {
  import opened Kernel
  import opened Session

  ghost predicate Initial(s: State) {
    && s.window == seq(WINDOW, _ => DEFAULT_NODE)
    && Standard(s.table) && (forall fd :: fd in s.table ==> s.table[fd] == Device)
    && s.processes == [] && s.lines == [] && s.first == [] && s.pipeOf == map[]
    && s.terminated == {} && s.faults == 0
  }

  ghost predicate Leads(s: State, s': State) {
    |s.window| == WINDOW && exists line :: WellFormed(line) && Step(s, line, s')
  }

  /** The states between the lines of a session. */
  ghost predicate Run(run: seq<State>) {
    && run != [] && Initial(run[0])
    && forall i, j :: 0 <= i && j == i + 1 < |run| ==> Leads(run[i], run[j])
  }

  ghost predicate Reachable(s: State) {
    exists run :: Run(run) && run[|run| - 1] == s
  }

  /** A run of several states is a shorter run and the step of one line. */
  lemma LastLine(run: seq<State>) returns (line: Line)
    requires Run(run) && |run| > 1
    ensures Run(run[..|run| - 1]) && run[..|run| - 1][|run| - 2] == run[|run| - 2] && run[..|run| - 1][0] == run[0]
    ensures WellFormed(line) && |run[|run| - 2].window| == WINDOW && Step(run[|run| - 2], line, run[|run| - 1])
  {
    var shorter := run[..|run| - 1];
    assert Leads(run[|run| - 2], run[|run| - 1]);
    assert forall i, j :: 0 <= i && j == i + 1 < |shorter| ==> shorter[i] == run[i] && shorter[j] == run[j];
    line :| WellFormed(line) && Step(run[|run| - 2], line, run[|run| - 1]);
  }

  lemma InitialInv(s: State)
    requires Initial(s)
    ensures Inv(s)
  {
    forall p: nat ensures !Has(s.table, ReadEnd(p)) && !Has(s.table, WriteEnd(p)) && !Live(s, p) {}
  }

  lemma {:induction false} RunKeepsInv(run: seq<State>)
    requires Run(run)
    ensures Inv(run[|run| - 1])
  {
    if |run| == 1 {
      InitialInv(run[0]);
    } else {
      var line := LastLine(run);
      RunKeepsInv(run[..|run| - 1]);
      StepKeepsInv(run[|run| - 2], line, run[|run| - 1]);
    }
  }

  lemma ReachableInv(s: State)
    requires Reachable(s)
    ensures Inv(s)
  {
    var run :| Run(run) && run[|run| - 1] == s;
    RunKeepsInv(run);
  }

  lemma InitialReachable(s: State)
    requires Initial(s)
    ensures Reachable(s)
  {
    assert Run([s]);
  }

  /** One more line leads from a reachable state to a reachable state. */
  lemma ReachableStep(s: State, line: Line, s': State)
    requires Reachable(s) && |s.window| == WINDOW && WellFormed(line) && Step(s, line, s')
    ensures Reachable(s')
  {
    hide Step, WellFormed, Initial;
    var run :| Run(run) && run[|run| - 1] == s;
    var longer := run + [s'];
    assert Leads(s, s');
    forall i, j | 0 <= i && j == i + 1 < |longer| ensures Leads(longer[i], longer[j]) {
      if j < |run| { assert Leads(run[i], run[j]); }
    }
    assert Run(longer) && longer[|longer| - 1] == s';
  }

  // ---------------------------------------------------------------- at exec

  /** A command that runs and writes its standard output to e. */
  predicate WritesOut(p: Process, e: End) {
    p.started && Output(p) == e
  }

  /** A redirection changes nothing but the standard output, and with it the command writes no pipe. */
  lemma ExecEnds(p: Process, openable: bool, e: End)
    requires AtExec(p, openable) && !e.File?
    ensures Input(p) == In(p) && Errors(p) == Err(p)
    ensures e.WriteEnd? ==> (WritesOut(p, e) <==> Out(p) == e && !Redirects(p.command))
    ensures Has(p.exec, e) ==> Has(p.table, e)
  {
    if fd :| fd in p.exec && p.exec[fd] == e { assert fd in p.table && p.table[fd] == e; }
  }

  // ---------------------------------------------------------------- routing

  /** Line u was sent to line t. */
  predicate Sent(lines: seq<Line>, u: nat, t: nat) {
    u < |lines| && Routes(lines[u], u, t)
  }

  /** The pids of a line's first and last stage. */
  function FirstStage(s: State, t: nat): int
    requires t < |s.lines| == |s.first|
  {
    s.first[t]
  }

  function LastStage(s: State, t: nat): int
    requires t < |s.lines| == |s.first|
  {
    s.first[t] + Count(s.lines[t]) - 1
  }

  /** Every process is a stage of some line. */
  lemma {:induction false} LineOf(s: State, a: nat, upTo: nat) returns (t: nat)
    requires LayoutInv(s) && upTo < |s.lines| && a < s.first[upTo] + Count(s.lines[upTo])
    ensures t <= upTo && s.first[t] <= a < s.first[t] + Count(s.lines[t])
  {
    t := upTo;
    if a < s.first[upTo] {
      assert s.first[upTo] == s.first[upTo - 1] + Count(s.lines[upTo - 1]);
      t := LineOf(s, a, upTo - 1);
    }
  }

  lemma StageOf(s: State, t: nat, k: nat)
    requires LinesInv(s) && t < |s.lines| && k < Count(s.lines[t])
    ensures LineInv(s, t)
    ensures s.first[t] + k < |s.processes| && Stages(s, t)[k] == s.processes[s.first[t] + k]
  {
  }

  /** Process a is the last stage of a line of at most 50 stages that was sent to line t. */
  ghost predicate DeliversTo(s: State, t: nat, a: nat)
    requires |s.lines| == |s.first|
  {
    exists u: nat :: Sent(s.lines, u, t) && Delivers(s.lines[u]) && a == LastStage(s, u)
  }

  /** Stage k of line u writes the pipe of destination t if and only if it is the last stage and
      line u delivers to t. */
  lemma StageWrites(s: State, u: nat, k: nat, t: nat)
    requires PipesInv(s) && LinesInv(s) && t in s.pipeOf && u < |s.lines| && k < Count(s.lines[u])
    ensures s.first[u] + k < |s.processes|
    ensures Out(s.processes[s.first[u] + k]) == WriteEnd(s.pipeOf[t]) <==>
      k == Count(s.lines[u]) - 1 && Delivers(s.lines[u]) && Sent(s.lines, u, t)
  {
    StageOf(s, u, k);
    if k < Count(s.lines[u]) - 1 {
      assert Numbered(s.pipeOf, WriteEnd(s.pipeOf[t]));
    }
  }

  lemma DelivererWrites(s: State, t: nat, u: nat)
    requires PipesInv(s) && LinesInv(s) && t in s.pipeOf && Sent(s.lines, u, t) && Delivers(s.lines[u])
    ensures 0 <= LastStage(s, u) < |s.processes| && Out(s.processes[LastStage(s, u)]) == WriteEnd(s.pipeOf[t])
  {
    assert LineInv(s, u);
    StageWrites(s, u, Count(s.lines[u]) - 1, t);
  }

  lemma WritersOf(s: State, t: nat, a: nat)
    requires Inv(s) && t in s.pipeOf && a < |s.processes|
    ensures Out(s.processes[a]) == WriteEnd(s.pipeOf[t]) <==> DeliversTo(s, t, a)
  {
    hide SlotInv, Live, LineWired, SourcesInv, WritersInv, AtExecFrom, EofInv;
    if DeliversTo(s, t, a) {
      var u: nat :| Sent(s.lines, u, t) && Delivers(s.lines[u]) && a == LastStage(s, u);
      DelivererWrites(s, t, u);
    }
    if Out(s.processes[a]) == WriteEnd(s.pipeOf[t]) {
      var u := LineOf(s, a, |s.lines| - 1);
      StageWrites(s, u, a - s.first[u], t);
      assert a == LastStage(s, u);
    }
  }

  lemma PipeIfSent(s: State, t: nat)
    requires LinesInv(s) && SourcesInv(s)
    ensures t in s.pipeOf <==> exists u: nat :: Sent(s.lines, u, t)
  {
    if t in s.pipeOf {
      var u :| 0 <= u < |s.lines| && Routes(s.lines[u], u, t);
      assert Sent(s.lines, u, t);
    }
    if u: nat :| Sent(s.lines, u, t) {
      assert LineInv(s, u);
    }
  }

  lemma ReadsIfSent(s: State, t: nat)
    requires LinesInv(s) && SourcesInv(s) && t < |s.lines| && s.lines[t].Pipeline?
    ensures 0 <= FirstStage(s, t) < |s.processes|
    ensures In(s.processes[FirstStage(s, t)]) == LineInput(s, t)
    ensures t in s.pipeOf <==> exists u: nat :: Sent(s.lines, u, t)
  {
    assert LineInv(s, t);
    StageOf(s, t, 0);
    PipeIfSent(s, t);
  }

  /** The writers of a destination's pipe, once their commands run. */
  lemma RunningWriters(s: State, t: nat, a: nat)
    requires Inv(s) && t in s.pipeOf && a < |s.processes|
    ensures WritesOut(s.processes[a], WriteEnd(s.pipeOf[t])) <==>
      DeliversTo(s, t, a) && !Redirects(s.processes[a].command)
  {
    assert ChildAtExec(s.opens, s.processes, a);
    ExecEnds(s.processes[a], s.opens(a), WriteEnd(s.pipeOf[t]));
    WritersOf(s, t, a);
  }

  lemma OnlyReader(s: State, t: nat, b: nat)
    requires Inv(s) && t in s.pipeOf && b < |s.processes| && In(s.processes[b]) == ReadEnd(s.pipeOf[t])
    ensures t < |s.lines| && b == FirstStage(s, t)
  {
    assert s.lines != [];
    var u := LineOf(s, b, |s.lines| - 1);
    assert LineInv(s, u);
    var k := b - s.first[u];
    StageOf(s, u, k);
    var procs := Stages(s, u);
    if k > 0 {
      assert In(procs[k]) == ReadEnd(Out(procs[k - 1]).pipe);
      assert Out(procs[k - 1]) == WriteEnd(s.pipeOf[t]);
      assert Numbered(s.pipeOf, Out(procs[k - 1]));
      assert false;
    }
  }

  lemma RunningReaders(s: State, t: nat, b: nat)
    requires Inv(s) && t in s.pipeOf && b < |s.processes| && Input(s.processes[b]) == ReadEnd(s.pipeOf[t])
    ensures t < |s.lines| && b == FirstStage(s, t)
  {
    assert ChildAtExec(s.opens, s.processes, b);
    ExecEnds(s.processes[b], s.opens(b), ReadEnd(s.pipeOf[t]));
    OnlyReader(s, t, b);
  }

  /** Routing over whole sessions. Line t reads a pipe exactly when an earlier line was sent to it; the
      commands that write that pipe are exactly the last ones, without a redirection, of the lines of at
      most 50 stages that were sent to it; and no other process reads it. */
  lemma Routing(s: State, t: nat)
    requires Reachable(s) && t < |s.lines| && s.lines[t].Pipeline?
    ensures |s.first| == |s.lines| && 0 <= FirstStage(s, t) < |s.processes|
    ensures
      var input := Input(s.processes[FirstStage(s, t)]);
      && (input != Device <==> exists u: nat :: Sent(s.lines, u, t))
      && (input != Device ==>
            && input.ReadEnd?
            && (forall a :: 0 <= a < |s.processes| ==>
                  (WritesOut(s.processes[a], WriteEnd(input.pipe)) <==>
                    DeliversTo(s, t, a) && !Redirects(s.processes[a].command)))
            && (forall b :: 0 <= b < |s.processes| && Input(s.processes[b]) == input ==> b == FirstStage(s, t)))
  {
    ReachableInv(s);
    ReadsIfSent(s, t);
    assert ChildAtExec(s.opens, s.processes, FirstStage(s, t));
    ExecEnds(s.processes[FirstStage(s, t)], s.opens(FirstStage(s, t)), Device);
    if t in s.pipeOf {
      forall a | 0 <= a < |s.processes|
        ensures WritesOut(s.processes[a], WriteEnd(s.pipeOf[t])) <==>
          DeliversTo(s, t, a) && !Redirects(s.processes[a].command)
      {
        RunningWriters(s, t, a);
      }
      forall b | 0 <= b < |s.processes| && Input(s.processes[b]) == ReadEnd(s.pipeOf[t]) ensures b == FirstStage(s, t) {
        RunningReaders(s, t, b);
      }
    }
  }

  // ---------------------------------------------------------------- end of file

  /** The process holds e before or after it calls exec. */
  ghost predicate Holds(p: Process, e: End) {
    Has(p.table, e) || Has(p.exec, e)
  }

  /** No process waits for end of file from itself, from a later process, or from the shell. */
  lemma EndOfFileOrder(s: State, reader: nat, p: nat)
    requires Reachable(s) && reader < |s.processes| && Input(s.processes[reader]) == ReadEnd(p)
    ensures forall holder :: 0 <= holder < |s.processes| && Holds(s.processes[holder], WriteEnd(p)) ==> holder < reader
    ensures !Has(s.table, WriteEnd(p))
  {
    ReachableInv(s);
    assert ChildAtExec(s.opens, s.processes, reader);
    ExecEnds(s.processes[reader], s.opens(reader), Device);
    forall holder | 0 <= holder < |s.processes| && Holds(s.processes[holder], WriteEnd(p)) ensures holder < reader {
      assert ChildAtExec(s.opens, s.processes, holder);
      ExecEnds(s.processes[holder], s.opens(holder), WriteEnd(p));
    }
  }

  // ---------------------------------------------------------------- descriptors

  /** A descriptor of some node of the window that waits for its line. */
  ghost predicate InWindow(s: State, fd: int) {
    exists i :: 0 <= i < |s.window| && s.window[i].input != STDIN && fd in {s.window[i].input, s.window[i].writeEnd}
  }

  /** A line was routed to a built-in line. */
  ghost predicate SentToBuiltIn(s: State) {
    exists d: nat, u: nat :: 0 <= d < |s.lines| && s.lines[d].BuiltIn? && Sent(s.lines, u, d)
  }

  lemma PipeInWindow(s: State, fd: int)
    requires WindowInv(s) && InWindow(s, fd)
    ensures fd in s.table
    ensures (exists t :: t in s.pipeOf && t >= |s.lines|
               && s.table[fd] in {ReadEnd(s.pipeOf[t]), WriteEnd(s.pipeOf[t])})
  {
    var i :| 0 <= i < |s.window| && s.window[i].input != STDIN && fd in {s.window[i].input, s.window[i].writeEnd};
    assert SlotInv(s, i);
    var t := |s.lines| + i;
    assert t in s.pipeOf;
  }

  lemma WindowIsOpen(s: State, fd: int)
    requires Inv(s) && InWindow(s, fd)
    ensures fd in s.table && s.table[fd] != Device
  {
    PipeInWindow(s, fd);
  }

  lemma NotInWindow(s: State, d: nat, fd: int)
    requires WindowInv(s) && d in s.pipeOf && d < |s.lines| && fd in s.table
    requires IsPipe(s.table[fd]) && s.table[fd].pipe == s.pipeOf[d]
    ensures !InWindow(s, fd)
  {
    if InWindow(s, fd) {
      PipeInWindow(s, fd);
    }
  }

  /** Both ends of the pipe of a built-in line stay open in the shell, in no node of the window. */
  lemma BuiltInLeaks(s: State, d: nat, u: nat)
    requires Inv(s) && d < |s.lines| && s.lines[d].BuiltIn? && Sent(s.lines, u, d)
    ensures d in s.pipeOf
    ensures exists r :: r in s.table && s.table[r] == ReadEnd(s.pipeOf[d]) && !InWindow(s, r)
    ensures exists w :: w in s.table && s.table[w] == WriteEnd(s.pipeOf[d]) && !InWindow(s, w)
  {
    assert LineInv(s, u);
    assert Live(s, s.pipeOf[d]);
    assert Has(s.table, ReadEnd(s.pipeOf[d])) && Has(s.table, WriteEnd(s.pipeOf[d]));
    var r :| r in s.table && s.table[r] == ReadEnd(s.pipeOf[d]);
    var w :| w in s.table && s.table[w] == WriteEnd(s.pipeOf[d]);
    NotInWindow(s, d, r);
    NotInWindow(s, d, w);
  }

  lemma HeldForLater(s: State, fd: int)
    requires Inv(s) && !SentToBuiltIn(s) && fd in s.table && s.table[fd] != Device
    ensures InWindow(s, fd)
  {
    var p := s.table[fd].pipe;
    assert Has(s.table, s.table[fd]);
    assert Live(s, p);
    var t: nat :| t in s.pipeOf && s.pipeOf[t] == p && (t >= |s.lines| || s.lines[t].BuiltIn?);
    var u :| 0 <= u < |s.lines| && Routes(s.lines[u], u, t);
    assert Sent(s.lines, u, t);
    assert t >= |s.lines|;
    var i := t - |s.lines|;
    assert SlotInv(s, i);
    assert fd == s.window[i].input || fd == s.window[i].writeEnd;
  }

  /** The pipe ends that the shell holds between two lines are exactly those of its window, if and
      only if no line was routed to a built-in line. */
  lemma Conservation(s: State)
    requires Reachable(s)
    ensures !SentToBuiltIn(s) <==> forall fd :: fd in s.table && s.table[fd] != Device <==> InWindow(s, fd)
    ensures Unshared(s.table)
  {
    ReachableInv(s);
    forall fd | InWindow(s, fd) ensures fd in s.table && s.table[fd] != Device {
      WindowIsOpen(s, fd);
    }
    if SentToBuiltIn(s) {
      var d: nat, u: nat :| 0 <= d < |s.lines| && s.lines[d].BuiltIn? && Sent(s.lines, u, d);
      BuiltInLeaks(s, d, u);
    } else {
      forall fd | fd in s.table && s.table[fd] != Device ensures InWindow(s, fd) {
        HeldForLater(s, fd);
      }
    }
  }

  lemma StepKeepsDevices(s: State, line: Line, s': State)
    requires Inv(s) && WellFormed(line) && Step(s, line, s')
    ensures forall fd :: fd in s.table && s.table[fd] == Device <==> fd in s'.table && s'.table[fd] == Device
  {
    hide TableInv, EofInv, RouteInv, AtExecFrom, ChildrenStep, HistoryStep, WaitStep;
    assert SlotInv(s, 0);
  }

  /** The other descriptors of the shell are the ones it started with. */
  lemma {:induction false} DevicesKept(run: seq<State>)
    requires Run(run)
    ensures forall fd :: fd in run[0].table <==> fd in run[|run| - 1].table && run[|run| - 1].table[fd] == Device
  {
    if |run| > 1 {
      var line := LastLine(run);
      RunKeepsInv(run[..|run| - 1]);
      DevicesKept(run[..|run| - 1]);
      StepKeepsDevices(run[|run| - 2], line, run[|run| - 1]);
    }
  }

  lemma {:induction false} ShellNeverFaults(run: seq<State>)
    requires Run(run)
    ensures run[|run| - 1].faults == 0
  {
    if |run| > 1 {
      var line := LastLine(run);
      ShellNeverFaults(run[..|run| - 1]);
      assert run[|run| - 1].faults == run[|run| - 2].faults;
    }
  }

  /** The child has a redirection to a file that it cannot open. */
  predicate Refused(s: State, pid: nat)
    requires pid < |s.processes|
  {
    Redirects(s.processes[pid].command) && !s.opens(pid)
  }

  /** No close or dup2 of the shell ever hits a descriptor that is not open. None of a child does, and its
      command runs, if and only if the child has no redirection to a file that it cannot open. For a child
      that has one, exactly one call misses, the dup2 of the file, and the command does not run. */
  lemma NoFaults(s: State)
    requires Reachable(s)
    ensures s.faults == 0
    ensures forall pid :: 0 <= pid < |s.processes| ==>
      var p := s.processes[pid];
      && (p.started && p.faults == 0 <==> !Refused(s, pid))
      && (Refused(s, pid) ==> !p.started && p.faults == 1)
  {
    hide Redirects, Initial, Leads, WindowInv, TableInv, EofInv, RouteInv;
    var run :| Run(run) && run[|run| - 1] == s;
    ShellNeverFaults(run);
    ReachableInv(s);
    forall pid: nat | pid < |s.processes|
      ensures s.processes[pid].started <==> !Refused(s, pid)
      ensures s.processes[pid].faults == if Refused(s, pid) then 1 else 0
    {
      assert ChildAtExec(s.opens, s.processes, pid);
    }
  }

  // ---------------------------------------------------------------- delivery and waiting

  predicate HasLast(s: State, t: nat) {
    && t < |s.lines| == |s.first| && s.lines[t].Pipeline? && |s.lines[t].commands| > 0
    && (s.lines[t].destination != 0 ==> t + s.lines[t].destination in s.pipeOf)
    && 0 <= LastStage(s, t) < |s.processes|
  }

  function LastCommand(s: State, t: nat): string
    requires HasLast(s, t)
  {
    s.lines[t].commands[|s.lines[t].commands| - 1]
  }

  /** How the last stage of a line is connected. */
  lemma LastConnected(s: State, t: nat)
    requires LinesInv(s) && t < |s.lines| && s.lines[t].Pipeline?
    ensures HasLast(s, t) && s.processes[LastStage(s, t)].command == LastCommand(s, t)
    ensures Out(s.processes[LastStage(s, t)]) == LineOutput(s, t)
    ensures Err(s.processes[LastStage(s, t)]) == LineError(s, t)
  {
    assert LineInv(s, t);
    StageOf(s, t, Count(s.lines[t]) - 1);
  }

  /** Where a command writes, given where its stage is connected. */
  lemma OutputAtExec(p: Process, openable: bool)
    requires AtExec(p, openable) && (Out(p) == Device || Out(p).WriteEnd?)
    ensures p.started ==> Output(p) == if Redirects(p.command) then File(FileOf(p.command)) else Out(p)
    ensures p.started <==> !Redirects(p.command) || openable
  {
  }

  /** The standard output of line t's last command, when it runs. */
  function OutputOf(s: State, t: nat): End
    requires HasLast(s, t)
  {
    if Redirects(LastCommand(s, t)) then File(FileOf(LastCommand(s, t)))
    else if s.lines[t].destination != 0 && |s.lines[t].commands| <= 50 then
      WriteEnd(s.pipeOf[t + s.lines[t].destination])
    else Device
  }

  lemma LastAtExec(s: State, t: nat, last: Process)
    requires HasLast(s, t) && last.command == LastCommand(s, t) && Out(last) == LineOutput(s, t)
    requires AtExec(last, s.opens(LastStage(s, t)))
    ensures last.started <==> !Redirects(LastCommand(s, t)) || s.opens(LastStage(s, t))
    ensures last.started ==> Output(last) == OutputOf(s, t)
  {
    OutputAtExec(last, s.opens(LastStage(s, t)));
  }

  /** The output of a line's last command reaches the destination if and only if the line has one, was
      not sliced, and the command is not redirected to a file. A redirected command writes the file
      wherever the line was sent, and does not run if it cannot open it; all others write the terminal. */
  lemma Delivery(s: State, t: nat)
    requires Reachable(s) && t < |s.lines| && s.lines[t].Pipeline?
    ensures HasLast(s, t)
    ensures
      var last := s.processes[LastStage(s, t)];
      && (last.started <==> !Redirects(LastCommand(s, t)) || s.opens(LastStage(s, t)))
      && (last.started ==> Output(last) == OutputOf(s, t))
  {
    ReachableInv(s);
    LastConnected(s, t);
    assert ChildAtExec(s.opens, s.processes, LastStage(s, t));
    LastAtExec(s, t, s.processes[LastStage(s, t)]);
  }

  /** The standard error of a line's last command reaches the destination, with a redirection too, if and
      only if the line was not sliced, asked for it and was the first to be sent there. */
  lemma ErrorDelivery(s: State, t: nat)
    requires Reachable(s) && t < |s.lines| && s.lines[t].Pipeline?
    ensures HasLast(s, t)
    ensures
      var line, errors := s.lines[t], Errors(s.processes[LastStage(s, t)]);
      if line.destination != 0 && |line.commands| <= 50 && line.pipeStderr && !Shared(s.lines, t)
      then t + line.destination in s.pipeOf && errors == WriteEnd(s.pipeOf[t + line.destination])
      else errors == Device
  {
    ReachableInv(s);
    LastConnected(s, t);
    assert ChildAtExec(s.opens, s.processes, LastStage(s, t));
    ExecEnds(s.processes[LastStage(s, t)], s.opens(LastStage(s, t)), Device);
  }

  /** The children that the shell has waited for are exactly those of the lines that do not deliver. */
  ghost predicate Waited(s: State) {
    && |s.first| == |s.lines|
    && (forall pid :: pid in s.terminated ==> pid < |s.processes|)
    && (forall t, pid :: 0 <= t < |s.lines| && s.first[t] <= pid < s.first[t] + Count(s.lines[t]) ==>
          (pid in s.terminated <==> !Delivers(s.lines[t])))
  }

  lemma StepKeepsWaited(s: State, line: Line, s': State)
    requires Inv(s) && Waited(s) && WellFormed(line) && Step(s, line, s')
    ensures Waited(s')
  {
    Recorded(s, line, s');
    forall t, pid | 0 <= t < |s'.lines| && s'.first[t] <= pid < s'.first[t] + Count(s'.lines[t])
      ensures pid in s'.terminated <==> !Delivers(s'.lines[t])
    {
      if t < |s.lines| {
        assert LineInv(s, t);
        assert s'.lines[t] == s.lines[t] && s'.first[t] == s.first[t];
        assert pid in s.terminated <==> !Delivers(s.lines[t]);
      }
    }
  }

  /** When the prompt comes back after a line whose last stage writes to the terminal, every child of
      every chunk of the line has terminated; for any other line the shell waits for no child. */
  lemma {:induction false} PromptWaits(run: seq<State>)
    requires Run(run)
    ensures Waited(run[|run| - 1])
  {
    if |run| > 1 {
      var line := LastLine(run);
      RunKeepsInv(run[..|run| - 1]);
      PromptWaits(run[..|run| - 1]);
      StepKeepsWaited(run[|run| - 2], line, run[|run| - 1]);
    }
  }
}
