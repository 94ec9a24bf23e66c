/** What a session computes. Commands are arbitrary stream functions; the meaning of a session by
    line numbers alone is compared with the network of processes and pipes that the shell sets up. */
module Meaning {
  import opened Kernel
  import opened Session
  import opened Runs

  type Stream = string

  /** The world the shell runs in.
      run:   what a command writes to its standard output for a given input; the flag says whether
             its standard error goes to the same place.
      warn:  what it writes to its standard error alone.
      mix:   what the process with a given pid reads when several processes write its pipe.
      tty:   what the process with a given pid reads from the terminal.
      opens: whether the process with a given pid can open the file that its command is redirected to. */
  datatype World = World(
    run: (string, bool, Stream) -> Stream,
    warn: (string, Stream) -> Stream,
    mix: (nat, seq<Stream>) -> Stream,
    tty: nat -> Stream,
    opens: nat -> bool)

  /** A pipe with one writer delivers what that writer wrote. */
  ghost predicate Faithful(w: World) {
    forall pid, x :: w.mix(pid, [x]) == x
  }

  // ---------------------------------------------------------------- the network of processes

  /** What a process writes to its standard output; a child that did not start runs no command. */
  function Printed(w: World, p: Process, input: Stream): Stream {
    if p.started then w.run(p.command, Errors(p) == Output(p), input) else ""
  }

  /** What arrives at the end that a process's stage is connected to. A command that is redirected to a
      file sends nothing there but its standard error, if that still goes there. */
  function Emitted(w: World, p: Process, input: Stream): Stream {
    if Output(p) == Out(p) then Printed(w, p, input)
    else if p.started && Errors(p) == Out(p) then w.warn(p.command, input)
    else ""
  }

  /** What arrives at pipe q, in fork order of the writers. */
  function Written(procs: seq<Process>, outs: seq<Stream>, q: nat): seq<Stream>
    requires |outs| == |procs|
  {
    if procs == [] then []
    else
      var n := |procs| - 1;
      Written(procs[..n], outs[..n], q) + (if Out(procs[n]) == WriteEnd(q) then [outs[n]] else [])
  }

  function ReceivedBy(w: World, p: Process, pid: nat, procs: seq<Process>, outs: seq<Stream>): Stream
    requires |outs| == |procs|
  {
    match Input(p)
    case ReadEnd(q) => w.mix(pid, Written(procs, outs, q))
    case _ => w.tty(pid)
  }

  function Received(w: World, procs: seq<Process>, outs: seq<Stream>, pid: nat): Stream
    requires |outs| == |procs| && pid < |procs|
  {
    ReceivedBy(w, procs[pid], pid, procs, outs)
  }

  /** What arrives at a process's end is what its command makes of what it receives. */
  predicate SolvesAt(w: World, procs: seq<Process>, outs: seq<Stream>, pid: nat)
    requires |outs| == |procs| && pid < |procs|
  {
    outs[pid] == Emitted(w, procs[pid], Received(w, procs, outs, pid))
  }

  /** `outs` solves the network. */
  predicate Solves(w: World, procs: seq<Process>, outs: seq<Stream>) {
    && |outs| == |procs|
    && forall pid :: 0 <= pid < |procs| ==> SolvesAt(w, procs, outs, pid)
  }

  // ---------------------------------------------------------------- it has exactly one solution

  /** Running the processes one after the other, in fork order. */
  function Solution(w: World, procs: seq<Process>): (outs: seq<Stream>)
    ensures |outs| == |procs|
  {
    if procs == [] then []
    else
      var n := |procs| - 1;
      var before := Solution(w, procs[..n]);
      before + [Emitted(w, procs[n], ReceivedBy(w, procs[n], n, procs[..n], before))]
  }

  /** Every writer of a pipe comes before its readers. */
  ghost predicate Ordered(procs: seq<Process>) {
    forall i, j, q: nat {:trigger Out(procs[i]), ReadEnd(q), Input(procs[j])} | 0 <= i < |procs| && 0 <= j < |procs| ::
      Out(procs[i]) == WriteEnd(q) && Input(procs[j]) == ReadEnd(q) ==> i < j
  }

  lemma ReachableOrdered(s: State)
    requires Inv(s)
    ensures Ordered(s.processes)
  {
    forall i, j, q: nat | 0 <= i < |s.processes| && 0 <= j < |s.processes|
      && Out(s.processes[i]) == WriteEnd(q) && Input(s.processes[j]) == ReadEnd(q)
      ensures i < j
    {
      assert ChildAtExec(s.opens, s.processes, j);
      ExecEnds(s.processes[j], s.opens(j), Device);
      assert s.processes[i].table[STDOUT] == WriteEnd(q);
      assert Has(s.processes[i].table, WriteEnd(q));
    }
  }

  lemma {:induction false} SolutionAt(w: World, procs: seq<Process>, pid: nat)
    requires pid < |procs|
    ensures Solution(w, procs)[..pid] == Solution(w, procs[..pid])
    ensures Solution(w, procs)[pid] ==
      Emitted(w, procs[pid], ReceivedBy(w, procs[pid], pid, procs[..pid], Solution(w, procs[..pid])))
    decreases |procs|
  {
    var n := |procs| - 1;
    if pid < n {
      SolutionAt(w, procs[..n], pid);
      assert procs[..n][..pid] == procs[..pid];
      assert Solution(w, procs)[..pid] == Solution(w, procs[..n])[..pid];
    }
  }

  lemma {:induction false} WrittenBy(procs: seq<Process>, outs: seq<Stream>, p: nat, writer: int)
    requires |outs| == |procs|
    requires forall a :: 0 <= a < |procs| ==> (Out(procs[a]) == WriteEnd(p) <==> a == writer)
    ensures Written(procs, outs, p) == if 0 <= writer < |procs| then [outs[writer]] else []
  {
    if procs != [] {
      var n := |procs| - 1;
      WrittenBy(procs[..n], outs[..n], p, writer);
    }
  }

  lemma {:induction false} WrittenAppend(a: seq<Process>, b: seq<Process>, x: seq<Stream>, y: seq<Stream>, p: nat)
    requires |a| == |x| && |b| == |y|
    ensures Written(a + b, x + y, p) == Written(a, x, p) + Written(b, y, p)
  {
    if b == [] {
      assert a + b == a && x + y == x;
    } else {
      var n := |b| - 1;
      WrittenAppend(a, b[..n], x, y[..n], p);
      assert (a + b)[..|a| + n] == a + b[..n] && (x + y)[..|a| + n] == x + y[..n];
    }
  }

  lemma WrittenBefore(procs: seq<Process>, outs: seq<Stream>, p: nat, e: nat)
    requires |outs| == |procs| && e <= |procs|
    requires forall a :: e <= a < |procs| ==> Out(procs[a]) != WriteEnd(p)
    ensures Written(procs, outs, p) == Written(procs[..e], outs[..e], p)
  {
    hide Written;
    WrittenBy(procs[e..], outs[e..], p, -1);
    WrittenAppend(procs[..e], procs[e..], outs[..e], outs[e..], p);
    assert procs[..e] + procs[e..] == procs && outs[..e] + outs[e..] == outs;
  }

  /** A process receives only from processes before it. */
  lemma ReceivedFromBefore(w: World, procs: seq<Process>, outs: seq<Stream>, pid: nat)
    requires Ordered(procs) && |outs| == |procs| && pid < |procs|
    ensures Received(w, procs, outs, pid) == ReceivedBy(w, procs[pid], pid, procs[..pid], outs[..pid])
  {
    if Input(procs[pid]).ReadEnd? {
      var q := Input(procs[pid]).pipe;
      assert Input(procs[pid]) == ReadEnd(q);
      WrittenBefore(procs, outs, q, pid);
    }
  }

  lemma SolutionSolves(w: World, procs: seq<Process>)
    requires Ordered(procs)
    ensures Solves(w, procs, Solution(w, procs))
  {
    forall pid | 0 <= pid < |procs| ensures SolvesAt(w, procs, Solution(w, procs), pid) {
      SolutionAt(w, procs, pid);
      ReceivedFromBefore(w, procs, Solution(w, procs), pid);
    }
  }

  lemma {:induction false} SolutionsAgree(w: World, procs: seq<Process>, a: seq<Stream>, b: seq<Stream>, n: nat)
    requires Ordered(procs) && Solves(w, procs, a) && Solves(w, procs, b) && n <= |procs|
    ensures a[..n] == b[..n]
  {
    if n > 0 {
      var pid := n - 1;
      SolutionsAgree(w, procs, a, b, pid);
      assert SolvesAt(w, procs, a, pid) && SolvesAt(w, procs, b, pid);
      ReceivedFromBefore(w, procs, a, pid);
      ReceivedFromBefore(w, procs, b, pid);
      assert a[..n] == a[..pid] + [a[pid]] && b[..n] == b[..pid] + [b[pid]];
    }
  }

  /** Every reachable network assigns exactly one stream to every process. */
  lemma OneSolution(w: World, s: State, outs: seq<Stream>)
    requires Reachable(s)
    ensures Solves(w, s.processes, outs) <==> outs == Solution(w, s.processes)
  {
    ReachableInv(s);
    ReachableOrdered(s);
    SolutionSolves(w, s.processes);
    if Solves(w, s.processes, outs) {
      SolutionsAgree(w, s.processes, outs, Solution(w, s.processes), |outs|);
      assert outs[..|outs|] == outs && Solution(w, s.processes)[..|outs|] == Solution(w, s.processes);
    }
  }

  // ---------------------------------------------------------------- the meaning by line numbers

  /** The pid of the first child of line t. */
  function FirstPid(lines: seq<Line>, t: nat): nat
    requires t <= |lines|
  {
    if t == 0 then 0 else FirstPid(lines, t - 1) + Count(lines[t - 1])
  }

  /** The last stage's standard error goes where its output goes: to the terminal, or with `!N` to a
      destination that no earlier line was sent to. */
  predicate LastJoins(lines: seq<Line>, t: nat)
    requires t < |lines| && lines[t].Pipeline?
  {
    Delivers(lines[t]) ==> lines[t].pipeStderr && !Shared(lines, t)
  }

  /** What one command of a pipeline contributes to the next. */
  function StageOut(w: World, pid: nat, command: string, joins: bool, input: Stream): Stream {
    if !Redirects(command) then w.run(command, joins, input)
    else if joins && w.opens(pid) then w.warn(command, input)
    else ""
  }

  /** What stage k of a pipeline writes for a given input: the unsliced pipeline, whose first process
      has pid `from`. */
  function Compose(w: World, line: Line, lastJoins: bool, from: nat, k: nat, input: Stream): Stream
    requires line.Pipeline? && k < |line.commands|
    decreases k
  {
    StageOut(w, from + k, line.commands[k],
             if k == |line.commands| - 1 then lastJoins else line.pipeStderr,
             if k == 0 then input else Compose(w, line, lastJoins, from, k - 1, input))
  }

  predicate AllWellFormed(lines: seq<Line>) {
    forall u :: 0 <= u < |lines| ==> WellFormed(lines[u])
  }

  /** What line t writes at its end. */
  function LineOut(w: World, lines: seq<Line>, t: nat): Stream
    requires t < |lines| && lines[t].Pipeline?
    requires AllWellFormed(lines)
    decreases t, 1
  {
    Compose(w, lines[t], LastJoins(lines, t), FirstPid(lines, t), |lines[t].commands| - 1, LineIn(w, lines, t))
  }

  /** What line t reads: the outputs of the lines sent to it, or the terminal if there are none. */
  function LineIn(w: World, lines: seq<Line>, t: nat): Stream
    requires t < |lines|
    requires AllWellFormed(lines)
    decreases t, 0, |lines|
  {
    if exists u :: 0 <= u < t && Sent(lines, u, t)
    then w.mix(FirstPid(lines, t), Arrivals(w, lines, t, t))
    else w.tty(FirstPid(lines, t))
  }

  function Arrivals(w: World, lines: seq<Line>, t: nat, k: nat): seq<Stream>
    requires k <= t < |lines|
    requires AllWellFormed(lines)
    decreases t, 0, k
  {
    if k == 0 then []
    else
      Arrivals(w, lines, t, k - 1) +
      (if Delivers(lines[k - 1]) && Sent(lines, k - 1, t) then [LineOut(w, lines, k - 1)] else [])
  }

  // ---------------------------------------------------------------- they agree

  lemma {:induction false} FirstIs(s: State, t: nat)
    requires LayoutInv(s) && t < |s.lines|
    ensures s.first[t] == FirstPid(s.lines, t)
  {
    if t > 0 {
      FirstIs(s, t - 1);
      assert s.first[t] == s.first[t - 1] + Count(s.lines[t - 1]);
    }
  }

  /** A pipe between two stages carries exactly what the earlier stage writes. */
  lemma InnerPipe(s: State, outs: seq<Stream>, t: nat, k: nat)
    requires Inv(s) && |outs| == |s.processes| && t < |s.lines| && k < Count(s.lines[t]) - 1
    ensures s.first[t] + k < |s.processes|
    ensures Out(s.processes[s.first[t] + k]).WriteEnd?
    ensures Written(s.processes, outs, Out(s.processes[s.first[t] + k]).pipe) == [outs[s.first[t] + k]]
  {
    StageOf(s, t, k);
    var a := s.first[t] + k;
    var e := Out(s.processes[a]);
    assert !Numbered(s.pipeOf, e);
    forall b | 0 <= b < |s.processes| && Out(s.processes[b]) == e ensures b == a {
    }
    WrittenBy(s.processes, outs, e.pipe, a);
  }

  /** The children of every line are among the processes. */
  predicate Fits(s: State) {
    && |s.first| == |s.lines| && AllWellFormed(s.lines)
    && forall u :: 0 <= u < |s.lines| ==> s.first[u] + Count(s.lines[u]) <= |s.processes|
  }

  /** The last stage of line u writes what the line means. */
  predicate Computed(w: World, s: State, outs: seq<Stream>, u: nat)
    requires Fits(s) && |outs| == |s.processes| && u < |s.lines|
  {
    s.lines[u].Pipeline? ==>
      s.first[u] + Count(s.lines[u]) <= |outs| && outs[s.first[u] + Count(s.lines[u]) - 1] == LineOut(w, s.lines, u)
  }

  /** The stage of line u that writes the pipe of destination t, if any. */
  function WriterTo(s: State, u: nat, t: nat): int
    requires u < |s.lines|
  {
    if Delivers(s.lines[u]) && Sent(s.lines, u, t) then Count(s.lines[u]) - 1 else -1
  }

  lemma LineWriter(s: State, u: nat, t: nat, a: nat)
    requires PipesInv(s) && LinesInv(s) && t in s.pipeOf && u < |s.lines| && Fits(s) && a < Count(s.lines[u])
    ensures a < |Stages(s, u)| && (Out(Stages(s, u)[a]) == WriteEnd(s.pipeOf[t]) <==> a == WriterTo(s, u, t))
  {
    StageWrites(s, u, a, t);
    StageOf(s, u, a);
  }

  /** What line u contributes to the pipe of destination t. */
  lemma LineWrites(s: State, outs: seq<Stream>, u: nat, t: nat)
    requires PipesInv(s) && LinesInv(s) && |outs| == |s.processes| && t in s.pipeOf && u < |s.lines| && Fits(s)
    ensures Written(Stages(s, u), outs[s.first[u]..s.first[u] + Count(s.lines[u])], s.pipeOf[t]) ==
      if Delivers(s.lines[u]) && Sent(s.lines, u, t) then [outs[s.first[u] + Count(s.lines[u]) - 1]] else []
  {
    var procs, n := Stages(s, u), Count(s.lines[u]);
    forall a | 0 <= a < |procs| ensures Out(procs[a]) == WriteEnd(s.pipeOf[t]) <==> a == WriterTo(s, u, t) {
      LineWriter(s, u, t, a);
    }
    WrittenBy(procs, outs[s.first[u]..s.first[u] + n], s.pipeOf[t], WriterTo(s, u, t));
  }

  lemma WrittenUpTo(s: State, outs: seq<Stream>, u: nat, p: nat)
    requires Fits(s) && |outs| == |s.processes| && u < |s.lines|
    ensures
      var f, e := s.first[u], s.first[u] + Count(s.lines[u]);
      Written(s.processes[..e], outs[..e], p) ==
      Written(s.processes[..f], outs[..f], p) + Written(Stages(s, u), outs[f..e], p)
  {
    var f, e := s.first[u], s.first[u] + Count(s.lines[u]);
    WrittenAppend(s.processes[..f], Stages(s, u), outs[..f], outs[f..e], p);
    assert s.processes[..f] + Stages(s, u) == s.processes[..e];
    assert outs[..f] + outs[f..e] == outs[..e];
  }

  lemma NextFirst(s: State, k: nat)
    requires LayoutInv(s) && k < |s.lines|
    ensures s.first[k] == if k == 0 then 0 else s.first[k - 1] + Count(s.lines[k - 1])
  {
  }

  /** The processes before line k have written to the pipe of destination t what the arrivals say. */
  ghost predicate Arrived(w: World, s: State, outs: seq<Stream>, t: nat, k: nat)
    requires Fits(s) && |outs| == |s.processes| && t in s.pipeOf && k <= t < |s.lines|
  {
    Written(s.processes[..s.first[k]], outs[..s.first[k]], s.pipeOf[t]) == Arrivals(w, s.lines, t, k)
  }

  /** One more line's output reaches the pipe if and only if it is among the arrivals. */
  lemma OneArrival(w: World, s: State, outs: seq<Stream>, t: nat, u: nat)
    requires Inv(s) && Fits(s) && |outs| == |s.processes| && t in s.pipeOf && u < t < |s.lines|
    requires Computed(w, s, outs, u) && Arrived(w, s, outs, t, u)
    ensures Arrived(w, s, outs, t, u + 1)
  {
    hide Written, LayoutInv, WritersInv, SourcesInv, LineInv;
    NextFirst(s, u + 1);
    LineWrites(s, outs, u, t);
    WrittenUpTo(s, outs, u, s.pipeOf[t]);
  }

  lemma {:induction false} ArrivalsMatch(w: World, s: State, outs: seq<Stream>, t: nat, k: nat)
    requires Inv(s) && Fits(s) && |outs| == |s.processes| && t in s.pipeOf && k <= t < |s.lines|
    requires forall u :: 0 <= u < t ==> Computed(w, s, outs, u)
    ensures Arrived(w, s, outs, t, k)
  {
    if k == 0 {
      NextFirst(s, 0);
    } else {
      ArrivalsMatch(w, s, outs, t, k - 1);
      OneArrival(w, s, outs, t, k - 1);
    }
  }

  lemma {:induction false} FirstGrows(s: State, t: nat, u: nat)
    requires LayoutInv(s) && t <= u < |s.lines|
    ensures s.first[t] <= s.first[u]
    ensures t < u ==> s.first[t] + Count(s.lines[t]) <= s.first[u]
  {
    if t < u {
      FirstGrows(s, t, u - 1);
      NextFirst(s, u);
    }
  }

  lemma LateProcess(s: State, t: nat, a: nat)
    requires Inv(s) && t in s.pipeOf && t < |s.lines| && s.first[t] <= a < |s.processes|
    ensures Out(s.processes[a]) != WriteEnd(s.pipeOf[t])
  {
    WritersOf(s, t, a);
    if DeliversTo(s, t, a) {
      var u: nat :| Sent(s.lines, u, t) && Delivers(s.lines[u]) && a == LastStage(s, u);
      FirstGrows(s, u, t);
    }
  }

  /** Lines from t on write nothing to the pipe that line t reads. */
  lemma NoLateArrivals(s: State, outs: seq<Stream>, t: nat)
    requires Inv(s) && Fits(s) && |outs| == |s.processes| && t in s.pipeOf && t < |s.lines|
    ensures Written(s.processes, outs, s.pipeOf[t]) ==
            Written(s.processes[..s.first[t]], outs[..s.first[t]], s.pipeOf[t])
  {
    forall a | s.first[t] <= a < |s.processes| ensures Out(s.processes[a]) != WriteEnd(s.pipeOf[t]) {
      LateProcess(s, t, a);
    }
    WrittenBefore(s.processes, outs, s.pipeOf[t], s.first[t]);
  }

  /** The first stage of line t receives what the lines sent to it wrote, or the terminal. */
  lemma FirstReceives(w: World, s: State, outs: seq<Stream>, t: nat)
    requires Inv(s) && |outs| == |s.processes| && t < |s.lines| && s.lines[t].Pipeline? && Fits(s)
    requires forall u :: 0 <= u < t ==> Computed(w, s, outs, u)
    ensures s.first[t] < |outs| && Received(w, s.processes, outs, s.first[t]) == LineIn(w, s.lines, t)
  {
    ReadsIfSent(s, t);
    FirstIs(s, t);
    assert ChildAtExec(s.opens, s.processes, s.first[t]);
    ExecEnds(s.processes[s.first[t]], s.opens(s.first[t]), Device);
    if t in s.pipeOf {
      NoLateArrivals(s, outs, t);
      ArrivalsMatch(w, s, outs, t, t);
      var u: nat :| Sent(s.lines, u, t);
      assert u < t;
    } else {
      forall u: nat | u < t ensures !Sent(s.lines, u, t) {}
    }
  }

  /** How stage k of line t is wired. */
  lemma StageWired(s: State, t: nat, k: nat)
    requires Inv(s) && t < |s.lines| && k < Count(s.lines[t])
    ensures
      var a := s.first[t] + k;
      && a < |s.processes|
      && s.processes[a].command == s.lines[t].commands[k]
      && (Out(s.processes[a]) == Err(s.processes[a]) <==>
            if k == Count(s.lines[t]) - 1 then LastJoins(s.lines, t) else s.lines[t].pipeStderr)
      && !Out(s.processes[a]).File? && !Err(s.processes[a]).File?
      && (k > 0 ==> Out(s.processes[a - 1]).WriteEnd? && In(s.processes[a]) == ReadEnd(Out(s.processes[a - 1]).pipe))
  {
    StageOf(s, t, k);
    var procs := Stages(s, t);
    assert procs[k].command == s.lines[t].commands[k];
    if k > 0 {
      StageOf(s, t, k - 1);
      assert In(procs[k]) == ReadEnd(Out(procs[k - 1]).pipe);
    }
  }

  /** What a stage after the first receives. */
  lemma StageReceives(w: World, s: State, outs: seq<Stream>, t: nat, k: nat)
    requires Inv(s) && Faithful(w) && |outs| == |s.processes| && t < |s.lines| && 0 < k < Count(s.lines[t])
    ensures s.first[t] + k < |outs| && Received(w, s.processes, outs, s.first[t] + k) == outs[s.first[t] + k - 1]
  {
    StageWired(s, t, k);
    assert ChildAtExec(s.opens, s.processes, s.first[t] + k);
    ExecEnds(s.processes[s.first[t] + k], s.opens(s.first[t] + k), Device);
    InnerPipe(s, outs, t, k - 1);
  }

  lemma EmittedIs(w: World, p: Process, pid: nat, joins: bool, input: Stream)
    requires AtExec(p, w.opens(pid)) && !Out(p).File? && (Out(p) == Err(p) <==> joins)
    ensures Emitted(w, p, input) == StageOut(w, pid, p.command, joins, input)
  {
    ExecEnds(p, w.opens(pid), Device);
  }

  lemma StageEmits(w: World, s: State, outs: seq<Stream>, t: nat, k: nat, input: Stream)
    requires Inv(s) && w.opens == s.opens && Solves(w, s.processes, outs) && t < |s.lines| && k < Count(s.lines[t])
    requires s.first[t] + k < |outs| && Received(w, s.processes, outs, s.first[t] + k) == input
    ensures outs[s.first[t] + k] == StageOut(w, s.first[t] + k, s.lines[t].commands[k],
      if k == Count(s.lines[t]) - 1 then LastJoins(s.lines, t) else s.lines[t].pipeStderr, input)
  {
    var a := s.first[t] + k;
    StageWired(s, t, k);
    assert SolvesAt(w, s.processes, outs, a);
    assert ChildAtExec(s.opens, s.processes, a);
    var joins := if k == Count(s.lines[t]) - 1 then LastJoins(s.lines, t) else s.lines[t].pipeStderr;
    EmittedIs(w, s.processes[a], a, joins, input);
  }

  lemma {:induction false} StageComputes(w: World, s: State, outs: seq<Stream>, t: nat, k: nat)
    requires Inv(s) && Faithful(w) && w.opens == s.opens && Solves(w, s.processes, outs)
    requires t < |s.lines| && k < Count(s.lines[t]) && Fits(s)
    requires s.first[t] < |outs| && Received(w, s.processes, outs, s.first[t]) == LineIn(w, s.lines, t)
    ensures s.first[t] + k < |outs|
    ensures outs[s.first[t] + k] == Compose(w, s.lines[t], LastJoins(s.lines, t), s.first[t], k, LineIn(w, s.lines, t))
  {
    hide Redirects;
    StageWired(s, t, k);
    if k > 0 {
      StageComputes(w, s, outs, t, k - 1);
      StageReceives(w, s, outs, t, k);
    }
    StageEmits(w, s, outs, t, k, Received(w, s.processes, outs, s.first[t] + k));
  }

  lemma {:induction false} LineComputes(w: World, s: State, outs: seq<Stream>, t: nat)
    requires Inv(s) && Faithful(w) && w.opens == s.opens && Solves(w, s.processes, outs)
    requires t < |s.lines| && s.lines[t].Pipeline? && Fits(s)
    ensures s.first[t] < |outs| && Received(w, s.processes, outs, s.first[t]) == LineIn(w, s.lines, t)
    ensures Computed(w, s, outs, t)
  {
    hide Redirects;
    forall u | 0 <= u < t ensures Computed(w, s, outs, u) {
      if s.lines[u].Pipeline? { LineComputes(w, s, outs, u); }
    }
    FirstReceives(w, s, outs, t);
    FirstIs(s, t);
    StageComputes(w, s, outs, t, Count(s.lines[t]) - 1);
  }

  lemma LinesFit(s: State)
    requires LinesInv(s)
    ensures Fits(s)
  {
    forall u | 0 <= u < |s.lines| ensures WellFormed(s.lines[u]) && s.first[u] + Count(s.lines[u]) <= |s.processes| {
      assert LineInv(s, u);
    }
  }

  lemma StageMeaning(w: World, s: State, outs: seq<Stream>, t: nat, k: nat)
    requires Inv(s) && Faithful(w) && w.opens == s.opens && Solves(w, s.processes, outs)
    requires t < |s.lines| && s.lines[t].Pipeline? && k < |s.lines[t].commands|
    ensures AllWellFormed(s.lines) && FirstPid(s.lines, t) == s.first[t] && s.first[t] + k < |outs|
    ensures outs[s.first[t] + k] == Compose(w, s.lines[t], LastJoins(s.lines, t), s.first[t], k, LineIn(w, s.lines, t))
  {
    hide Redirects;
    LinesFit(s);
    FirstIs(s, t);
    LineComputes(w, s, outs, t);
    StageComputes(w, s, outs, t, k);
  }

  /** The network of processes computes the meaning of the session by line numbers: stage k of line t,
      sliced or not, contributes what the first k + 1 commands of the whole line compute. */
  lemma SessionMeaning(w: World, s: State, t: nat, k: nat)
    requires Reachable(s) && Faithful(w) && w.opens == s.opens
    requires t < |s.lines| && s.lines[t].Pipeline? && k < |s.lines[t].commands|
    ensures AllWellFormed(s.lines)
    ensures FirstPid(s.lines, t) + k < |s.processes|
    ensures Solution(w, s.processes)[FirstPid(s.lines, t) + k] ==
      Compose(w, s.lines[t], LastJoins(s.lines, t), FirstPid(s.lines, t), k, LineIn(w, s.lines, t))
  {
    hide Redirects, Compose, Solution, LineIn;
    var outs := Solution(w, s.processes);
    ReachableInv(s);
    OneSolution(w, s, outs);
    StageMeaning(w, s, outs, t, k);
  }

  // ---------------------------------------------------------------- redirected commands

  /** What stage k of line t reads, by line numbers. */
  function StageIn(w: World, lines: seq<Line>, t: nat, k: nat): Stream
    requires AllWellFormed(lines) && t < |lines| && lines[t].Pipeline? && k < |lines[t].commands|
  {
    if k == 0 then LineIn(w, lines, t)
    else Compose(w, lines[t], LastJoins(lines, t), FirstPid(lines, t), k - 1, LineIn(w, lines, t))
  }

  /** Every stage receives what it reads by line numbers. */
  lemma StageReads(w: World, s: State, outs: seq<Stream>, t: nat, k: nat)
    requires Inv(s) && Faithful(w) && w.opens == s.opens && Solves(w, s.processes, outs)
    requires t < |s.lines| && s.lines[t].Pipeline? && k < |s.lines[t].commands|
    ensures AllWellFormed(s.lines) && FirstPid(s.lines, t) == s.first[t] && s.first[t] + k < |outs|
    ensures Received(w, s.processes, outs, s.first[t] + k) == StageIn(w, s.lines, t, k)
  {
    hide Redirects, Compose, LineIn, Received, WindowInv, TableInv, EofInv, AtExecFrom, LinesInv, WritersInv;
    hide SourcesInv, SolvesAt;
    LinesFit(s);
    FirstIs(s, t);
    if k == 0 {
      LineComputes(w, s, outs, t);
    } else {
      StageMeaning(w, s, outs, t, k - 1);
      StageReceives(w, s, outs, t, k);
    }
  }

  lemma FileWriter(w: World, p: Process, openable: bool, input: Stream)
    requires AtExec(p, openable) && Redirects(p.command) && !Err(p).File?
    ensures openable ==> Output(p) == File(FileOf(p.command)) && Printed(w, p, input) == w.run(p.command, false, input)
    ensures !openable ==> !p.started && Printed(w, p, input) == ""
  {
  }

  /** A command that is redirected writes to its file what it makes of its stage's input, wherever the
      line was sent, if the file can be opened; otherwise it writes nothing. */
  lemma FileMeaning(w: World, s: State, t: nat, k: nat)
    requires Reachable(s) && Faithful(w) && w.opens == s.opens
    requires t < |s.lines| && s.lines[t].Pipeline? && k < |s.lines[t].commands| && Redirects(s.lines[t].commands[k])
    ensures AllWellFormed(s.lines) && FirstPid(s.lines, t) + k < |s.processes|
    ensures
      var pid, command := FirstPid(s.lines, t) + k, s.lines[t].commands[k];
      var p := s.processes[pid];
      var printed := Printed(w, p, Received(w, s.processes, Solution(w, s.processes), pid));
      if s.opens(pid)
      then Output(p) == File(FileOf(command)) && printed == w.run(command, false, StageIn(w, s.lines, t, k))
      else !p.started && printed == ""
  {
    hide Redirects, FileOf, AtExec, Printed, Solution, StageIn, Received, Reachable;
    var outs := Solution(w, s.processes);
    ReachableInv(s);
    OneSolution(w, s, outs);
    StageReads(w, s, outs, t, k);
    StageWired(s, t, k);
    var pid := s.first[t] + k;
    assert ChildAtExec(s.opens, s.processes, pid);
    FileWriter(w, s.processes[pid], s.opens(pid), Received(w, s.processes, outs, pid));
  }

  // ---------------------------------------------------------------- stage by stage

  /** Stage k of line t sends its standard error where its output goes. */
  predicate Joins(lines: seq<Line>, t: nat, k: nat)
    requires t < |lines| && lines[t].Pipeline? && k < |lines[t].commands|
  {
    if k < |lines[t].commands| - 1 then lines[t].pipeStderr
    else lines[t].destination == 0 || |lines[t].commands| > 50 || (lines[t].pipeStderr && !Shared(lines, t))
  }

  /** Line u was sent to line t, delivers, and is the only line that was sent there. */
  ghost predicate OnlyFrom(lines: seq<Line>, u: nat, t: nat) {
    Sent(lines, u, t) && Delivers(lines[u]) && forall v: nat :: v != u ==> !Sent(lines, v, t)
  }

  lemma {:induction false} OneArrivalOnly(w: World, lines: seq<Line>, t: nat, u: nat, k: nat)
    requires AllWellFormed(lines) && k <= t < |lines| && u < t && OnlyFrom(lines, u, t)
    ensures Arrivals(w, lines, t, k) == if u < k then [LineOut(w, lines, u)] else []
    decreases k
  {
    hide LineOut, Delivers;
    if k > 0 {
      OneArrivalOnly(w, lines, t, u, k - 1);
      assert k - 1 != u ==> !Sent(lines, k - 1, t);
    }
  }

  /** What the first stage of a line reads: the terminal, if no line was sent there. */
  lemma ReadsTerminal(w: World, lines: seq<Line>, t: nat)
    requires AllWellFormed(lines) && t < |lines| && forall u: nat :: !Sent(lines, u, t)
    ensures LineIn(w, lines, t) == w.tty(FirstPid(lines, t))
  {
  }

  /** And what the last stage of the one line writes that was. */
  lemma ReadsSender(w: World, s: State, outs: seq<Stream>, t: nat, u: nat)
    requires Inv(s) && Faithful(w) && w.opens == s.opens && Solves(w, s.processes, outs)
    requires t < |s.lines| && OnlyFrom(s.lines, u, t)
    ensures AllWellFormed(s.lines) && |s.first| == |s.lines|
    ensures 0 <= LastStage(s, u) < |outs| && LineIn(w, s.lines, t) == outs[LastStage(s, u)]
  {
    hide Redirects, WindowInv, TableInv, EofInv, AtExecFrom, LineOut, Arrivals, LinesInv, SolvesAt;
    LinesFit(s);
    OneArrivalOnly(w, s.lines, t, u, t);
    LineComputes(w, s, outs, u);
  }

  /** The network stage by stage: a command without a redirection writes what it makes of what the stage before
      it writes; the first one reads the terminal, or what the last stage of the one line writes that was sent
      there. */
  lemma StageEquation(w: World, s: State, t: nat, k: nat)
    requires Reachable(s) && Faithful(w) && w.opens == s.opens
    requires t < |s.lines| && s.lines[t].Pipeline? && k < |s.lines[t].commands| && !Redirects(s.lines[t].commands[k])
    ensures |s.first| == |s.lines| && 0 <= FirstStage(s, t) && FirstStage(s, t) + k < |s.processes|
    ensures
      var outs, pid := Solution(w, s.processes), FirstStage(s, t) + k;
      var command, joins := s.lines[t].commands[k], Joins(s.lines, t, k);
      && (k > 0 ==> outs[pid] == w.run(command, joins, outs[pid - 1]))
      && (k == 0 && (forall u: nat :: !Sent(s.lines, u, t)) ==> outs[pid] == w.run(command, joins, w.tty(pid)))
      && (forall u: nat :: k == 0 && OnlyFrom(s.lines, u, t) ==>
            0 <= LastStage(s, u) < |outs| && outs[pid] == w.run(command, joins, outs[LastStage(s, u)]))
  {
    hide Redirects, Compose, LineIn, Received, WindowInv, TableInv, EofInv, AtExecFrom, LinesInv, WritersInv;
    hide SourcesInv, SolvesAt, Solution, Reachable;
    var outs := Solution(w, s.processes);
    ReachableInv(s);
    OneSolution(w, s, outs);
    StageReads(w, s, outs, t, k);
    StageEmits(w, s, outs, t, k, Received(w, s.processes, outs, s.first[t] + k));
    if k > 0 {
      StageReceives(w, s, outs, t, k);
    } else {
      if forall u: nat :: !Sent(s.lines, u, t) { ReadsTerminal(w, s.lines, t); }
      forall u: nat | OnlyFrom(s.lines, u, t)
        ensures 0 <= LastStage(s, u) < |outs| && LineIn(w, s.lines, t) == outs[LastStage(s, u)]
      {
        ReadsSender(w, s, outs, t, u);
      }
    }
  }
}
