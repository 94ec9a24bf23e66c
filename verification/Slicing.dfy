/** A pipeline that is run in chunks is wired as if it had been run in one piece. */
module Slicing {
  import opened Kernel
  import opened Session
  import opened Chunks

  /** What the first stage of the line reads. */
  function LineEntry(s: State): End
    requires |s.window| == WINDOW
  {
    if s.window[0].input in s.table then s.table[s.window[0].input] else Device
  }

  predicate Made(procs: seq<Process>, commands: seq<string>) {
    |procs| <= |commands| && forall k :: 0 <= k < |procs| ==> Ready(procs[k]) && procs[k].command == commands[k]
  }

  /** The first `inner` stages write pipes of their own in [lo, hi). */
  predicate Piped(procs: seq<Process>, inner: int, pipeStderr: bool, lo: nat, hi: nat) {
    inner <= |procs| && forall k :: 0 <= k < inner ==>
      && Out(procs[k]).WriteEnd? && lo <= Out(procs[k]).pipe < hi
      && Err(procs[k]) == if pipeStderr then Out(procs[k]) else Device
  }

  predicate Distinct(procs: seq<Process>, inner: int) {
    inner <= |procs| && forall j, k :: 0 <= j < k < inner ==> Out(procs[j]) != Out(procs[k])
  }

  /** `b` reads the pipe that `a` writes. */
  predicate Feeds(a: Process, b: Process) {
    Out(a).WriteEnd? && In(b) == ReadEnd(Out(a).pipe)
  }

  /** Each stage reads what the stage before it writes. */
  predicate Chained(procs: seq<Process>) {
    forall j, k :: 0 <= j < |procs| && k == j + 1 && k < |procs| ==> Feeds(procs[j], procs[k])
  }

  /** `procs` are the first stages of the line, and the first `inner` of them write a pipe to their successor. */
  ghost predicate Prefix(s: State, line: Line, procs: seq<Process>, inner: int, next: nat)
    requires line.Pipeline? && |s.window| == WINDOW
  {
    && Made(procs, line.commands)
    && Piped(procs, inner, line.pipeStderr, FirstInner(s, line), next)
    && Distinct(procs, inner)
    && Chained(procs)
    && (procs != [] ==> In(procs[0]) == LineEntry(s))
    && HoldsOnly(procs, s.table, s.window[0], Target(s, line))
    && FirstInner(s, line) <= next
  }

  /** The write ends that a chunk inherits: those of HoldsOnly, and what its last stage writes. */
  ghost predicate Inherits(s: State, line: Line, t: Table, f: Node)
    requires |s.window| == WINDOW && f.output in t
  {
    forall p: nat {:trigger Has(t - Entry(f), WriteEnd(p))} :: Has(t - Entry(f), WriteEnd(p)) ==>
      Has(s.table - Entry(s.window[0]), WriteEnd(p)) || Target(s, line) == WriteEnd(p) || t[f.output] == WriteEnd(p)
  }

  lemma ExtendHolds(s: State, line: Line, procs: seq<Process>, t: Table, f: Node, chunk: seq<Process>,
                    commands: seq<string>, base: nat)
    requires |s.window| == WINDOW && line.Pipeline? && HoldsOnly(procs, s.table, s.window[0], Target(s, line))
    requires Plugged(t, f) && ChunkWired(t, f, chunk, commands, line.pipeStderr, base) && ChunkHolds(t, f, chunk, base)
    requires Inherits(s, line, t, f)
    ensures HoldsOnly(procs + chunk, s.table, s.window[0], Target(s, line))
  {
    var joined := procs + chunk;
    forall k, p: nat | 0 <= k < |joined| && Has(joined[k].table, WriteEnd(p))
      ensures Has(s.table - Entry(s.window[0]), WriteEnd(p)) || Target(s, line) == WriteEnd(p)
              || exists l :: k <= l < |joined| && Out(joined[l]) == WriteEnd(p)
    {
      if k < |procs| {
        assert Has(procs[k].table, WriteEnd(p));
        if l :| k <= l < |procs| && Out(procs[l]) == WriteEnd(p) {
          assert Out(joined[l]) == WriteEnd(p);
        }
      } else {
        var j := k - |procs|;
        assert Has(chunk[j].table, WriteEnd(p));
        if base + j <= p < base + |chunk| - 1 {
          assert Out(joined[|procs| + (p - base)]) == Out(chunk[p - base]) == WriteEnd(p);
        } else if t[f.output] == WriteEnd(p) {
          assert Out(joined[|joined| - 1]) == Out(chunk[|chunk| - 1]);
        }
      }
    }
  }

  lemma ExtendMade(procs: seq<Process>, chunk: seq<Process>, commands: seq<string>)
    requires Made(procs, commands) && |procs| + |chunk| <= |commands|
    requires Made(chunk, commands[|procs|..|procs| + |chunk|])
    ensures Made(procs + chunk, commands)
  {
  }

  lemma ExtendChained(procs: seq<Process>, chunk: seq<Process>)
    requires Chained(procs) && Chained(chunk)
    requires procs != [] && chunk != [] ==> Feeds(procs[|procs| - 1], chunk[0])
    ensures Chained(procs + chunk)
  {
    var joined, i := procs + chunk, |procs|;
    forall j, k | 0 <= j < |joined| && k == j + 1 && k < |joined| ensures Feeds(joined[j], joined[k]) {
      if j >= i {
        assert joined[j] == chunk[j - i] && joined[k] == chunk[k - i];
      } else if k < i {
        assert joined[j] == procs[j] && joined[k] == procs[k];
      } else {
        assert joined[j] == procs[i - 1] && joined[k] == chunk[0];
      }
    }
  }

  /** A chunk joins the stages before it when its first stage reads what their last stage writes. */
  lemma ExtendFed(procs: seq<Process>, chunk: seq<Process>, pipeStderr: bool, lo: nat, hi: nat)
    requires Piped(procs, |procs|, pipeStderr, lo, hi) && Chained(procs) && Chained(chunk)
    requires procs != [] && chunk != [] ==> In(chunk[0]) == ReadEnd(Out(procs[|procs| - 1]).pipe)
    ensures Chained(procs + chunk)
  {
    ExtendChained(procs, chunk);
  }

  lemma ExtendPiped(procs: seq<Process>, chunk: seq<Process>, inner: int, pipeStderr: bool, lo: nat, hi: nat, hi': nat)
    requires Piped(procs, |procs|, pipeStderr, lo, hi) && lo <= hi <= hi' && 0 <= inner <= |chunk|
    requires Piped(chunk, inner, pipeStderr, hi, hi')
    requires Distinct(procs, |procs|) && Distinct(chunk, inner)
    ensures Piped(procs + chunk, |procs| + inner, pipeStderr, lo, hi') && Distinct(procs + chunk, |procs| + inner)
  {
    var joined, i := procs + chunk, |procs|;
    forall k | 0 <= k < i + inner ensures joined[k] == if k < i then procs[k] else chunk[k - i] {}
    forall j, k | 0 <= j < k < i + inner ensures Out(joined[j]) != Out(joined[k]) {
      if k < i {
        assert Out(procs[j]) != Out(procs[k]);
      } else if j >= i {
        assert Out(chunk[j - i]) != Out(chunk[k - i]);
      }
    }
  }

  /** The chunk by itself. */
  lemma ChunkParts(t: Table, f: Node, chunk: seq<Process>, commands: seq<string>, pipeStderr: bool, base: nat,
                   inner: int)
    requires Plugged(t, f) && ChunkWired(t, f, chunk, commands, pipeStderr, base)
    requires inner == |chunk| - 1
    ensures Made(chunk, commands) && Chained(chunk) && Distinct(chunk, inner)
    ensures Piped(chunk, inner, pipeStderr, base, base + |chunk| - 1)
  {
  }

  lemma LinkedParts(t: Table, f: Node, link: Node, chunk: seq<Process>, commands: seq<string>, pipeStderr: bool,
                    next: nat)
    requires FreshLink(t, link) && Plugged(Linked(t, link, next), LinkedFront(f, link))
    requires ChunkWired(Linked(t, link, next), LinkedFront(f, link), chunk, commands, pipeStderr, next + 1)
    ensures Made(chunk, commands) && Chained(chunk) && Distinct(chunk, |chunk|)
    ensures Piped(chunk, |chunk|, pipeStderr, next, next + |chunk|)
    ensures In(chunk[0]) == Linked(t, link, next)[f.input] && Out(chunk[|chunk| - 1]) == WriteEnd(next)
  {
    ChunkParts(Linked(t, link, next), LinkedFront(f, link), chunk, commands, pipeStderr, next + 1, |chunk| - 1);
  }

  /** One more chunk. */
  lemma ExtendPrefix(s: State, line: Line, procs: seq<Process>, next: nat, t: Table, f: Node, chunk: seq<Process>,
                     commands: seq<string>, base: nat)
    requires |s.window| == WINDOW && line.Pipeline? && Prefix(s, line, procs, |procs|, next) && next <= base
    requires |procs| + |commands| <= |line.commands| && commands == line.commands[|procs|..|procs| + |commands|]
    requires Plugged(t, f) && ChunkForked(t, f, chunk, commands, line.pipeStderr, base)
    requires t[f.input] == if procs == [] then LineEntry(s) else ReadEnd(Out(procs[|procs| - 1]).pipe)
    requires Inherits(s, line, t, f)
    ensures Prefix(s, line, procs + chunk, |procs + chunk| - 1, base + |chunk| - 1)
  {
    ExtendHolds(s, line, procs, t, f, chunk, commands, base);
    ChunkParts(t, f, chunk, commands, line.pipeStderr, base, |chunk| - 1);
    ExtendMade(procs, chunk, line.commands);
    ExtendChained(procs, chunk);
    ExtendPiped(procs, chunk, |chunk| - 1, line.pipeStderr, FirstInner(s, line), base, base + |chunk| - 1);
  }

  /** A chunk that another one follows: its last stage, too, writes a pipe of its own. */
  lemma ExtendLinked(s: State, line: Line, procs: seq<Process>, next: nat, t: Table, f: Node, link: Node,
                     chunk: seq<Process>, commands: seq<string>)
    requires |s.window| == WINDOW && line.Pipeline? && Prefix(s, line, procs, |procs|, next)
    requires |procs| + |commands| <= |line.commands| && commands == line.commands[|procs|..|procs| + |commands|]
    requires FreshLink(t, link) && Plugged(Linked(t, link, next), LinkedFront(f, link))
    requires ChunkForked(Linked(t, link, next), LinkedFront(f, link), chunk, commands, line.pipeStderr, next + 1)
    requires Linked(t, link, next)[f.input] ==
      if procs == [] then LineEntry(s) else ReadEnd(Out(procs[|procs| - 1]).pipe)
    requires Inherits(s, line, Linked(t, link, next), LinkedFront(f, link))
    ensures Prefix(s, line, procs + chunk, |procs + chunk|, next + |chunk|)
    ensures Out(chunk[|chunk| - 1]) == WriteEnd(next)
  {
    hide HoldsOnly, Inherits, ChunkHolds, Ready, Made, Distinct, Chained, Piped, Plugged;
    ExtendHolds(s, line, procs, Linked(t, link, next), LinkedFront(f, link), chunk, commands, next + 1);
    LinkedParts(t, f, link, chunk, commands, line.pipeStderr, next);
    ExtendMade(procs, chunk, line.commands);
    ExtendFed(procs, chunk, line.pipeStderr, FirstInner(s, line), next);
    ExtendPiped(procs, chunk, |chunk|, line.pipeStderr, FirstInner(s, line), next, next + |chunk|);
  }

  // ---------------------------------------------------------------- the slicing loop

  /** The table `t` and the front node `f` once the line's destination is open. */
  ghost predicate Opening(s: State, line: Line, t: Table, f: Node)
    requires line.Pipeline? && |s.window| == WINDOW
  {
    && f.input == s.window[0].input && f.writeEnd == s.window[0].writeEnd
    && Plugged(t, f) && Below(t, FirstInner(s, line)) && t[f.input] == LineEntry(s)
    && (if line.destination == 0 then f.output == STDOUT
        else f.output != STDOUT && f.output in t && t[f.output] == Target(s, line))
    && f.error == (if MakesPipe(s, line) && line.pipeStderr then f.output else STDERR)
    && (forall p: nat {:trigger Has(t - Entry(f), WriteEnd(p))} :: Has(t - Entry(f), WriteEnd(p)) ==>
          Has(s.table - Entry(s.window[0]), WriteEnd(p)) || Target(s, line) == WriteEnd(p))
  }

  /** The slicing loop has forked `procs`, and more commands follow. The table is the opening one; once a
      chunk has run, it is without the pipe the line reads and with the link that the front node holds. */
  ghost predicate Progress(s: State, line: Line, t0: Table, f0: Node, procs: seq<Process>, front: Node, t: Table,
                           next: nat)
    requires |s.window| == WINDOW
  {
    match line
    case BuiltIn => false
    case Pipeline(commands, _, _) =>
      && |procs| < |commands| && Prefix(s, line, procs, |procs|, next)
      && Plugged(t, front) && Below(t, next) && |t| <= |t0| + 2
      && (procs == [] ==> front == f0 && t == t0)
      && (procs != [] ==>
            && |commands| > CHUNK && FreshLink(t0 - Entry(f0), front) && front.input in t
            && t == Linked(t0 - Entry(f0), front, Out(procs[|procs| - 1]).pipe))
  }

  lemma OpeningProgress(s: State, line: Line, t: Table, f: Node)
    requires line.Pipeline? && |s.window| == WINDOW && WellFormed(line) && Opening(s, line, t, f)
    ensures Progress(s, line, t, f, [], f, t, FirstInner(s, line))
  {
  }

  /** Taking out a temporary node undoes its link. */
  lemma Unlinked(t: Table, node: Node, pipe: nat)
    requires FreshLink(t, node)
    ensures Linked(t, node, pipe) - Entry(node) == t
  {
  }

  lemma LinkedLater(t: Table, f: Node, link: Node, pipe: nat)
    requires FreshLink(t, link) && Plugged(t, f)
    ensures Linked(t, link, pipe) - Entry(f) == Linked(t - Entry(f), link, pipe) && FreshLink(t - Entry(f), link)
  {
  }

  lemma NextTable(s: State, line: Line, t0: Table, f0: Node, procs: seq<Process>, front: Node, t: Table, next: nat,
                  link: Node)
    requires line.Pipeline? && |s.window| == WINDOW && Opening(s, line, t0, f0)
    requires Progress(s, line, t0, f0, procs, front, t, next) && FreshLink(t, link)
    ensures Linked(t, link, next) - Entry(front) == Linked(t0 - Entry(f0), link, next)
    ensures FreshLink(t0 - Entry(f0), link)
    ensures t - Entry(front) == t0 - Entry(f0)
    ensures t[front.input] == if procs == [] then LineEntry(s) else ReadEnd(Out(procs[|procs| - 1]).pipe)
  {
    if procs != [] { Unlinked(t0 - Entry(f0), front, Out(procs[|procs| - 1]).pipe); }
    LinkedLater(t, front, link, next);
  }

  lemma InheritsLink(s: State, line: Line, t0: Table, f0: Node, t: Table, f: Node, link: Node, next: nat)
    requires line.Pipeline? && |s.window| == WINDOW && Opening(s, line, t0, f0)
    requires Linked(t, link, next) - Entry(f) == Linked(t0 - Entry(f0), link, next)
    requires FreshLink(t, link) && FreshLink(t0 - Entry(f0), link)
    ensures Inherits(s, line, Linked(t, link, next), LinkedFront(f, link))
  {
    assert Entry(LinkedFront(f, link)) == Entry(f);
    forall p: nat | Has(Linked(t, link, next) - Entry(f), WriteEnd(p))
      ensures Has(s.table - Entry(s.window[0]), WriteEnd(p)) || Target(s, line) == WriteEnd(p) || p == next
    {
      HasWith(t0 - Entry(f0), link.input, link.writeEnd, next, WriteEnd(p));
    }
  }

  lemma Fewer(t: Table, gone: set<int>)
    ensures |t - gone| <= |t|
  {
    var kept := (t - gone).Keys;
    assert t.Keys == kept + (t.Keys - kept);
  }

  lemma LinkedSize(t: Table, gone: set<int>, link: Node, pipe: nat)
    ensures |Linked(t - gone, link, pipe)| <= |t| + 2
  {
    Fewer(t, gone);
  }

  /** One more chunk, with more to follow. */
  lemma InnerProgress(s: State, line: Line, t0: Table, f0: Node, procs: seq<Process>, front: Node, t: Table, next: nat,
                      link: Node, after: Table, chunk: seq<Process>, commands: seq<string>)
    requires line.Pipeline? && |s.window| == WINDOW && Opening(s, line, t0, f0)
    requires Progress(s, line, t0, f0, procs, front, t, next)
    requires |commands| == CHUNK && |procs| + |commands| < |line.commands|
    requires commands == line.commands[|procs|..|procs| + |commands|]
    requires LinkedChunk(t, front, next, link, after, chunk, commands, line.pipeStderr)
    ensures |chunk| == CHUNK && Progress(s, line, t0, f0, procs + chunk, link, after, next + CHUNK)
  {
    NextTable(s, line, t0, f0, procs, front, t, next, link);
    InheritsLink(s, line, t0, f0, t, front, link, next);
    ExtendLinked(s, line, procs, next, t, front, link, chunk, commands);
    PluggedLink(t, front, link, next);
    LinkedSize(t0, Entry(f0), link, next);
    assert (procs + chunk)[|procs + chunk| - 1] == chunk[|chunk| - 1];
  }

  lemma LastInherits(s: State, line: Line, t0: Table, f0: Node, procs: seq<Process>, front: Node, t: Table, next: nat)
    requires line.Pipeline? && |s.window| == WINDOW && Opening(s, line, t0, f0)
    requires Progress(s, line, t0, f0, procs, front, t, next)
    ensures Inherits(s, line, t, front)
    ensures t - Entry(front) == t0 - Entry(f0)
    ensures t[front.input] == if procs == [] then LineEntry(s) else ReadEnd(Out(procs[|procs| - 1]).pipe)
  {
    hide Made, Piped, Distinct, Chained, HoldsOnly;
    assert t - Entry(front) == t0 - Entry(f0);
  }

  /** The last chunk completes the line. */
  lemma LastProgress(s: State, line: Line, t0: Table, f0: Node, procs: seq<Process>, front: Node, t: Table, next: nat,
                     chunk: seq<Process>, commands: seq<string>)
    requires line.Pipeline? && |s.window| == WINDOW && Opening(s, line, t0, f0)
    requires Progress(s, line, t0, f0, procs, front, t, next)
    requires |commands| <= CHUNK && |procs| + |commands| == |line.commands|
    requires commands == line.commands[|procs|..|procs| + |commands|]
    requires ChunkForked(t, front, chunk, commands, line.pipeStderr, next)
    ensures Prefix(s, line, procs + chunk, |procs + chunk| - 1, next + |chunk| - 1)
    ensures |procs + chunk| == |line.commands|
    ensures Out((procs + chunk)[|procs + chunk| - 1]) == if Delivers(line) then Target(s, line) else Device
    ensures Err((procs + chunk)[|procs + chunk| - 1]) ==
      if Delivers(line) && line.pipeStderr && MakesPipe(s, line) then Target(s, line) else Device
    ensures t - Entry(front) == t0 - Entry(f0)
    ensures front.output == STDOUT <==> !Delivers(line)
  {
    hide Made, Piped, Distinct, Chained, HoldsOnly, Inherits;
    LastInherits(s, line, t0, f0, procs, front, t, next);
    ExtendPrefix(s, line, procs, next, t, front, chunk, commands, next);
    assert (procs + chunk)[|procs + chunk| - 1] == chunk[|chunk| - 1];
  }

  /** The finished line is what one pipeline line does to the children. */
  lemma FinishedLine(s: State, line: Line, s': State, procs: seq<Process>, next: nat)
    requires line.Pipeline? && |s.window| == WINDOW && |line.commands| > 0
    requires s'.processes == s.processes + procs && s'.nextPipe == next
    requires AtExecFrom(s.opens, s'.processes, 0)
    requires Prefix(s, line, procs, |procs| - 1, next) && |procs| == |line.commands|
    requires Out(procs[|procs| - 1]) == if Delivers(line) then Target(s, line) else Device
    requires Err(procs[|procs| - 1]) ==
      if Delivers(line) && line.pipeStderr && MakesPipe(s, line) then Target(s, line) else Device
    ensures ChildrenStep(s, line, s')
  {
    assert Children(s, s') == procs;
    assert forall j, k :: 0 <= j < |procs| - 1 && k == j + 1 ==> Feeds(procs[j], procs[k]);
  }

  /** The node at the destination before the line runs. */
  function OldTarget(s: State, line: Line): Node
    requires line.Pipeline? && |s.window| == WINDOW && WellFormed(line)
  {
    s.window[line.destination]
  }

  /** The window tells whether the destination has a pipe, and which. */
  lemma TargetInWindow(s: State, line: Line)
    requires Inv(s) && line.Pipeline? && WellFormed(line) && line.destination != 0
    ensures MakesPipe(s, line) <==> OldTarget(s, line).input == STDIN
    ensures MakesPipe(s, line) ==> OldTarget(s, line) == DEFAULT_NODE
    ensures !MakesPipe(s, line) ==>
      var w := OldTarget(s, line).writeEnd;
      && w in s.table && w !in {STDIN, STDOUT, STDERR} && s.table[w] == Target(s, line) && w !in Entry(s.window[0])
  {
    assert SlotInv(s, line.destination);
    assert SlotInv(s, 0);
  }

  lemma PluggedFront(s: State)
    requires Inv(s)
    ensures Plugged(s.table, s.window[0]) && Below(s.table, s.nextPipe)
    ensures s.window[0].output == STDOUT && s.window[0].error == STDERR
    ensures s.window[0].input in s.table && s.table[s.window[0].input] == LineEntry(s)
    ensures Entry(s.window[0]) <= s.table.Keys
  {
    assert SlotInv(s, 0);
    FreshPipe(s);
  }

  /** A line without a destination. */
  lemma OpeningPlain(s: State, line: Line)
    requires Inv(s) && line.Pipeline? && WellFormed(line) && line.destination == 0
    ensures Opening(s, line, s.table, s.window[0])
  {
    PluggedFront(s);
  }

  /** A line whose destination has a pipe already. */
  lemma OpeningShared(s: State, line: Line)
    requires Inv(s) && line.Pipeline? && WellFormed(line) && line.destination != 0 && !MakesPipe(s, line)
    ensures Opening(s, line, s.table, s.window[0].(output := OldTarget(s, line).writeEnd))
  {
    PluggedFront(s);
    TargetInWindow(s, line);
    TargetIsOpen(s, line);
  }

  /** A line that makes the pipe of its destination. */
  lemma OpeningNew(s: State, line: Line, node: Node, f: Node)
    requires Inv(s) && line.Pipeline? && WellFormed(line) && MakesPipe(s, line)
    requires node.input !in s.table && node.writeEnd !in s.table && node.input != node.writeEnd
    requires f == s.window[0].(output := node.writeEnd, error := if line.pipeStderr then node.writeEnd else STDERR)
    ensures Opening(s, line, WithTarget(s, line, node), f)
  {
    PluggedFront(s);
    var t, gone := WithTarget(s, line, node), Entry(s.window[0]);
    assert Standard(t) && Unshared(t);
    forall p: nat | Has(t - gone, WriteEnd(p))
      ensures Has(s.table - gone, WriteEnd(p)) || Target(s, line) == WriteEnd(p)
    {
      var fd :| fd in t - gone && (t - gone)[fd] == WriteEnd(p);
      assert fd in s.table ==> fd in s.table - gone && (s.table - gone)[fd] == WriteEnd(p);
    }
  }

  /** What the slicing loop has done when it ends. */
  ghost predicate Finished(s: State, line: Line, t0: Table, f0: Node, procs: seq<Process>, t: Table, next: nat)
    requires |s.window| == WINDOW
  {
    match line
    case BuiltIn => false
    case Pipeline(commands, _, pipeStderr) =>
      && |procs| == |commands| > 0 && Prefix(s, line, procs, |procs| - 1, next)
      && Out(procs[|procs| - 1]) == (if Delivers(line) then Target(s, line) else Device)
      && Err(procs[|procs| - 1]) ==
         (if Delivers(line) && pipeStderr && MakesPipe(s, line) then Target(s, line) else Device)
      && t == t0 - Entry(f0)
  }

  /** The session after execute, before the window slides. */
  ghost predicate Executed(s: State, line: Line, v: State, t0: Table, f0: Node, node: Node, procs: seq<Process>)
    requires |s.window| == WINDOW && WellFormed(line)
  {
    match line
    case BuiltIn => false
    case Pipeline(commands, destination, _) =>
      && Opening(s, line, t0, f0) && t0 == WithTarget(s, line, node)
      && Finished(s, line, t0, f0, procs, v.table, v.nextPipe)
      && v.processes == s.processes + procs && v.faults == s.faults
      && v.opens == s.opens && AtExecFrom(s.opens, v.processes, 0)
      && v.window != []
      && v.window[1..] == (if MakesPipe(s, line) then s.window[1..][destination - 1 := node] else s.window[1..])
      && (MakesPipe(s, line) ==> FreshLink(s.table, node))
      && forall pid :: pid in v.terminated <==>
           pid in s.terminated || (!Delivers(line) && |s.processes| <= pid < |s.processes| + |commands|)
  }

  /** The session once the window has slid. */
  function Slid(s: State, line: Line, v: State): State
    requires v.window != []
  {
    State(v.window[1..] + [DEFAULT_NODE], v.table, v.nextPipe, v.processes, v.terminated, v.faults,
          s.lines + [line], s.first + [|s.processes|], NewPipeOf(s, line), v.opens)
  }

  lemma SlidWindow(s: State, line: Line, v: State, t0: Table, f0: Node, node: Node, procs: seq<Process>)
    requires |s.window| == WINDOW && WellFormed(line) && Executed(s, line, v, t0, f0, node, procs)
    ensures WindowStep(s, line, Slid(s, line, v)) && TableStep(s, line, Slid(s, line, v))
  {
    var s', w := Slid(s, line, v), s.window[1..];
    if MakesPipe(s, line) {
      assert s'.window[line.destination - 1] == v.window[1..][line.destination - 1] == node;
      assert (w + [DEFAULT_NODE])[line.destination - 1 := node] == w[line.destination - 1 := node] + [DEFAULT_NODE];
    }
    assert Entry(f0) == Entry(s.window[0]);
  }

  lemma SlidChildren(s: State, line: Line, v: State, t0: Table, f0: Node, node: Node, procs: seq<Process>)
    requires |s.window| == WINDOW && WellFormed(line) && Executed(s, line, v, t0, f0, node, procs)
    ensures ChildrenStep(s, line, Slid(s, line, v)) && WaitStep(s, line, Slid(s, line, v))
  {
    FinishedLine(s, line, Slid(s, line, v), procs, v.nextPipe);
  }

  /** Executing the line and sliding the window is one step of the session. */
  lemma ExecutedStep(s: State, line: Line, v: State, t0: Table, f0: Node, node: Node, procs: seq<Process>)
    requires |s.window| == WINDOW && WellFormed(line) && Executed(s, line, v, t0, f0, node, procs)
    ensures v.window != [] && Step(s, line, Slid(s, line, v))
  {
    SlidWindow(s, line, v, t0, f0, node, procs);
    SlidChildren(s, line, v, t0, f0, node, procs);
    assert HistoryStep(s, line, Slid(s, line, v));
  }

  lemma SameState(a: State, b: State)
    requires a.window == b.window && a.table == b.table && a.nextPipe == b.nextPipe && a.processes == b.processes
    requires a.terminated == b.terminated && a.faults == b.faults
    requires a.lines == b.lines && a.first == b.first && a.pipeOf == b.pipeOf && a.opens == b.opens
    ensures a == b
  {
  }
}
