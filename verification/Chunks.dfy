/** One chunk of a pipeline: at most 50 stages that the shell forks one after the other. */
module Chunks {
  import opened Kernel
  import opened Session

  /** The pids of n children forked one after the other. */
  function Pids(from: nat, n: nat): seq<nat> {
    if n == 0 then [] else Pids(from, n - 1) + [from + n - 1]
  }

  lemma {:induction false} PidsAre(from: nat, n: nat)
    ensures forall pid :: pid in Pids(from, n) <==> from <= pid < from + n
  {
    if n > 0 { PidsAre(from, n - 1); }
  }

  lemma {:induction false} PidsAppend(from: nat, m: nat, n: nat)
    ensures Pids(from, m) + Pids(from + m, n) == Pids(from, m + n)
  {
    if n > 0 { PidsAppend(from, m, n - 1); }
  }

  /** The descriptors that a stage is given. */
  datatype Streams = Streams(input: int, output: int, error: int)

  /** The streams of stage j of m, for the front node f and the chunk's pipes s. */
  function StreamsOf(f: Node, s: seq<PipeFd>, m: nat, pipeStderr: bool, j: nat): Streams
    requires j < m == |s| + 1
  {
    Streams(
      if j == 0 then f.input else s[j - 1].r,
      if j == m - 1 then f.output else s[j].w,
      if !pipeStderr then STDERR else if j == m - 1 then f.error else s[j].w)
  }

  /** The front node of a chunk: where its first stage reads and its last stage writes. */
  predicate Plugged(t: Table, f: Node) {
    && Standard(t) && Unshared(t)
    && (f.input != STDIN ==>
          && f.input in t && f.writeEnd in t
          && t[f.input].ReadEnd? && t[f.writeEnd] == WriteEnd(t[f.input].pipe))
    && (f.output != STDOUT ==> f.output in t && t[f.output].WriteEnd? && f.output !in Entry(f))
    && (f.error != STDERR ==> f.error in t && t[f.error].WriteEnd? && f.error !in Entry(f))
  }

  predicate Below(t: Table, base: nat) {
    forall fd :: fd in t && t[fd] != Device ==> IsPipe(t[fd]) && t[fd].pipe < base
  }

  predicate Attached(t: Table, x: Streams) {
    && x.input in t && x.output in t && x.error in t
    && (x.input == STDIN || x.input !in {STDIN, STDOUT, STDERR})
    && (x.output == STDOUT || x.output !in {STDIN, STDOUT, STDERR})
    && (x.error == STDERR || x.error !in {STDIN, STDOUT, STDERR})
  }

  /** What a child closes besides the chunk's pipes: the write end of the pipe it reads. */
  function ClosedInChild(f: Node, x: Streams): set<int> {
    if x.input != STDIN && x.input == f.input then {f.writeEnd} else {}
  }

  /** The child's table when it calls exec. */
  ghost function ChildTable(t: Table, f: Node, s: seq<PipeFd>, x: Streams): Table
    requires x.input in t && x.output in t && x.error in t
  {
    (t - Numbers(s) - ClosedInChild(f, x))[STDIN := t[x.input]][STDOUT := t[x.output]][STDERR := t[x.error]]
  }

  /** The child's table before it closes the chunk's pipes. */
  function Connected(t: Table, f: Node, x: Streams): Table
    requires x.input in t && x.output in t && x.error in t && Standard(t)
  {
    var t0 := if x.input != STDIN then t[STDIN := t[x.input]] - ClosedInChild(f, x) else t;
    var t1 := if x.output != STDOUT then t0[STDOUT := t[x.output]] else t0;
    if x.error != STDERR then t1[STDERR := t[x.error]] else t1
  }

  /** Nothing that the child closes is one of its three streams or a pipe of the chunk. */
  predicate ClosesOther(t: Table, f: Node, s: seq<PipeFd>, x: Streams) {
    forall fd :: fd in ClosedInChild(f, x) ==>
      && fd in t && fd !in {STDIN, STDOUT, STDERR, x.output, x.error}
      && forall j :: 0 <= j < |s| ==> fd != s[j].r && fd != s[j].w
  }

  lemma ConnectedForm(t: Table, f: Node, x: Streams)
    requires Attached(t, x) && Standard(t)
    requires ClosedInChild(f, x) !! {STDIN, STDOUT, STDERR}
    ensures Connected(t, f, x) ==
      (t - ClosedInChild(f, x))[STDIN := t[x.input]][STDOUT := t[x.output]][STDERR := t[x.error]]
  {
  }

  lemma StillOpened(t: Table, t': Table, s: seq<PipeFd>, base: nat, changed: set<int>)
    requires Opened(t, s, base) && forall fd :: fd in t && fd !in changed ==> fd in t' && t'[fd] == t[fd]
    requires forall j :: 0 <= j < |s| ==> s[j].r !in changed && s[j].w !in changed
    ensures Opened(t', s, base)
  {
  }

  lemma NotStandard(t: Table, s: seq<PipeFd>, base: nat)
    requires Standard(t) && Opened(t, s, base)
    ensures Numbers(s) !! {STDIN, STDOUT, STDERR}
    ensures forall j :: 0 <= j < |s| ==> s[j].r !in {STDIN, STDOUT, STDERR} && s[j].w !in {STDIN, STDOUT, STDERR}
  {
    NumbersOf(s);
  }

  lemma SetAfterClosing(t: Table, gone: set<int>, a: End, b: End, c: End)
    requires gone !! {STDIN, STDOUT, STDERR}
    ensures t[STDIN := a][STDOUT := b][STDERR := c] - gone == (t - gone)[STDIN := a][STDOUT := b][STDERR := c]
  {
  }

  /** The descriptors that the child needs are open, and it closes none of them. */
  ghost predicate Sound(t: Table, f: Node, s: seq<PipeFd>, x: Streams) {
    Attached(t, x) && Standard(t) && AllOpen(t, s) && ClosesOther(t, f, s, x)
  }

  lemma ConnectedTable(t: Table, f: Node, s: seq<PipeFd>, x: Streams)
    requires Sound(t, f, s, x)
    ensures AllOpen(Connected(t, f, x), s)
    ensures Connected(t, f, x) - Numbers(s) == ChildTable(t, f, s, x)
  {
    var base :| Opened(t, s, base);
    var gone := ClosedInChild(f, x);
    NotStandard(t, s, base);
    ConnectedForm(t, f, x);
    StillOpened(t, Connected(t, f, x), s, base, gone + {STDIN, STDOUT, STDERR});
    SetAfterClosing(t - gone, Numbers(s), t[x.input], t[x.output], t[x.error]);
    assert t - gone - Numbers(s) == t - Numbers(s) - gone;
  }

  /** The shell's table when stage j is forked: the pipe that the chunk reads is closed after stage 0. */
  function TableAt(t: Table, f: Node, j: nat): Table {
    if j == 0 then t else t - Entry(f)
  }

  /** With the chunk's pipes open, every stage's streams are open. */
  lemma StageAttached(was: Table, t: Table, f: Node, s: seq<PipeFd>, base: nat, pipeStderr: bool, j: nat)
    requires Plugged(was, f) && Below(was, base) && Added(was, t, s, base) && j <= |s|
    ensures Standard(TableAt(t, f, j)) && Opened(TableAt(t, f, j), s, base)
    ensures Attached(TableAt(t, f, j), StreamsOf(f, s, |s| + 1, pipeStderr, j))
    ensures forall fd :: fd in Numbers(s) ==> fd !in Entry(f) && fd !in {STDIN, STDOUT, STDERR}
    ensures j > 0 ==> s[j - 1].r != f.input
    ensures StreamsOf(f, s, |s| + 1, pipeStderr, j).output !in Entry(f)
    ensures StreamsOf(f, s, |s| + 1, pipeStderr, j).error !in Entry(f)
  {
    assert Entry(f) <= was.Keys;
    NumbersOf(s);
    forall k | 0 <= k < |s| ensures s[k].r in Numbers(s) && s[k].w in Numbers(s) {}
  }

  /** The children of a chunk: stage j reads pipe base + j - 1 and writes pipe base + j; the first and
      the last stage are connected as the front node says. */
  predicate ChunkWired(t: Table, f: Node, chunk: seq<Process>, commands: seq<string>, pipeStderr: bool, base: nat)
    requires Plugged(t, f)
  {
    var m := |commands|;
    && |chunk| == m > 0
    && (forall j :: 0 <= j < m ==> Ready(chunk[j]) && chunk[j].command == commands[j])
    && In(chunk[0]) == t[f.input]
    && Out(chunk[m - 1]) == t[f.output]
    && Err(chunk[m - 1]) == (if pipeStderr then t[f.error] else Device)
    && (forall j :: 0 <= j < m - 1 ==> Out(chunk[j]) == WriteEnd(base + j))
    && (forall j :: 0 <= j < m - 1 ==> Err(chunk[j]) == if pipeStderr then Out(chunk[j]) else Device)
    && (forall j, k :: 0 <= j < m - 1 && k == j + 1 ==>
          Out(chunk[j]) == WriteEnd(base + j) && In(chunk[k]) == ReadEnd(base + j))
  }

  /** Stage j holds write ends only of pipes that were open before, or of a pipe of its own chunk that it
      or a later stage writes. */
  ghost predicate ChunkHolds(t: Table, f: Node, chunk: seq<Process>, base: nat) {
    forall j, p: nat {:trigger Has(chunk[j].table, WriteEnd(p))} |
        0 <= j < |chunk| && Has(chunk[j].table, WriteEnd(p)) ::
      Has(t - Entry(f), WriteEnd(p)) || base + j <= p < base + |chunk| - 1
  }

  /** `c` is the child of stage j. */
  ghost predicate IsStage(c: Process, t: Table, f: Node, s: seq<PipeFd>, pipeStderr: bool, command: string, j: nat)
    requires j <= |s|
  {
    var x, now := StreamsOf(f, s, |s| + 1, pipeStderr, j), TableAt(t, f, j);
    && Attached(now, x)
    && c.command == command && c.table == ChildTable(now, f, s, x)
  }

  lemma StageEnds(was: Table, t: Table, f: Node, s: seq<PipeFd>, base: nat, pipeStderr: bool, command: string, j: nat,
                  c: Process)
    requires Plugged(was, f) && Below(was, base) && Added(was, t, s, base) && j <= |s|
    requires IsStage(c, t, f, s, pipeStderr, command, j)
    ensures Ready(c) && c.command == command
    ensures In(c) == if j == 0 then was[f.input] else ReadEnd(base + j - 1)
    ensures Out(c) == if j == |s| then was[f.output] else WriteEnd(base + j)
    ensures Err(c) == if !pipeStderr then Device else if j == |s| then was[f.error] else WriteEnd(base + j)
  {
    StageAttached(was, t, f, s, base, pipeStderr, j);
  }

  lemma StageHolds(was: Table, t: Table, f: Node, s: seq<PipeFd>, base: nat, pipeStderr: bool, command: string, j: nat,
                   c: Process, p: nat)
    requires Plugged(was, f) && Below(was, base) && Added(was, t, s, base) && j <= |s|
    requires IsStage(c, t, f, s, pipeStderr, command, j)
    requires Has(c.table, WriteEnd(p))
    ensures Has(was - Entry(f), WriteEnd(p)) || base + j <= p < base + |s|
  {
    StageAttached(was, t, f, s, base, pipeStderr, j);
    StageEnds(was, t, f, s, base, pipeStderr, command, j, c);
    var fd :| fd in c.table && c.table[fd] == WriteEnd(p);
    if fd == STDOUT || fd == STDERR {
      var x := StreamsOf(f, s, |s| + 1, pipeStderr, j);
      var from := if fd == STDOUT then x.output else x.error;
      if j == |s| {
        assert from in was - Entry(f) && (was - Entry(f))[from] == WriteEnd(p);
      }
    } else {
      assert fd != STDIN;
      assert fd in was - Entry(f) && (was - Entry(f))[fd] == WriteEnd(p);
    }
  }

  /** `chunk` are the children of the first stages of a chunk. */
  ghost predicate Started(t: Table, f: Node, s: seq<PipeFd>, pipeStderr: bool, commands: seq<string>,
                          chunk: seq<Process>)
  {
    && |chunk| <= |commands| == |s| + 1
    && forall j :: 0 <= j < |chunk| ==> IsStage(chunk[j], t, f, s, pipeStderr, commands[j], j)
  }

  lemma StartedSnoc(t: Table, f: Node, s: seq<PipeFd>, pipeStderr: bool, commands: seq<string>, chunk: seq<Process>,
                    c: Process)
    requires Started(t, f, s, pipeStderr, commands, chunk) && |chunk| < |commands|
    requires IsStage(c, t, f, s, pipeStderr, commands[|chunk|], |chunk|)
    ensures Started(t, f, s, pipeStderr, commands, chunk + [c])
  {
  }

  /** A chunk was forked from table t behind front node f: how it is wired, and what it holds. */
  ghost predicate ChunkForked(t: Table, f: Node, chunk: seq<Process>, commands: seq<string>, pipeStderr: bool,
                              base: nat)
    requires Plugged(t, f)
  {
    ChunkWired(t, f, chunk, commands, pipeStderr, base) && ChunkHolds(t, f, chunk, base)
  }

  /** The children that the stage loop forks are wired as a pipeline. */
  lemma ChunkIsWired(was: Table, t: Table, f: Node, s: seq<PipeFd>, base: nat, pipeStderr: bool,
                     commands: seq<string>, chunk: seq<Process>)
    requires Plugged(was, f) && Below(was, base) && Added(was, t, s, base)
    requires |chunk| == |commands| && Started(t, f, s, pipeStderr, commands, chunk)
    ensures ChunkForked(was, f, chunk, commands, pipeStderr, base)
  {
    hide Added, Below, IsStage, Ready, Unshared;
    forall j | 0 <= j < |chunk|
      ensures Ready(chunk[j]) && chunk[j].command == commands[j]
      ensures In(chunk[j]) == (if j == 0 then was[f.input] else ReadEnd(base + j - 1))
      ensures Out(chunk[j]) == (if j == |s| then was[f.output] else WriteEnd(base + j))
      ensures Err(chunk[j]) == (if !pipeStderr then Device else if j == |s| then was[f.error] else WriteEnd(base + j))
    {
      StageEnds(was, t, f, s, base, pipeStderr, commands[j], j, chunk[j]);
    }
    forall j, p: nat | 0 <= j < |chunk| && Has(chunk[j].table, WriteEnd(p))
      ensures Has(was - Entry(f), WriteEnd(p)) || base + j <= p < base + |chunk| - 1
    {
      StageHolds(was, t, f, s, base, pipeStderr, commands[j], j, chunk[j], p);
    }
  }

  lemma StageSound(was: Table, t: Table, f: Node, s: seq<PipeFd>, base: nat, pipeStderr: bool, j: nat)
    requires Plugged(was, f) && Below(was, base) && Added(was, t, s, base) && j <= |s|
    ensures Sound(TableAt(t, f, j), f, s, StreamsOf(f, s, |s| + 1, pipeStderr, j))
    ensures var x := StreamsOf(f, s, |s| + 1, pipeStderr, j);
            x.input == f.input && x.input != STDIN <==> j == 0 && f.input != STDIN
  {
    StageAttached(was, t, f, s, base, pipeStderr, j);
    NumbersOf(s);
  }

  /** Only the first stage reads the front node's pipe, both ends of which the shell then closes. */
  lemma ClosesEntry(was: Table, t: Table, f: Node, s: seq<PipeFd>, base: nat, pipeStderr: bool, j: nat)
    requires Plugged(was, f) && Below(was, base) && Added(was, t, s, base) && j <= |s|
    ensures var input := StreamsOf(f, s, |s| + 1, pipeStderr, j).input;
      if input == f.input && input != STDIN
      then f.writeEnd in TableAt(t, f, j) && f.input in TableAt(t, f, j) - {f.writeEnd}
           && TableAt(t, f, j) - {f.writeEnd} - {f.input} == TableAt(t, f, j + 1)
      else TableAt(t, f, j) == TableAt(t, f, j + 1)
  {
    StageSound(was, t, f, s, base, pipeStderr, j);
    assert t - {f.writeEnd} - {f.input} == t - {f.input, f.writeEnd};
    if f.input == STDIN { assert t - Entry(f) == t; }
  }

  /** Once the chunk's pipes are closed, only the pipe that the chunk reads is gone. */
  lemma ClosedAgain(was: Table, t: Table, f: Node, s: seq<PipeFd>, base: nat)
    requires Added(was, t, s, base) && Entry(f) <= was.Keys
    ensures t - Entry(f) - Numbers(s) == was - Entry(f)
  {
    var t' := t - Entry(f) - Numbers(s);
    assert t'.Keys == (was - Entry(f)).Keys;
    assert forall fd :: fd in t' ==> t'[fd] == was[fd];
  }

  /** The shell's own close_pipes finds every pipe of the chunk open. */
  lemma NumbersOpen(was: Table, t: Table, f: Node, s: seq<PipeFd>, base: nat)
    requires Plugged(was, f) && Below(was, base) && Added(was, t, s, base)
    ensures AllOpen(t - Entry(f), s)
  {
    NumbersOf(s);
    StillOpened(t, t - Entry(f), s, base, Entry(f));
  }

  // ---------------------------------------------------------------- the link to the next chunk

  /** The table once the link to the next chunk is open; `link` is the temporary node that holds it. */
  function Linked(t: Table, link: Node, pipe: nat): Table {
    t[link.input := ReadEnd(pipe)][link.writeEnd := WriteEnd(pipe)]
  }

  /** The front node then writes the link. */
  function LinkedFront(f: Node, link: Node): Node {
    f.(output := link.writeEnd, error := link.writeEnd)
  }

  predicate FreshLink(t: Table, link: Node) {
    && link.input !in t && link.writeEnd !in t && link.input != link.writeEnd
    && link.input != STDIN && link.output == STDOUT && link.error == STDERR
  }

  lemma PluggedLink(t: Table, f: Node, link: Node, pipe: nat)
    requires Plugged(t, f) && Below(t, pipe) && FreshLink(t, link)
    ensures Plugged(Linked(t, link, pipe), LinkedFront(f, link)) && Below(Linked(t, link, pipe), pipe + 1)
    ensures Entry(LinkedFront(f, link)) == Entry(f)
    ensures Linked(t, link, pipe)[f.input] == t[f.input]
    ensures Plugged(Linked(t, link, pipe) - Entry(f), link)
    ensures Below(Linked(t, link, pipe) - Entry(f), pipe + 1)
  {
  }

  /** A chunk with a link to the next one: `t` and `f` before, `after` afterwards. */
  ghost predicate LinkedChunk(t: Table, f: Node, next: nat, link: Node, after: Table, chunk: seq<Process>,
                              commands: seq<string>, pipeStderr: bool)
    requires Plugged(t, f)
  {
    && FreshLink(t, link) && Plugged(Linked(t, link, next), LinkedFront(f, link))
    && ChunkForked(Linked(t, link, next), LinkedFront(f, link), chunk, commands, pipeStderr, next + 1)
    && after == Linked(t, link, next) - Entry(f)
  }
}
