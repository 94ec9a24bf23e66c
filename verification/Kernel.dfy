/** What the kernel keeps for a process: its descriptor table, and the calls that change it. */
module Kernel {
  const STDIN: int := 0
  const STDOUT: int := 1
  const STDERR: int := 2

  /** What a descriptor refers to. Pipes are numbered in the order of their creation, so that
      a pipe keeps its identity while descriptor numbers are reused. */
  datatype End = Device | ReadEnd(pipe: nat) | WriteEnd(pipe: nat) | File(name: string)

  predicate IsPipe(e: End) { e.ReadEnd? || e.WriteEnd? }

  type Table = map<int, End>

  /** The two descriptors that one pipe() call filled in. */
  datatype PipeFd = PipeFd(r: int, w: int)

  /** Some descriptor of `t` refers to `e`. */
  ghost predicate Has(t: Table, e: End) {
    exists fd :: fd in t && t[fd] == e
  }

  /** The standard streams are open and refer to the terminal. */
  predicate Standard(t: Table) {
    forall fd :: STDIN <= fd <= STDERR ==> fd in t && t[fd] == Device
  }

  /** `s[j]` holds the two ends of pipe `base + j`, for every j. */
  predicate Opened(t: Table, s: seq<PipeFd>, base: nat) {
    forall j :: 0 <= j < |s| ==>
      && s[j].r in t && t[s[j].r] == ReadEnd(base + j)
      && s[j].w in t && t[s[j].w] == WriteEnd(base + j)
  }

  /** No close of these pipes will miss. */
  ghost predicate AllOpen(t: Table, s: seq<PipeFd>) {
    exists base :: Opened(t, s, base)
  }

  /** All descriptor numbers in `s`. */
  ghost function Numbers(s: seq<PipeFd>): set<int> {
    if s == [] then {} else Numbers(s[..|s| - 1]) + {s[|s| - 1].r, s[|s| - 1].w}
  }

  /** `t` is `was` together with the ends of the pipes in `s`, all on unused numbers. */
  ghost predicate Added(was: Table, t: Table, s: seq<PipeFd>, base: nat) {
    && Opened(t, s, base)
    && Numbers(s) !! was.Keys
    && t.Keys == was.Keys + Numbers(s)
    && (forall fd :: fd in was ==> t[fd] == was[fd])
  }

  /** The descriptor table of one process. */
  class Descriptors {
    var table: Table
    var nextPipe: nat      // pipes created so far
    var faults: nat        // calls of close and dup2 on a descriptor that was not open
    ghost var peak: nat    // the most descriptors held at once

    constructor (table: Table, nextPipe: nat)
      ensures this.table == table && this.nextPipe == nextPipe && faults == 0 && peak == |table|
    {
      this.table, this.nextPipe, faults, peak := table, nextPipe, 0, |table|;
    }

    /** fork: the child starts with a copy of the table. */
    method Fork() returns (child: Descriptors)
      ensures fresh(child)
      ensures child.table == table && child.nextPipe == nextPipe && child.faults == 0
    {
      child := new Descriptors(table, nextPipe);
    }

    /** The lowest number from `from` on that is not open. */
    method Unused(from: int) returns (fd: int)
      requires 0 <= from
      ensures from <= fd && fd !in table
    {
      fd := from;
      while fd in table
        invariant from <= fd
        decreases set k | k in table && fd <= k
      {
        ghost var above := set k | k in table && fd <= k;
        assert fd in above && fd !in set k | k in table && fd + 1 <= k;
        fd := fd + 1;
      }
    }

    /** pipe: the contract lets the kernel choose any two unused numbers. */
    method Pipe() returns (p: PipeFd)
      modifies this
      ensures 0 <= p.r && 0 <= p.w && p.r != p.w
      ensures p.r !in old(table) && p.w !in old(table)
      ensures table == old(table)[p.r := ReadEnd(old(nextPipe))][p.w := WriteEnd(old(nextPipe))]
      ensures nextPipe == old(nextPipe) + 1 && faults == old(faults)
      ensures |table| == |old(table)| + 2
      ensures peak == if old(peak) < |table| then |table| else old(peak)
    {
      var r := Unused(0);
      var w := Unused(r + 1);
      p := PipeFd(r, w);
      table := table[r := ReadEnd(nextPipe)][w := WriteEnd(nextPipe)];
      nextPipe := nextPipe + 1;
      peak := if peak < |table| then |table| else peak;
    }

    /** open for writing; whether it succeeds is up to the file system. A failing open returns -1; here, as
        well, a number that is not open. */
    method Open(name: string, succeeds: bool) returns (fd: int)
      modifies this
      ensures fd !in old(table)
      ensures table == if succeeds then old(table)[fd := File(name)] else old(table)
      ensures nextPipe == old(nextPipe) && faults == old(faults) && peak >= old(peak)
    {
      fd := Unused(0);
      if succeeds {
        table := table[fd := File(name)];
        peak := if peak < |table| then |table| else peak;
      }
    }

    /** close */
    method Close(fd: int)
      modifies this
      ensures table == old(table) - {fd}
      ensures nextPipe == old(nextPipe) && peak == old(peak)
      ensures faults == if fd in old(table) then old(faults) else old(faults) + 1
    {
      if fd !in table {
        faults := faults + 1;
      }
      table := table - {fd};
    }

    /** dup2: `to` on success and -1 when `from` is not open. */
    method Dup2(from: int, to: int) returns (result: int)
      modifies this
      ensures nextPipe == old(nextPipe) && (peak == old(peak) || peak == |table|)
      ensures from in old(table) ==>
        result == to && table == old(table)[to := old(table)[from]] && faults == old(faults)
      ensures from !in old(table) ==>
        result == -1 && table == old(table) && faults == old(faults) + 1
    {
      if from !in table {
        faults, result := faults + 1, -1;
      } else {
        table, result := table[to := table[from]], to;
        peak := if peak < |table| then |table| else peak;
      }
    }
  }

  lemma NumbersSnoc(s: seq<PipeFd>, p: PipeFd)
    ensures Numbers(s + [p]) == Numbers(s) + {p.r, p.w}
  {
    assert (s + [p])[..|s|] == s;
  }

  lemma AddedSnoc(was: Table, t: Table, s: seq<PipeFd>, base: nat, p: PipeFd)
    requires Added(was, t, s, base)
    requires p.r !in t && p.w !in t && p.r != p.w
    ensures Added(was, t[p.r := ReadEnd(base + |s|)][p.w := WriteEnd(base + |s|)], s + [p], base)
  {
    NumbersSnoc(s, p);
  }

  lemma {:induction false} NumbersOf(s: seq<PipeFd>)
    ensures forall fd :: fd in Numbers(s) <==> exists j :: 0 <= j < |s| && (fd == s[j].r || fd == s[j].w)
  {
    if s != [] {
      var front, last := s[..|s| - 1], |s| - 1;
      NumbersOf(front);
      forall fd ensures fd in Numbers(s) <==> exists j :: 0 <= j < |s| && (fd == s[j].r || fd == s[j].w) {
        if fd in Numbers(front) {
          var j :| 0 <= j < |front| && (fd == front[j].r || fd == front[j].w);
          assert fd == s[j].r || fd == s[j].w;
        }
      }
    }
  }

  /** Open pipe ends never share a number. */
  lemma DistinctNumbers(t: Table, s: seq<PipeFd>, base: nat, j: nat)
    requires Opened(t, s, base) && j < |s|
    ensures s[j].r != s[j].w
    ensures s[j].r !in Numbers(s[..j]) && s[j].w !in Numbers(s[..j])
  {
    NumbersOf(s[..j]);
  }

  /** `Pipes`: the global array that open_pipes fills and close_pipes walks. */
  class Pipes {
    const pipesFd: array<PipeFd>

    constructor ()
      ensures fresh(pipesFd) && pipesFd.Length == 15000
    {
      pipesFd := new PipeFd[15000](_ => PipeFd(0, 0));
    }

    method OpenPipes(fds: Descriptors, n: nat)
      requires n <= pipesFd.Length
      modifies fds, pipesFd
      ensures fds.nextPipe == old(fds.nextPipe) + n && fds.faults == old(fds.faults)
      ensures Added(old(fds.table), fds.table, pipesFd[..n], old(fds.nextPipe))
      ensures fds.peak <= old(fds.peak) || fds.peak <= |old(fds.table)| + 2 * n
    {
      ghost var was := fds.table;
      ghost var base := fds.nextPipe;
      for j := 0 to n
        invariant fds.nextPipe == base + j && fds.faults == old(fds.faults)
        invariant Added(was, fds.table, pipesFd[..j], base)
        invariant |fds.table| == |was| + 2 * j
        invariant fds.peak <= old(fds.peak) || fds.peak <= |was| + 2 * j
      {
        ghost var before, t := pipesFd[..j], fds.table;
        var p := fds.Pipe();
        pipesFd[j] := p;
        assert pipesFd[..j + 1] == before + [p];
        assert fds.table == t[p.r := ReadEnd(base + |before|)][p.w := WriteEnd(base + |before|)];
        AddedSnoc(was, t, before, base, p);
        assert Added(was, fds.table, before + [p], base);
      }
    }

    /** Runs in the shell after a chunk, and in every child before exec. */
    method ClosePipes(fds: Descriptors, n: nat)
      requires n <= pipesFd.Length
      modifies fds
      ensures fds.table == old(fds.table) - Numbers(pipesFd[..n])
      ensures fds.nextPipe == old(fds.nextPipe) && fds.peak == old(fds.peak)
      ensures AllOpen(old(fds.table), pipesFd[..n]) ==> fds.faults == old(fds.faults)
    {
      ghost var was := fds.table;
      for j := 0 to n
        invariant fds.table == was - Numbers(pipesFd[..j])
        invariant fds.nextPipe == old(fds.nextPipe) && fds.peak == old(fds.peak)
        invariant AllOpen(was, pipesFd[..n]) ==> fds.faults == old(fds.faults)
      {
        assert pipesFd[..j + 1] == pipesFd[..j] + [pipesFd[j]];
        NumbersSnoc(pipesFd[..j], pipesFd[j]);
        if base :| Opened(was, pipesFd[..n], base) {
          DistinctNumbers(was, pipesFd[..n], base, j);
          assert pipesFd[..n][..j] == pipesFd[..j];
        }
        fds.Close(pipesFd[j].r);
        fds.Close(pipesFd[j].w);
      }
    }
  }
}
