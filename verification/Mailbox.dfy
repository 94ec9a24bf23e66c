/** The message buffers of the multi-process server: five slots for each sender and receiver, filled
    by the senders' processes and emptied by a signal handler in the receiver's, slot by slot. */
module Mailbox {
  import Seqs

  const USERS: nat := 35
  const SLOTS: nat := 5
  const MAX_MSG_SIZE: nat := 2048

  /** The slots of one sender for one receiver. A slot is free when its first byte is 0. */
  type Row = s: seq<string> | |s| == SLOTS witness ["", "", "", "", ""]

  /** A text that a slot has room for. */
  predicate Fits(m: string) {
    |m| <= MAX_MSG_SIZE && forall i :: 0 <= i < |m| ==> m[i] != '\0'
  }

  /** A text that a slot can hold: copying an empty one leaves the slot free. */
  predicate Message(m: string) {
    m != "" && Fits(m)
  }

  // ---------------------------------------------------------------- one row

  /** The first free slot, or the number of slots. */
  function FirstFree(row: Row): (f: nat)
    ensures f <= SLOTS && (f < SLOTS ==> row[f] == "")
    ensures forall k :: 0 <= k < f ==> row[k] != ""
  {
    if row[0] == "" then 0 else if row[1] == "" then 1 else if row[2] == "" then 2
    else if row[3] == "" then 3 else if row[4] == "" then 4 else 5
  }

  function Post(row: Row, m: string): Row {
    if FirstFree(row) < SLOTS then row[FirstFree(row) := m] else row
  }

  /** The messages in slots lo to hi, in order. */
  function Pending(row: seq<string>, lo: nat, hi: nat): (p: seq<string>)
    requires lo <= hi <= |row|
    ensures |p| <= hi - lo
    decreases hi
  {
    if lo == hi then []
    else Pending(row, lo, hi - 1) + (if row[hi - 1] == "" then [] else [row[hi - 1]])
  }

  /** The order in which a drain that has come to slot c, and the next one, print the messages. */
  function InOrder(row: seq<string>, c: nat): seq<string>
    requires c <= |row|
  {
    Pending(row, c, |row|) + Pending(row, 0, c)
  }

  /** The slots behind the drain and the slots ahead of it are each filled from the front. */
  ghost predicate ShapeAt(row: Row, c: nat, a: nat, b: nat) {
    a <= c <= b <= SLOTS && forall k :: 0 <= k < SLOTS ==> (row[k] != "" <==> k < a || c <= k < b)
  }

  ghost predicate Shape(row: Row, c: nat) {
    exists a, b :: ShapeAt(row, c, a, b)
  }

  /** A post overtakes when it lands ahead of the drain while other texts wait behind it. */
  predicate Overtakes(row: Row, c: nat, m: string) {
    c <= FirstFree(row) < SLOTS && exists j :: 0 <= j < c && row[j] != m
  }

  lemma {:induction false} PendingSame(row: seq<string>, row': seq<string>, lo: nat, hi: nat)
    requires lo <= hi <= |row| && |row'| == |row| && forall k :: lo <= k < hi ==> row'[k] == row[k]
    ensures Pending(row', lo, hi) == Pending(row, lo, hi)
    decreases hi
  {
    if lo < hi { PendingSame(row, row', lo, hi - 1); }
  }

  lemma {:induction false} PendingSplit(row: seq<string>, lo: nat, mid: nat, hi: nat)
    requires lo <= mid <= hi <= |row|
    ensures Pending(row, lo, hi) == Pending(row, lo, mid) + Pending(row, mid, hi)
    decreases hi
  {
    if mid < hi { PendingSplit(row, lo, mid, hi - 1); }
  }

  lemma {:induction false} PendingFree(row: seq<string>, lo: nat, hi: nat)
    requires lo <= hi <= |row| && forall k :: lo <= k < hi ==> row[k] == ""
    ensures Pending(row, lo, hi) == []
    decreases hi
  {
    if lo < hi { PendingFree(row, lo, hi - 1); }
  }

  lemma {:induction false} PendingFull(row: seq<string>, lo: nat, hi: nat)
    requires lo <= hi <= |row| && forall k :: lo <= k < hi ==> row[k] != ""
    ensures Pending(row, lo, hi) == row[lo..hi]
    decreases hi
  {
    if lo < hi {
      PendingFull(row, lo, hi - 1);
      assert row[lo..hi] == row[lo..hi - 1] + [row[hi - 1]];
    }
  }

  lemma PendingAround(row: seq<string>, f: nat, lo: nat, hi: nat)
    requires lo <= f < hi <= |row|
    ensures Pending(row, lo, hi) ==
      Pending(row, lo, f) + (if row[f] == "" then [] else [row[f]]) + Pending(row, f + 1, hi)
  {
    PendingSplit(row, lo, f + 1, hi);
  }

  /** What a text adds to a range when it fills a free slot of it. */
  lemma PendingFilled(row: seq<string>, f: nat, m: string, lo: nat, hi: nat)
    requires lo <= f < hi <= |row| && row[f] == "" && m != ""
    ensures Pending(row, lo, hi) == Pending(row, lo, f) + Pending(row, f + 1, hi)
    ensures Pending(row[f := m], lo, hi) == Pending(row, lo, f) + [m] + Pending(row, f + 1, hi)
  {
    PendingAround(row, f, lo, hi);
    PendingAround(row[f := m], f, lo, hi);
    PendingSame(row, row[f := m], lo, f);
    PendingSame(row, row[f := m], f + 1, hi);
  }

  lemma FilledLast(row: seq<string>, f: nat, m: string, lo: nat, hi: nat)
    requires lo <= f < hi <= |row| && row[f] == "" && m != "" && forall k :: f < k < hi ==> row[k] == ""
    ensures Pending(row[f := m], lo, hi) == Pending(row, lo, hi) + [m]
  {
    PendingFilled(row, f, m, lo, hi);
    PendingFree(row, f + 1, hi);
  }

  lemma FilledCount(row: seq<string>, f: nat, m: string, lo: nat, hi: nat)
    requires lo <= f < hi <= |row| && row[f] == "" && m != ""
    ensures multiset(Pending(row[f := m], lo, hi)) == multiset(Pending(row, lo, hi)) + multiset{m}
  {
    PendingFilled(row, f, m, lo, hi);
  }

  /** m can move from the front of s to its end unnoticed only when s holds nothing else. */
  lemma {:induction false} Commutes(s: seq<string>, m: string)
    ensures [m] + s == s + [m] <==> forall j :: 0 <= j < |s| ==> s[j] == m
  {
    if s != [] {
      Commutes(s[1..], m);
      if [m] + s == s + [m] {
        assert s[0] == ([m] + s)[0] == m;
        assert [m] + s[1..] == ([m] + s)[1..] == (s + [m])[1..] == s[1..] + [m];
        forall j | 0 <= j < |s| ensures s[j] == m { if j > 0 { assert s[j] == s[1..][j - 1]; } }
      }
      if forall j :: 0 <= j < |s| ==> s[j] == m {
        assert forall j :: 0 <= j < |s| + 1 ==> ([m] + s)[j] == m == (s + [m])[j];
      }
    }
  }

  /** Moving a text past a part of a sequence shows exactly when that part holds something else. */
  lemma CommutesAfter(front: seq<string>, s: seq<string>, m: string)
    ensures front + [m] + s == front + s + [m] <==> forall j :: 0 <= j < |s| ==> s[j] == m
  {
    Commutes(s, m);
    assert front + [m] + s == front + ([m] + s);
    assert front + s + [m] == front + (s + [m]);
    if front + [m] + s == front + s + [m] {
      assert (front + ([m] + s))[|front|..] == [m] + s;
      assert (front + (s + [m]))[|front|..] == s + [m];
    }
  }

  /** A text is dropped exactly when five are pending. */
  lemma DroppedWhenFull(row: Row, c: nat)
    requires c <= SLOTS
    ensures FirstFree(row) == 5 <==> |InOrder(row, c)| == 5
  {
    var f := FirstFree(row);
    if f < SLOTS {
      if f < c { PendingFilled(row, f, "m", 0, c); } else { PendingFilled(row, f, "m", c, |row|); }
    } else {
      PendingFull(row, 0, c);
      PendingFull(row, c, |row|);
    }
  }

  lemma PostKeepsShape(row: Row, c: nat, m: string)
    requires Shape(row, c) && m != ""
    ensures Shape(Post(row, m), c)
  {
    var a: nat, b: nat :| ShapeAt(row, c, a, b);
    var f := FirstFree(row);
    if f == SLOTS {
      assert Post(row, m) == row;
    } else if a < c {
      assert ShapeAt(Post(row, m), c, a + 1, b);
    } else {
      assert ShapeAt(Post(row, m), c, a, b + 1);
    }
  }

  lemma FilledBehind(row: seq<string>, c: nat, f: nat, m: string)
    requires f < c <= |row| && row[f] == "" && m != "" && forall k :: f < k < c ==> row[k] == ""
    ensures InOrder(row[f := m], c) == InOrder(row, c) + [m]
  {
    FilledLast(row, f, m, 0, c);
    PendingSame(row, row[f := m], c, |row|);
  }

  lemma FilledAhead(row: seq<string>, c: nat, f: nat, m: string)
    requires c <= f < |row| && row[f] == "" && m != ""
    requires (forall k :: f < k < |row| ==> row[k] == "") && forall k :: 0 <= k < c ==> row[k] != ""
    ensures InOrder(row[f := m], c) == InOrder(row, c) + [m] <==> forall j :: 0 <= j < c ==> row[j] == m
  {
    FilledLast(row, f, m, c, |row|);
    PendingSame(row, row[f := m], 0, c);
    PendingFull(row, 0, c);
    CommutesAfter(Pending(row, c, |row|), row[0..c], m);
  }

  /** A post joins the end of the queue exactly when it does not overtake. */
  lemma PostOrder(row: Row, c: nat, m: string)
    requires Shape(row, c) && m != "" && FirstFree(row) < SLOTS
    ensures InOrder(Post(row, m), c) == InOrder(row, c) + [m] <==> !Overtakes(row, c, m)
  {
    var a: nat, b: nat :| ShapeAt(row, c, a, b);
    var f := FirstFree(row);
    if f < c { FilledBehind(row, c, f, m); } else { FilledAhead(row, c, f, m); }
  }

  lemma FilledAnywhere(row: seq<string>, c: nat, f: nat, m: string)
    requires c <= |row| && f < |row| && row[f] == "" && m != ""
    ensures multiset(InOrder(row[f := m], c)) == multiset(InOrder(row, c)) + multiset{m}
  {
    hide Pending;
    if f < c {
      FilledCount(row, f, m, 0, c);
      PendingSame(row, row[f := m], c, |row|);
    } else {
      FilledCount(row, f, m, c, |row|);
      PendingSame(row, row[f := m], 0, c);
    }
  }

  /** One step of the drain prints the head of the queue, if slot c holds it, and keeps the rest. */
  lemma VisitOrder(row: seq<string>, c: nat)
    requires c < |row|
    ensures InOrder(row, c) == Pending(row, c, c + 1) + InOrder(row[c := ""], c + 1)
  {
    var row' := row[c := ""];
    PendingSplit(row, c, c + 1, |row|);
    PendingSplit(row', 0, c, c + 1);
    PendingFree(row', c, c + 1);
    PendingSame(row, row', c + 1, |row|);
    PendingSame(row, row', 0, c);
    Seqs.Assoc(Pending(row, c, c + 1), Pending(row, c + 1, |row|), Pending(row, 0, c));
  }

  lemma VisitKeepsShape(row: Row, c: nat)
    requires Shape(row, c) && c < SLOTS
    ensures Shape(row[c := ""], c + 1)
  {
    var a: nat, b: nat :| ShapeAt(row, c, a, b);
    assert ShapeAt(row[c := ""], c + 1, a, if b == c then c + 1 else b);
  }

  /** Whether the drain has not begun or has passed the row makes no difference to its queue. */
  lemma PassedIsIdle(row: Row)
    ensures InOrder(row, SLOTS) == InOrder(row, 0)
    ensures Shape(row, SLOTS) ==> Shape(row, 0)
  {
    if Shape(row, SLOTS) {
      var a: nat, b: nat :| ShapeAt(row, SLOTS, a, b);
      assert ShapeAt(row, 0, 0, a);
    }
  }
}
