/** The table of user pipes of the single-process server: rows of receivers, one row per sender. */
module PostOffice {
  const MAX_USERS: nat := 35

  /** A user pipe that pipe() has made; pipes are numbered in the order of their creation. */
  datatype Entry = Entry(receiver: int, pipe: nat)

  type Row = seq<Entry>

  datatype Result = Ok(pipe: nat) | OutOfRange | AlreadyExists | DoesNotExist

  // ---------------------------------------------------------------- one row

  /** find_if: the index of the receiver's entry, or the length. */
  function IndexOf(row: Row, receiver: int): (i: nat)
    ensures i <= |row| && (i < |row| ==> row[i].receiver == receiver)
    ensures forall k :: 0 <= k < i ==> row[k].receiver != receiver
  {
    if row == [] || row[0].receiver == receiver then 0 else 1 + IndexOf(row[1..], receiver)
  }

  predicate Contains(row: Row, receiver: int) {
    exists i :: 0 <= i < |row| && row[i].receiver == receiver
  }

  predicate NoDuplicates(row: Row) {
    forall i, j :: 0 <= i < j < |row| ==> row[i].receiver != row[j].receiver
  }

  function Remove(row: Row, i: nat): Row
    requires i < |row|
  {
    row[..i] + row[i + 1..]
  }

  // ---------------------------------------------------------------- the table as a partial map

  ghost function Keys(rows: seq<Row>): set<(int, int)> {
    set s, i | 0 <= s < |rows| && 0 <= i < |rows[s]| :: (s, rows[s][i].receiver)
  }

  function PipeAt(rows: seq<Row>, k: (int, int)): nat {
    if 0 <= k.0 < |rows| && IndexOf(rows[k.0], k.1) < |rows[k.0]| then rows[k.0][IndexOf(rows[k.0], k.1)].pipe else 0
  }

  /** The partial map from (sender, receiver) to pipe. */
  ghost function Table(rows: seq<Row>): map<(int, int), nat> {
    map k | k in Keys(rows) :: PipeAt(rows, k)
  }

  lemma InTable(rows: seq<Row>, k: (int, int))
    ensures k in Table(rows) <==> 0 <= k.0 < |rows| && Contains(rows[k.0], k.1)
    ensures k in Table(rows) ==> Table(rows)[k] == PipeAt(rows, k) && IndexOf(rows[k.0], k.1) < |rows[k.0]|
  {
    if 0 <= k.0 < |rows| && Contains(rows[k.0], k.1) {
      var i :| 0 <= i < |rows[k.0]| && rows[k.0][i].receiver == k.1;
      assert (k.0, rows[k.0][i].receiver) in Keys(rows);
    }
  }

  // ---------------------------------------------------------------- every read end is in one place

  /** How often pipe p occurs in a row, and in the table. */
  ghost function RowCount(row: Row, p: nat): nat {
    if row == [] then 0 else RowCount(row[..|row| - 1], p) + (if row[|row| - 1].pipe == p then 1 else 0)
  }

  ghost function TableCount(rows: seq<Row>, p: nat): nat {
    if rows == [] then 0 else TableCount(rows[..|rows| - 1], p) + RowCount(rows[|rows| - 1], p)
  }

  lemma {:induction false} RowCountAppend(a: Row, b: Row, p: nat)
    ensures RowCount(a + b, p) == RowCount(a, p) + RowCount(b, p)
  {
    if b == [] {
      assert a + b == a;
    } else {
      assert (a + b)[..|a + b| - 1] == a + b[..|b| - 1];
      RowCountAppend(a, b[..|b| - 1], p);
    }
  }

  lemma RowCountRemove(row: Row, i: nat, p: nat)
    requires i < |row|
    ensures RowCount(row, p) == RowCount(Remove(row, i), p) + (if row[i].pipe == p then 1 else 0)
  {
    assert row == row[..i] + ([row[i]] + row[i + 1..]);
    RowCountAppend(row[..i], [row[i]] + row[i + 1..], p);
    RowCountAppend([row[i]], row[i + 1..], p);
    RowCountAppend(row[..i], row[i + 1..], p);
    assert [row[i]][..0] == [];
  }

  lemma {:induction false} TableCountUpdate(rows: seq<Row>, s: nat, row: Row, p: nat)
    requires s < |rows|
    ensures TableCount(rows[s := row], p) + RowCount(rows[s], p) == TableCount(rows, p) + RowCount(row, p)
  {
    var n := |rows| - 1;
    if s < n {
      assert rows[s := row][..n] == rows[..n][s := row];
      TableCountUpdate(rows[..n], s, row, p);
    } else {
      assert rows[s := row][..n] == rows[..n];
    }
  }

  /** Every read end that was made is in exactly one place: the table, the removal queue, or closed. */
  ghost predicate InOnePlace(rows: seq<Row>, toRemove: seq<nat>, closed: multiset<nat>, nextPipe: nat) {
    forall p: nat :: TableCount(rows, p) + multiset(toRemove)[p] + closed[p] == if p < nextPipe then 1 else 0
  }

  // ---------------------------------------------------------------- the in-place erasing loop

  /** With no duplicates, the entries of a row are what the row maps. */
  lemma RowMaps(row: Row, r: int)
    requires NoDuplicates(row)
    ensures Contains(row, r) <==> exists p :: Entry(r, p) in row
    ensures forall p :: Entry(r, p) in row ==> IndexOf(row, r) < |row| && row[IndexOf(row, r)].pipe == p
  {
    if Contains(row, r) {
      var i :| 0 <= i < |row| && row[i].receiver == r;
      assert Entry(r, row[i].pipe) in row;
    }
  }

  /** Two rows with the same entries map the same receivers to the same pipes. */
  lemma SameEntries(a: Row, b: Row, r: int)
    requires NoDuplicates(a) && NoDuplicates(b)
    requires forall p :: Entry(r, p) in a <==> Entry(r, p) in b
    ensures Contains(a, r) <==> Contains(b, r)
    ensures Contains(a, r) ==>
      IndexOf(a, r) < |a| && IndexOf(b, r) < |b| && a[IndexOf(a, r)].pipe == b[IndexOf(b, r)].pipe
  {
    RowMaps(a, r);
    RowMaps(b, r);
  }

  lemma {:induction false} EmptyRows(rows: seq<Row>)
    requires forall i :: 0 <= i < |rows| ==> rows[i] == []
    ensures Table(rows) == map[] && forall p :: TableCount(rows, p) == 0
  {
    if rows != [] { EmptyRows(rows[..|rows| - 1]); }
    forall k ensures k !in Table(rows) { InTable(rows, k); }
  }

  lemma {:induction false} ContainsAppend(row: Row, e: Entry, r: int)
    ensures Contains(row + [e], r) <==> Contains(row, r) || e.receiver == r
    ensures IndexOf(row + [e], r) ==
      if Contains(row, r) then IndexOf(row, r) else if e.receiver == r then |row| else |row| + 1
  {
    var row' := row + [e];
    assert row'[|row|] == e;
    if i :| 0 <= i < |row| && row[i].receiver == r { assert row'[i].receiver == r; }
    var j := IndexOf(row', r);
    assert j < |row| ==> row'[j] == row[j];
    assert forall k :: 0 <= k < |row| ==> row'[k] == row[k];
  }

  lemma InsertedTable(rows: seq<Row>, s: nat, r: int, p: nat)
    requires s < |rows| && !Contains(rows[s], r)
    ensures Table(rows[s := rows[s] + [Entry(r, p)]]) == Table(rows)[(s, r) := p]
  {
    var row' := rows[s] + [Entry(r, p)];
    var rows' := rows[s := row'];
    forall k
      ensures k in Table(rows') <==> k in Table(rows)[(s, r) := p]
      ensures k in Table(rows') ==> Table(rows')[k] == Table(rows)[(s, r) := p][k]
    {
      InTable(rows, k);
      InTable(rows', k);
      ContainsAppend(rows[s], Entry(r, p), k.1);
    }
  }

  lemma InsertedCount(rows: seq<Row>, toRemove: seq<nat>, closed: multiset<nat>, n: nat, s: nat, r: int)
    requires InOnePlace(rows, toRemove, closed, n) && s < |rows|
    ensures InOnePlace(rows[s := rows[s] + [Entry(r, n)]], toRemove, closed, n + 1)
  {
    forall p: nat
      ensures TableCount(rows[s := rows[s] + [Entry(r, n)]], p) == TableCount(rows, p) + (if p == n then 1 else 0)
    {
      TableCountUpdate(rows, s, rows[s] + [Entry(r, n)], p);
      RowCountAppend(rows[s], [Entry(r, n)], p);
      assert [Entry(r, n)][..0] == [];
    }
  }

  /** `row'` is `row` without the entry of receiver r. */
  ghost predicate Dropped(row: Row, row': Row, r: int) {
    NoDuplicates(row') && forall r', p :: Entry(r', p) in row' <==> Entry(r', p) in row && r' != r
  }

  lemma RemoveDrops(row: Row, i: nat)
    requires NoDuplicates(row) && i < |row|
    ensures Dropped(row, Remove(row, i), row[i].receiver)
  {
    var row' := Remove(row, i);
    forall j | 0 <= j < |row'| ensures row'[j] == row[if j < i then j else j + 1] {}
    forall r, p ensures Entry(r, p) in row' <==> Entry(r, p) in row && r != row[i].receiver {
      if Entry(r, p) in row && r != row[i].receiver {
        var j :| 0 <= j < |row| && row[j] == Entry(r, p);
        assert row'[if j < i then j else j - 1] == Entry(r, p);
      }
    }
  }

  lemma DroppedFree(was: Row, row: Row, r: int, k: nat)
    requires Dropped(was, row, r) && k < |row|
    ensures row[k].receiver != r
  {
    assert Entry(row[k].receiver, row[k].pipe) in row;
  }

  /** A row with no duplicates loses a receiver's entry once, and then has no other. */
  lemma DropsOnce(was: Row, row: Row, i: nat)
    requires NoDuplicates(was) && i < |row|
    requires row == was || Dropped(was, row, row[i].receiver)
    ensures Dropped(was, Remove(row, i), row[i].receiver)
  {
    if row != was { DroppedFree(was, row, row[i].receiver, i); }
    RemoveDrops(was, i);
  }

  lemma NothingToDrop(was: Row, row: Row, r: int)
    requires NoDuplicates(was) && (row == was || Dropped(was, row, r))
    requires forall k :: 0 <= k < |row| ==> row[k].receiver != r
    ensures Dropped(was, row, r)
  {
  }

  lemma DroppedAt(rows: seq<Row>, rows': seq<Row>, s: nat, r: int, k: (int, int))
    requires |rows| == |rows'| && s < |rows| && NoDuplicates(rows[s]) && Dropped(rows[s], rows'[s], r) && k.0 == s
    ensures k in Table(rows') <==> k in Table(rows) && k.1 != r
    ensures k in Table(rows') ==> Table(rows')[k] == Table(rows)[k]
  {
    InTable(rows, k);
    InTable(rows', k);
    if k.1 != r {
      SameEntries(rows[s], rows'[s], k.1);
    } else {
      RowMaps(rows'[s], r);
    }
  }

  lemma DroppedTable(rows: seq<Row>, s: nat, row': Row, r: int)
    requires s < |rows| && NoDuplicates(rows[s]) && Dropped(rows[s], row', r)
    ensures Table(rows[s := row']) == Table(rows) - {(s, r)}
  {
    var rows' := rows[s := row'];
    forall k
      ensures k in Table(rows') <==> k in Table(rows) && k != (s, r)
      ensures k in Table(rows') ==> Table(rows')[k] == Table(rows)[k]
    {
      InTable(rows, k);
      InTable(rows', k);
      if k.0 == s { DroppedAt(rows, rows', s, r, k); }
    }
  }

  lemma RemovedCount(rows: seq<Row>, toRemove: seq<nat>, closed: multiset<nat>, n: nat, s: nat, i: nat)
    requires InOnePlace(rows, toRemove, closed, n) && s < |rows| && i < |rows[s]|
    ensures InOnePlace(rows[s := Remove(rows[s], i)], toRemove + [rows[s][i].pipe], closed, n)
    ensures InOnePlace(rows[s := Remove(rows[s], i)], toRemove, closed + multiset{rows[s][i].pipe}, n)
  {
    forall p: nat
      ensures TableCount(rows[s := Remove(rows[s], i)], p) + (if rows[s][i].pipe == p then 1 else 0) ==
              TableCount(rows, p)
    {
      TableCountUpdate(rows, s, Remove(rows[s], i), p);
      RowCountRemove(rows[s], i, p);
    }
  }

  /** The loop has cleared the column of `receiver` in the first `done` rows. */
  ghost predicate ColumnCleared(was: seq<Row>, now: seq<Row>, receiver: int, done: nat) {
    && |now| == |was| && done <= |was|
    && (forall s :: 0 <= s < done ==> Dropped(was[s], now[s], receiver))
    && (forall s :: done <= s < |was| ==> now[s] == was[s])
  }

  lemma ClearedOne(was: seq<Row>, now: seq<Row>, next: seq<Row>, receiver: int, s: nat)
    requires ColumnCleared(was, now, receiver, s) && s < |was| && |next| == |now|
    requires next == now[s := next[s]] && Dropped(now[s], next[s], receiver)
    ensures ColumnCleared(was, next, receiver, s + 1)
  {
  }

  lemma ColumnTable(was: seq<Row>, now: seq<Row>, receiver: int)
    requires ColumnCleared(was, now, receiver, |was|) && forall s :: 0 <= s < |was| ==> NoDuplicates(was[s])
    ensures Table(now) == map k | k in Table(was) && k.1 != receiver :: Table(was)[k]
  {
    forall k
      ensures k in Table(now) <==> k in Table(was) && k.1 != receiver
      ensures k in Table(now) ==> Table(now)[k] == Table(was)[k]
    {
      InTable(was, k);
      InTable(now, k);
      if 0 <= k.0 < |was| { DroppedAt(was, now, k.0, receiver, k); }
    }
  }

  lemma ClearedRow(rows: seq<Row>, s: nat)
    requires s < |rows|
    ensures Table(rows[s := []]) == map k | k in Table(rows) && k.0 != s :: Table(rows)[k]
  {
    forall k
      ensures k in Table(rows[s := []]) <==> k in Table(rows) && k.0 != s
      ensures k in Table(rows[s := []]) ==> Table(rows[s := []])[k] == Table(rows)[k]
    {
      InTable(rows, k);
      InTable(rows[s := []], k);
    }
  }

  lemma OnlyRows(rows: seq<Row>)
    ensures forall k :: k in Table(rows) ==> 0 <= k.0 < |rows|
  {
    forall k | k in Table(rows) ensures 0 <= k.0 < |rows| { InTable(rows, k); }
  }

  /** The two loops of a departure: first the column of the user, then its row, if it has one. */
  lemma Deleted(was: seq<Row>, now: seq<Row>, end: seq<Row>, uid: int)
    requires ColumnCleared(was, now, uid, |was|) && forall s :: 0 <= s < |was| ==> NoDuplicates(was[s])
    requires end == if 0 <= uid < |was| then now[uid := []] else now
    ensures Table(end) == map k | k in Table(was) && k.0 != uid && k.1 != uid :: Table(was)[k]
  {
    ColumnTable(was, now, uid);
    if 0 <= uid < |was| { ClearedRow(now, uid); } else { OnlyRows(now); }
  }

  class PostOffice {
    const openedPipes: array<Row>
    var toRemove: seq<nat>         // user_pipe_to_remove
    var closed: multiset<nat>      // read ends that were closed here
    var nextPipe: nat

    constructor ()
      ensures Valid() && fresh(openedPipes) && openedPipes.Length == 35 && View() == map[]
      ensures toRemove == [] && closed == multiset{}
      ensures nextPipe == 0
    {
      openedPipes := new Row[MAX_USERS](_ => []);
      toRemove, closed, nextPipe := [], multiset{}, 0;
      new;
      assert forall i :: 0 <= i < MAX_USERS ==> openedPipes[..][i] == [];
      EmptyRows(openedPipes[..]);
    }

    ghost function View(): map<(int, int), nat>
      reads this, openedPipes
    {
      Table(openedPipes[..])
    }

    /** No row holds a receiver twice, and every read end that was made is in exactly one place: the
        table, the removal queue, or closed. */
    ghost predicate Valid()
      reads this, openedPipes
    {
      && openedPipes.Length == MAX_USERS
      && (forall s :: 0 <= s < MAX_USERS ==> NoDuplicates(openedPipes[s]))
      && InOnePlace(openedPipes[..], toRemove, closed, nextPipe)
    }

    method Insert(sender: int, receiver: int) returns (r: Result)
      requires Valid()
      modifies this`nextPipe, openedPipes
      ensures Valid()
      ensures r == if !(0 <= sender < 35) then OutOfRange
                   else if (sender, receiver) in old(View()) then AlreadyExists
                   else Ok(old(nextPipe))
      ensures View() == if r.Ok? then old(View())[(sender, receiver) := r.pipe] else old(View())
      ensures nextPipe == if r.Ok? then old(nextPipe) + 1 else old(nextPipe)
    {
      if !(0 <= sender < MAX_USERS) {
        return OutOfRange;
      }
      ghost var rows, row := openedPipes[..], openedPipes[sender];
      InTable(rows, (sender, receiver));
      if IndexOf(openedPipes[sender], receiver) != |openedPipes[sender]| {
        return AlreadyExists;
      }
      r := Ok(nextPipe);
      openedPipes[sender] := openedPipes[sender] + [Entry(receiver, nextPipe)];
      nextPipe := nextPipe + 1;
      assert openedPipes[..] == rows[sender := row + [Entry(receiver, r.pipe)]];
      InsertedTable(rows, sender, receiver, r.pipe);
      InsertedCount(rows, toRemove, closed, r.pipe, sender, receiver);
    }
  
    /** The read end goes to the removal queue, to be closed when the line is done. */
    method Erase(sender: int, receiver: int) returns (r: Result)
      requires Valid()
      modifies this`toRemove, openedPipes
      ensures Valid()
      ensures r == if !(0 <= sender < 35) then OutOfRange
                   else if (sender, receiver) !in old(View()) then DoesNotExist
                   else Ok(old(View())[(sender, receiver)])
      ensures View() == if r.Ok? then old(View()) - {(sender, receiver)} else old(View())
      ensures toRemove == if r.Ok? then old(toRemove) + [r.pipe] else old(toRemove)
    {
      if !(0 <= sender < MAX_USERS) {
        return OutOfRange;
      }
      ghost var rows := openedPipes[..];
      InTable(rows, (sender, receiver));
      var i := IndexOf(openedPipes[sender], receiver);
      if i == |openedPipes[sender]| {
        return DoesNotExist;
      }
      r := Ok(openedPipes[sender][i].pipe);
      RemoveDrops(rows[sender], i);
      DroppedTable(rows, sender, Remove(rows[sender], i), receiver);
      RemovedCount(rows, toRemove, closed, nextPipe, sender, i);
      toRemove := toRemove + [r.pipe];
      openedPipes[sender] := Remove(openedPipes[sender], i);
      assert openedPipes[..] == rows[sender := Remove(rows[sender], i)];
    }

    /** Runs at the end of a line that forked. */
    method DeleteQueued()
      requires Valid()
      modifies this`toRemove, this`closed
      ensures Valid() && toRemove == [] && closed == old(closed) + multiset(old(toRemove))
      ensures View() == old(View())
    {
      while toRemove != []
        invariant Valid() && closed + multiset(toRemove) == old(closed) + multiset(old(toRemove))
        invariant View() == old(View())
        decreases |toRemove|
      {
        assert toRemove == [toRemove[0]] + toRemove[1..];
        closed := closed + multiset{toRemove[0]};
        toRemove := toRemove[1..];
      }
    }

    /** Closes and erases one entry. */
    method CloseEntry(s: nat, i: nat)
      requires Valid() && s < MAX_USERS && i < |openedPipes[s]|
      modifies this`closed, openedPipes
      ensures Valid()
      ensures openedPipes[..] == old(openedPipes[..])[s := Remove(old(openedPipes[s]), i)]
      ensures closed == old(closed) + multiset{old(openedPipes[s])[i].pipe}
    {
      ghost var rows := openedPipes[..];
      RemovedCount(rows, toRemove, closed, nextPipe, s, i);
      RemoveDrops(rows[s], i);
      closed := closed + multiset{openedPipes[s][i].pipe};
      openedPipes[s] := Remove(openedPipes[s], i);
      assert openedPipes[..] == rows[s := Remove(rows[s], i)];
    }

    /** Closes and erases, in place, the entries of one row that go to `receiver`. */
    method EraseReceiver(s: nat, receiver: int)
      requires Valid() && s < MAX_USERS
      modifies this`closed, openedPipes
      ensures Valid() && |openedPipes[..]| == |old(openedPipes[..])|
      ensures openedPipes[..] == old(openedPipes[..])[s := openedPipes[s]]
      ensures Dropped(old(openedPipes[s]), openedPipes[s], receiver)
    {
      ghost var was := openedPipes[..];
      var i := 0;
      while i < |openedPipes[s]|
        invariant Valid() && i <= |openedPipes[s]|
        invariant openedPipes[..] == was[s := openedPipes[s]]
        invariant forall k :: 0 <= k < i ==> openedPipes[s][k].receiver != receiver
        invariant openedPipes[s] == was[s] || Dropped(was[s], openedPipes[s], receiver)
        decreases |openedPipes[s]| - i
      {
        if openedPipes[s][i].receiver == receiver {
          DropsOnce(was[s], openedPipes[s], i);
          CloseEntry(s, i);
        } else {
          i := i + 1;
        }
      }
      NothingToDrop(was[s], openedPipes[s], receiver);
    }

    /** Closes one row's entries, from the first on, and clears the row. */
    method ClearRow(s: nat)
      requires Valid() && s < MAX_USERS
      modifies this`closed, openedPipes
      ensures Valid() && openedPipes[..] == old(openedPipes[..])[s := []]
    {
      ghost var was := openedPipes[..];
      while openedPipes[s] != []
        invariant Valid() && openedPipes[..] == was[s := openedPipes[s]]
        decreases |openedPipes[s]|
      {
        CloseEntry(s, 0);
      }
    }

    /** The first loop of delete_all_files_associate_to: every row loses its entries for `uid`. */
    method ClearColumn(uid: int)
      requires Valid()
      modifies this`closed, openedPipes
      ensures Valid() && ColumnCleared(old(openedPipes[..]), openedPipes[..], uid, MAX_USERS)
    {
      ghost var was := openedPipes[..];
      var s := 0;
      while s < openedPipes.Length
        invariant Valid() && s <= MAX_USERS
        invariant ColumnCleared(was, openedPipes[..], uid, s)
      {
        ghost var now := openedPipes[..];
        EraseReceiver(s, uid);
        ClearedOne(was, now, openedPipes[..], uid, s);
        s := s + 1;
      }
    }

    /** delete_all_files_associate_to: a user leaves. The column is cleared before the row is looked
        up, so a uid past the last row (35, the last client slot) still loses its column. */
    method DeleteAll(uid: int) returns (crashed: bool)
      requires Valid()
      modifies this`closed, openedPipes
      ensures Valid() && crashed == !(0 <= uid < 35)
      ensures View() == map k | k in old(View()) && k.0 != uid && k.1 != uid :: old(View())[k]
    {
      ghost var was := openedPipes[..];
      ClearColumn(uid);
      ghost var now := openedPipes[..];
      crashed := !(0 <= uid < MAX_USERS);
      if !crashed {
        ClearRow(uid);
      }
      Deleted(was, now, openedPipes[..], uid);
    }
  }
}
