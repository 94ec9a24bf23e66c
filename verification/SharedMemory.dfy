/** The shared memory of the multi-process server: the client array with its message slots, written
    in place by the senders' processes and by the receivers' signal handlers. */
module SharedMemory {
  import opened Mailbox
  import Inbox

  /** A free slot of the client array has id 0. `msg` holds a row of message slots for each sender. */
  datatype Client = Client(id: nat, name: string, msg: seq<Row>)

  const NOBODY := Client(0, "", seq(USERS, _ => Inbox.EMPTY))

  ghost predicate AllEmpty(rows: seq<Row>) {
    |rows| == USERS && forall k :: 0 <= k < USERS ==> rows[k] == Inbox.EMPTY
  }

  /** A free slot of the array: whoever takes it begins with an empty inbox. */
  ghost predicate Nobody(c: Client) {
    c.id == 0 && c.name == "" && AllEmpty(c.msg)
  }

  /** The client after a post of `sender`. */
  function Posted(c: Client, sender: nat, m: string): Client
    requires sender < |c.msg|
  {
    c.(msg := c.msg[sender := Post(c.msg[sender], m)])
  }

  /** The client after its handler has visited a slot. */
  function Visited(c: Client, sender: nat, slot: nat): Client
    requires sender < |c.msg| && slot < SLOTS
  {
    c.(msg := c.msg[sender := c.msg[sender][slot := ""]])
  }

  ghost function Text(ps: seq<string>): string {
    if ps == [] then "" else Text(ps[..|ps| - 1]) + ps[|ps| - 1]
  }

  /** What a drain of these rows prints: sender by sender, slot by slot. */
  ghost function Output(rows: seq<Row>): string {
    if rows == [] then "" else Output(rows[..|rows| - 1]) + Text(Pending(rows[|rows| - 1], 0, SLOTS))
  }

  lemma OutputOfRows(rows: seq<Row>, i: nat)
    requires i < |rows|
    ensures Output(rows[..i + 1]) == Output(rows[..i]) + Text(Pending(rows[i], 0, SLOTS))
  {
    assert rows[..i + 1][..i] == rows[..i];
  }

  lemma TextOfRow(row: Row, j: nat)
    requires j < SLOTS
    ensures Text(Pending(row, 0, j + 1)) == Text(Pending(row, 0, j)) + row[j]
  {
    if row[j] != "" {
      assert Pending(row, 0, j + 1)[..|Pending(row, 0, j)|] == Pending(row, 0, j);
    } else {
      assert Pending(row, 0, j + 1) == Pending(row, 0, j);
    }
  }

  /** So it prints all slots of all rows, in order; a free slot has nothing to print. */
  lemma OutputInOrder(rows: seq<Row>, row: Row)
    ensures Output([]) == ""
    ensures Output(rows + [row]) == Output(rows) + (row[0] + row[1] + row[2] + row[3] + row[4])
  {
    OutputOfRows(rows + [row], |rows|);
    assert (rows + [row])[..|rows|] == rows && (rows + [row])[..|rows| + 1] == rows + [row];
    TextOfRow(row, 0);
    TextOfRow(row, 1);
    TextOfRow(row, 2);
    TextOfRow(row, 3);
    TextOfRow(row, 4);
    assert Text(Pending(row, 0, 0)) == "" && "" + row[0] == row[0];
  }

  lemma Rewritten<T>(s: seq<T>, i: nat)
    requires i < |s|
    ensures s[i := s[i]] == s
  {
  }

  /** A post fills slot j of the sender's row, the first that is free, and nothing else; with none free it
      changes nothing. A visit frees one slot, and nothing else. */
  lemma SlotsAfter(c: Client, sender: nat, j: nat, m: string)
    requires sender < |c.msg| && j <= 5 && (forall k :: 0 <= k < j ==> c.msg[sender][k] != "")
    requires j < 5 ==> c.msg[sender][j] == ""
    ensures Posted(c, sender, m) ==
      if j == 5 then c else Client(c.id, c.name, c.msg[sender := c.msg[sender][j := m]])
    ensures forall k: nat :: k < 5 ==>
      Visited(c, sender, k) == Client(c.id, c.name, c.msg[sender := c.msg[sender][k := ""]])
  {
    assert FirstFree(c.msg[sender]) == j;
    Rewritten(c.msg, sender);
  }

  lemma NoOutput(rows: seq<Row>)
    ensures Output(rows[..0]) == ""
  {
  }

  lemma RewrittenTwice<T>(s: seq<T>, i: nat, x: T, y: T)
    requires i < |s|
    ensures s[i := x][i := y] == s[i := y]
  {
  }

  /** A client's slots and pending signal are those of an inbox that some run of posts and visits leads to. */
  ghost predicate Shows(x: Inbox.Inbox, c: Client, signalled: bool) {
    Inbox.Sized(x) && x.rows == c.msg && x.signalled == signalled && Inbox.Reachable(x)
  }

  /** What a post makes of the receiver's inbox. */
  ghost function PostedTo(x: Inbox.Inbox, sender: nat, m: string): Inbox.Inbox
    requires Inbox.Sized(x) && sender < USERS && Fits(m)
  {
    if m != "" then Inbox.Step(x, Inbox.Posted(sender, m))
    else if FirstFree(x.rows[sender]) < SLOTS then Inbox.Step(x, Inbox.Empty(sender))
    else x
  }

  lemma PostedIsStep(x: Inbox.Inbox, c: Client, signalled: bool, sender: nat, m: string)
    requires Shows(x, c, signalled) && sender < USERS && Fits(m)
    ensures Shows(PostedTo(x, sender, m), Posted(c, sender, m), signalled || FirstFree(c.msg[sender]) < SLOTS)
  {
    Rewritten(c.msg, sender);
    if m != "" {
      Inbox.ReachableStep(x, Inbox.Posted(sender, m));
    } else if FirstFree(c.msg[sender]) < SLOTS {
      Rewritten(c.msg[sender], FirstFree(c.msg[sender]));
      Inbox.ReachableStep(x, Inbox.Empty(sender));
    }
  }

  /** One slot is visited: what is printed, and what is left, is what the inbox machine says. */
  lemma VisitedIsStep(x: Inbox.Inbox, c: Client, signalled: bool)
    requires Shows(x, c, signalled) && Inbox.Enabled(x, Inbox.Visit)
    ensures var y, s, j := Inbox.Step(x, Inbox.Visit), x.drain.sender, x.drain.slot;
      Shows(y, Visited(c, s, j), signalled) && Text(y.printed[s]) == Text(x.printed[s]) + c.msg[s][j]
  {
    var s, j := x.drain.sender, x.drain.slot;
    var p := Pending(c.msg[s], j, j + 1);
    if c.msg[s][j] == "" {
      assert x.printed[s] + p == x.printed[s];
    } else {
      assert (x.printed[s] + p)[..|x.printed[s]|] == x.printed[s];
    }
    Inbox.ReachableStep(x, Inbox.Visit);
  }

  lemma EmptyInboxShows(c: Client)
    requires AllEmpty(c.msg)
    ensures Shows(Inbox.EmptyInbox(), c, false)
  {
    Inbox.InitialReachable(Inbox.EmptyInbox());
  }

  /** The rows before i are empty, and the others as they were. */
  ghost predicate DrainedTo(was: seq<Row>, left: seq<Row>, i: nat) {
    |left| == |was| && i <= |was| && forall k :: 0 <= k < |was| ==> left[k] == if k < i then Inbox.EMPTY else was[k]
  }

  lemma DrainedOne(was: seq<Row>, left: seq<Row>, i: nat)
    requires DrainedTo(was, left, i) && i < |was|
    ensures DrainedTo(was, left[i := Inbox.EMPTY], i + 1)
    ensures Output(was[..i + 1]) == Output(was[..i]) + Text(Pending(left[i], 0, SLOTS))
  {
    OutputOfRows(was, i);
  }

  lemma DrainedAll(was: seq<Row>, left: seq<Row>)
    requires DrainedTo(was, left, USERS) && |was| == USERS
    ensures AllEmpty(left) && was[..USERS] == was
  {
  }

  /** The slots before j are empty, and the others as they were. */
  ghost predicate EmptiedTo(row: Row, left: Row, j: nat) {
    j <= SLOTS && forall k :: 0 <= k < SLOTS ==> left[k] == if k < j then "" else row[k]
  }

  lemma NothingEmptied(row: Row)
    ensures EmptiedTo(row, row, 0) && Text(Pending(row, 0, 0)) == ""
  {
  }

  lemma EmptiedOne(row: Row, left: Row, j: nat)
    requires EmptiedTo(row, left, j) && j < SLOTS
    ensures EmptiedTo(row, left[j := ""], j + 1) && left[j] == row[j]
    ensures Text(Pending(row, 0, j + 1)) == Text(Pending(row, 0, j)) + left[j]
  {
    TextOfRow(row, j);
  }

  lemma EmptiedAll(row: Row, left: Row)
    requires EmptiedTo(row, left, SLOTS)
    ensures left == Inbox.EMPTY
  {
  }

  lemma VisitedAgain(was: Client, sender: nat, left: Row, j: nat)
    requires sender < |was.msg| && j < SLOTS
    ensures Visited(was.(msg := was.msg[sender := left]), sender, j) == was.(msg := was.msg[sender := left[j := ""]])
  {
    RewrittenTwice(was.msg, sender, left, left[j := ""]);
  }

  class SharedMemory {
    const clients: array<Client>
    const signalled: array<bool>   // SIGUSR1 is pending for the process of a client
    // for each client, the run of posts and visits that its slots have come from
    ghost var inboxes: seq<Inbox.Inbox>

    constructor ()
      ensures Valid() && fresh(clients) && fresh(signalled)
      ensures clients.Length == 35 && forall i :: 0 <= i < 35 ==> Nobody(clients[i])
    {
      clients := new Client[USERS](_ => NOBODY);
      signalled := new bool[USERS](_ => false);
      inboxes := seq(USERS, _ => Inbox.EmptyInbox());
    }

    /** Nobody has waiting texts in a free slot, and the slots of a client are those of its inbox. */
    ghost predicate Valid()
      reads this, clients, signalled
    {
      && clients.Length == USERS && signalled.Length == USERS && |inboxes| == USERS
      && (forall i :: 0 <= i < USERS ==> |clients[i].msg| == USERS && (Nobody(clients[i]) || clients[i].id == i > 0))
      && (forall i :: 0 <= i < USERS && clients[i].id > 0 ==> Shows(inboxes[i], clients[i], signalled[i]))
    }

    /** No wake-up is lost: a client whose handler does not run, and that has no signal pending, has printed
        every text that found a slot exactly once. */
    lemma Delivered(me: nat, sender: nat)
      requires Valid() && me < USERS && clients[me].id > 0 && sender < USERS
      requires inboxes[me].drain.Idle? && !signalled[me]
      ensures Inbox.Sized(inboxes[me])
      ensures multiset(inboxes[me].printed[sender]) == multiset(inboxes[me].accepted[sender])
    {
      var xs, es :| Inbox.Run(xs, es) && xs[|es|] == inboxes[me];
      Inbox.QuietIsDelivered(xs, es, |es|, sender);
    }

    /** The lowest free slot but 0; when there is none, the process goes on with id 0. The new process has
        no signal pending. */
    method InsertClient() returns (uid: nat)
      requires Valid()
      modifies this`inboxes, clients, signalled
      ensures Valid() && uid < USERS
      ensures forall r :: 0 <= r < USERS && r != uid ==>
        signalled[r] == old(signalled[r]) && inboxes[r] == old(inboxes)[r]
      ensures uid > 0 ==> inboxes[uid] == Inbox.EmptyInbox() && !signalled[uid]
      ensures forall r :: 0 <= r < USERS && r != uid ==> clients[r] == old(clients[r])
      ensures uid == 0 ==> clients[0] == old(clients[0]) && forall i :: 0 < i < USERS ==> clients[i].id != 0
      ensures uid > 0 ==> Nobody(old(clients[uid])) && clients[uid].id == uid
      ensures uid > 0 ==> clients[uid].name == "(no name)" && AllEmpty(clients[uid].msg)
      ensures forall i :: 0 < i < uid ==> clients[i].id != 0
    {
      hide Shows;
      var pos := 1;
      while pos < clients.Length && clients[pos].id != 0
        invariant 1 <= pos <= USERS && forall i :: 0 < i < pos ==> clients[i].id != 0
      {
        pos := pos + 1;
      }
      if pos == clients.Length {
        return 0;
      }
      clients[pos] := clients[pos].(id := pos, name := "(no name)");
      signalled[pos] := false;
      inboxes := inboxes[pos := Inbox.EmptyInbox()];
      EmptyInboxShows(clients[pos]);
      uid := pos;
    }

    method RemoveClient(me: nat)
      requires Valid() && me < USERS
      modifies clients
      ensures Valid() && Nobody(clients[me])
      ensures forall r :: 0 <= r < USERS && r != me ==> clients[r] == old(clients[r])
    {
      clients[me] := NOBODY;
    }

    /** One receiver of a broadcast or tell: the first free slot takes the text, and a signal goes out. */
    method PostTo(receiver: nat, sender: nat, m: string)
      requires Valid() && receiver < USERS && sender < USERS && clients[receiver].id > 0 && Fits(m)
      modifies this`inboxes, clients, signalled
      ensures Valid()
      ensures inboxes == old(inboxes)[receiver := PostedTo(old(inboxes)[receiver], sender, m)]
      ensures forall r :: 0 <= r < USERS && r != receiver ==>
        clients[r] == old(clients[r]) && signalled[r] == old(signalled[r])
      ensures clients[receiver] == Posted(old(clients[receiver]), sender, m)
      ensures signalled[receiver] == (old(signalled[receiver]) || FirstFree(old(clients[receiver]).msg[sender]) < SLOTS)
    {
      PostedIsStep(inboxes[receiver], clients[receiver], signalled[receiver], sender, m);
      inboxes := inboxes[receiver := PostedTo(inboxes[receiver], sender, m)];
      var j := 0;
      while j < SLOTS && clients[receiver].msg[sender][j] != ""
        invariant j <= SLOTS && forall k :: 0 <= k < j ==> clients[receiver].msg[sender][k] != ""
      {
        j := j + 1;
      }
      assert j == FirstFree(clients[receiver].msg[sender]);
      if j < SLOTS {
        var rows := clients[receiver].msg;
        clients[receiver] := clients[receiver].(msg := rows[sender := rows[sender][j := m]]);
        signalled[receiver] := true;
      } else {
        Rewritten(clients[receiver].msg, sender);
      }
    }

    /** Every connected client gets the text, the sender included, and nobody else does. */
    method Broadcast(sender: nat, m: string)
      requires Valid() && sender < 35 && |m| <= 2048 && '\0' !in m
      modifies this`inboxes, clients, signalled
      ensures Valid()
      ensures Fits(m)
      ensures forall r :: 0 <= r < USERS ==>
        inboxes[r] == if old(clients[r]).id > 0 then PostedTo(old(inboxes)[r], sender, m) else old(inboxes)[r]
      ensures forall r :: 0 <= r < USERS ==>
        clients[r] == if old(clients[r]).id > 0 then Posted(old(clients[r]), sender, m) else old(clients[r])
      ensures forall r :: 0 <= r < USERS ==>
        (signalled[r] <==>
          old(signalled[r]) || (old(clients[r]).id > 0 && FirstFree(old(clients[r]).msg[sender]) < SLOTS))
    {
      hide Inbox.Reachable, PostedTo, AllEmpty, Posted;
      var i := 1;
      while i < clients.Length
        invariant 1 <= i <= USERS && Valid()
        invariant forall r :: i <= r < USERS ==> clients[r] == old(clients[r]) && signalled[r] == old(signalled[r])
        invariant forall r :: i <= r < USERS ==> inboxes[r] == old(inboxes)[r]
        invariant forall r :: 0 <= r < i ==>
          inboxes[r] == if old(clients[r]).id > 0 then PostedTo(old(inboxes)[r], sender, m) else old(inboxes)[r]
        invariant forall r :: 0 <= r < i ==>
          clients[r] == if old(clients[r]).id > 0 then Posted(old(clients[r]), sender, m) else old(clients[r])
        invariant forall r :: 0 <= r < i ==>
          (signalled[r] <==>
            old(signalled[r]) || (old(clients[r]).id > 0 && FirstFree(old(clients[r]).msg[sender]) < SLOTS))
      {
        if clients[i].id > 0 {
          PostTo(i, sender, m);
        }
        i := i + 1;
      }
    }

    method Tell(sender: nat, who: nat, m: string) returns (found: bool)
      requires Valid() && sender < 35 && who < 35 && |m| <= 2048 && '\0' !in m
      modifies this`inboxes, clients, signalled
      ensures Valid() && found == (old(clients[who]).id != 0)
      ensures Fits(m)
      ensures inboxes == if found then old(inboxes)[who := PostedTo(old(inboxes)[who], sender, m)] else old(inboxes)
      ensures forall r :: 0 <= r < USERS && r != who ==>
        clients[r] == old(clients[r]) && signalled[r] == old(signalled[r])
      ensures clients[who] == if found then Posted(old(clients[who]), sender, m) else old(clients[who])
      ensures signalled[who] == (old(signalled[who]) || (found && FirstFree(old(clients[who]).msg[sender]) < SLOTS))
    {
      found := clients[who].id != 0;
      if found {
        PostTo(who, sender, m);
      }
    }

    /** The handler's visit of one slot. */
    method VisitSlot(me: nat, sender: nat, slot: nat) returns (text: string)
      requires Valid() && me < USERS && sender < USERS && slot < SLOTS && clients[me].id > 0
      requires inboxes[me].drain == Inbox.At(sender, slot)
      modifies this`inboxes, clients
      ensures inboxes == old(inboxes)[me := Inbox.Step(old(inboxes)[me], Inbox.Visit)]
      ensures inboxes[me].drain == Inbox.Next(Inbox.At(sender, slot))
      ensures inboxes[me].accepted == old(inboxes)[me].accepted
      ensures Text(inboxes[me].printed[sender]) == Text(old(inboxes)[me].printed[sender]) + text
      ensures Valid() && forall r :: 0 <= r < USERS && r != me ==> clients[r] == old(clients[r])
      ensures text == old(clients[me]).msg[sender][slot]
      ensures clients[me] == Visited(old(clients[me]), sender, slot)
    {
      hide Inbox.Reachable, Text, AllEmpty;
      VisitedIsStep(inboxes[me], clients[me], signalled[me]);
      inboxes := inboxes[me := Inbox.Step(inboxes[me], Inbox.Visit)];
      text := clients[me].msg[sender][slot];
      if text != "" {
        var rows := clients[me].msg;
        clients[me] := clients[me].(msg := rows[sender := rows[sender][slot := ""]]);
      } else {
        Rewritten(clients[me].msg[sender], slot);
        Rewritten(clients[me].msg, sender);
      }
    }

    method DrainRow(me: nat, sender: nat) returns (text: string)
      requires Valid() && me < USERS && sender < USERS && clients[me].id > 0
      requires inboxes[me].drain == Inbox.At(sender, 0)
      modifies this`inboxes, clients
      ensures Valid()
      ensures forall r :: 0 <= r < USERS && r != me ==> clients[r] == old(clients[r]) && inboxes[r] == old(inboxes)[r]
      ensures inboxes[me].accepted == old(inboxes)[me].accepted
      ensures inboxes[me].drain == if sender + 1 < USERS then Inbox.At(sender + 1, 0) else Inbox.Idle
      ensures text == Text(Pending(old(clients[me]).msg[sender], 0, SLOTS))
      ensures clients[me] == old(clients[me]).(msg := old(clients[me]).msg[sender := Inbox.EMPTY])
    {
      hide Shows, Inbox.Step, AllEmpty, Text, Pending, EmptiedTo, Visited;
      ghost var was := clients[me];
      ghost var row := was.msg[sender];
      var j := 0;
      text := "";
      ghost var left: Row := row;
      Rewritten(was.msg, sender);
      NothingEmptied(row);
      while j < SLOTS
        invariant j <= SLOTS && Valid()
        invariant forall r :: 0 <= r < USERS && r != me ==>
          clients[r] == old(clients[r]) && inboxes[r] == old(inboxes)[r]
        invariant text == Text(Pending(row, 0, j)) && EmptiedTo(row, left, j)
        invariant clients[me] == was.(msg := was.msg[sender := left])
        invariant inboxes[me].accepted == old(inboxes)[me].accepted
        invariant inboxes[me].drain == if j < SLOTS then Inbox.At(sender, j)
                                       else if sender + 1 < USERS then Inbox.At(sender + 1, 0) else Inbox.Idle
      {
        VisitedAgain(was, sender, left, j);
        EmptiedOne(row, left, j);
        var t := VisitSlot(me, sender, j);
        text := text + t;
        left := left[j := ""];
        j := j + 1;
      }
      EmptiedAll(row, left);
    }

    /** The kernel starts the handler when the signal is pending and the handler is not running. */
    method StartHandler(me: nat)
      requires Valid() && me < USERS && clients[me].id > 0 && signalled[me] && inboxes[me].drain.Idle?
      modifies this`inboxes, signalled
      ensures Valid() && !signalled[me] && inboxes == old(inboxes)[me := Inbox.Step(old(inboxes)[me], Inbox.Start)]
      ensures inboxes[me].drain == Inbox.At(0, 0) && inboxes[me].accepted == old(inboxes)[me].accepted
      ensures forall r :: 0 <= r < USERS && r != me ==> signalled[r] == old(signalled[r])
    {
      Inbox.ReachableStep(inboxes[me], Inbox.Start);
      inboxes := inboxes[me := Inbox.Step(inboxes[me], Inbox.Start)];
      signalled[me] := false;
    }

    /** With no post in between, the handler prints every waiting text and leaves the inbox empty. */
    method SignalHandler(me: nat) returns (output: string)
      requires Valid() && me < USERS && clients[me].id > 0 && signalled[me] && inboxes[me].drain.Idle?
      modifies this`inboxes, clients, signalled
      ensures Valid() && output == Output(old(clients[me]).msg)
      ensures inboxes[me].accepted == old(inboxes)[me].accepted
      ensures inboxes[me].drain.Idle?
      ensures AllEmpty(clients[me].msg) && clients[me] == old(clients[me]).(msg := clients[me].msg)
      ensures !signalled[me]
      ensures forall r :: 0 <= r < USERS && r != me ==>
        clients[r] == old(clients[r]) && signalled[r] == old(signalled[r]) && inboxes[r] == old(inboxes)[r]
    {
      hide Shows, Inbox.Step, AllEmpty, Output, Text, Posted, Visited;
      NoOutput(clients[me].msg);
      StartHandler(me);
      ghost var was := clients[me];
      var i := 0;
      output := "";
      while i < USERS
        invariant i <= USERS && Valid()
        invariant forall r :: 0 <= r < USERS && r != me ==>
          clients[r] == old(clients[r]) && inboxes[r] == old(inboxes)[r]
        invariant output == Output(was.msg[..i])
        invariant clients[me].id == was.id && clients[me].name == was.name && DrainedTo(was.msg, clients[me].msg, i)
        invariant !signalled[me] && forall r :: 0 <= r < USERS && r != me ==> signalled[r] == old(signalled[r])
        invariant inboxes[me].accepted == old(inboxes)[me].accepted
        invariant inboxes[me].drain == if i < USERS then Inbox.At(i, 0) else Inbox.Idle
      {
        ghost var left := clients[me].msg;
        DrainedOne(was.msg, left, i);
        var t := DrainRow(me, i);
        assert clients[me].msg == left[i := Inbox.EMPTY];
        output := output + t;
        i := i + 1;
      }
      DrainedAll(was.msg, clients[me].msg);
    }
  }
}
