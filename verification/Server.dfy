/** The single-process server's tables, updated in place, and their agreement with the user world:
    the client table, the set of open sockets and the post office. */
module Server {
  import opened Users
  import LineParser
  import PostOffice
  import Text

  /** A slot of the client table. A free slot holds the default client. */
  datatype Client = Client(socket: int, name: string, connected: bool, uid: int)

  const FREE := Client(-1, "None", false, -1)

  /** A connected client in slot i has id i + 1. */
  ghost predicate SlotOk(c: Client, i: int) {
    if c.connected then c.uid == i + 1 && 0 <= c.socket else c == FREE
  }

  ghost predicate TableOk(cs: seq<Client>) {
    |cs| == SLOTS && forall i :: 0 <= i < SLOTS ==> SlotOk(cs[i], i)
  }

  ghost predicate Connected(cs: seq<Client>, u: int) {
    1 <= u <= |cs| && cs[u - 1].connected
  }

  ghost function UsersOf(cs: seq<Client>): map<int, User> {
    map u | 1 <= u <= |cs| && Connected(cs, u) :: User(cs[u - 1].socket, cs[u - 1].name)
  }

  /** Direct indexing: user u is what slot u - 1 holds. */
  lemma UserAt(cs: seq<Client>, i: nat)
    requires i < |cs|
    ensures i + 1 in UsersOf(cs) <==> cs[i].connected
    ensures cs[i].connected ==> UsersOf(cs)[i + 1] == User(cs[i].socket, cs[i].name)
  {
    assert Connected(cs, i + 1) <==> cs[i].connected;
  }

  /** Where a scan for an id stops. */
  lemma FoundByUid(cs: seq<Client>, i: nat, uid: int)
    requires TableOk(cs) && i <= SLOTS && (forall j :: 0 <= j < i ==> cs[j].uid != uid)
    requires i < SLOTS ==> cs[i].uid == uid
    ensures i < SLOTS <==> Found(UsersOf(cs), uid)
    ensures uid in UsersOf(cs) ==> i == uid - 1
  {
    if i < SLOTS {
      UserAt(cs, i);
      assert SlotOk(cs[i], i);
      if cs[i].connected {
        assert uid == i + 1;
      } else {
        assert uid == -1 && !Full(UsersOf(cs));
      }
    }
    if uid in UsersOf(cs) {
      assert SlotOk(cs[uid - 1], uid - 1);
    }
    if !Full(UsersOf(cs)) {
      var u :| 1 <= u <= SLOTS && u !in UsersOf(cs);
      UserAt(cs, u - 1);
      assert SlotOk(cs[u - 1], u - 1);
    }
  }

  ghost function SocketsOf(users: map<int, User>): set<int> {
    set u | u in users :: users[u].socket
  }

  /** Where a scan for an open socket stops. */
  lemma FoundByFd(cs: seq<Client>, i: nat, fd: int)
    requires TableOk(cs) && 0 <= fd && i <= SLOTS && (forall j :: 0 <= j < i ==> cs[j].socket != fd)
    requires i < SLOTS ==> cs[i].socket == fd
    ensures i < SLOTS <==> fd in SocketsOf(UsersOf(cs))
    ensures i < SLOTS ==> i + 1 in UsersOf(cs) && UsersOf(cs)[i + 1].socket == fd
  {
    if i < SLOTS {
      assert SlotOk(cs[i], i);
      UserAt(cs, i);
    }
  }

  /** Where a scan for a free slot stops. */
  lemma FoundFree(cs: seq<Client>, i: nat)
    requires TableOk(cs) && i <= SLOTS && (forall j :: 0 <= j < i ==> cs[j].connected)
    requires i < SLOTS ==> !cs[i].connected
    requires !Full(UsersOf(cs))
    ensures i < SLOTS && FirstFree(UsersOf(cs), 1) == i + 1
  {
    var users := UsersOf(cs);
    var u := FirstFree(users, 1);
    UserAt(cs, u - 1);
    if i < SLOTS {
      UserAt(cs, i);
    }
    forall v | 1 <= v <= i ensures v in users { UserAt(cs, v - 1); }
  }

  lemma ConnectedUsers(cs: seq<Client>, i: nat, c: Client)
    requires i < |cs| && c.connected
    ensures UsersOf(cs[i := c]) == UsersOf(cs)[i + 1 := User(c.socket, c.name)]
  {
    forall u ensures u in UsersOf(cs[i := c]) <==> u in UsersOf(cs) || u == i + 1 {
      if 1 <= u <= |cs| { UserAt(cs, u - 1); UserAt(cs[i := c], u - 1); }
    }
  }

  lemma FreedUsers(cs: seq<Client>, i: nat, c: Client)
    requires i < |cs| && !c.connected
    ensures UsersOf(cs[i := c]) == UsersOf(cs) - {i + 1}
  {
    forall u ensures u in UsersOf(cs[i := c]) <==> u in UsersOf(cs) && u != i + 1 {
      if 1 <= u <= |cs| { UserAt(cs, u - 1); UserAt(cs[i := c], u - 1); }
    }
  }

  lemma SocketsConnected(users: map<int, User>, u: int, user: User)
    requires u !in users
    ensures SocketsOf(users[u := user]) == SocketsOf(users) + {user.socket}
  {
    var users' := users[u := user];
    forall v | v in users ensures users[v].socket in SocketsOf(users') { assert users'[v] == users[v]; }
    assert users'[u].socket in SocketsOf(users');
  }

  lemma SocketsLeft(users: map<int, User>, u: int)
    requires UsersInv(users) && u in users
    ensures SocketsOf(users - {u}) == SocketsOf(users) - {users[u].socket}
  {
    forall v | v in users && v != u ensures users[v].socket in SocketsOf(users - {u}) {
      assert (users - {u})[v] == users[v];
    }
  }

  lemma SocketsNamed(users: map<int, User>, u: int, name: string)
    requires u in users
    ensures SocketsOf(users[u := users[u].(name := name)]) == SocketsOf(users)
  {
    var users' := users[u := users[u].(name := name)];
    forall v | v in users ensures users[v].socket in SocketsOf(users') { assert users'[v].socket == users[v].socket; }
  }

  lemma TakenSlot(cs: seq<Client>, name: string)
    ensures Taken(UsersOf(cs), name) <==> exists j :: 0 <= j < |cs| && cs[j].connected && cs[j].name == name
  {
    if j :| 0 <= j < |cs| && cs[j].connected && cs[j].name == name { UserAt(cs, j); }
    if Taken(UsersOf(cs), name) {
      var u :| u in UsersOf(cs) && UsersOf(cs)[u].name == name;
      assert cs[u - 1].name == name;
    }
  }

  /** What the post office's answer to an insertion makes of the world. */
  lemma SentWorld(w: World, w': World, r: PostOffice.Result, uid: int, target: int)
    requires uid in w.users && Found(w.users, target) && w'.users == w.users
    requires r.Ok? <==> 0 <= uid < ROWS && (uid, target) !in w.pipes
    requires r.Ok? ==> r.pipe == w.made
    requires w'.made == if r.Ok? then w.made + 1 else w.made
    requires w'.pipes == if r.Ok? then w.pipes[(uid, target) := r.pipe] else w.pipes
    ensures Steps(w, Send(uid, target), w')
    ensures r.Ok? <==> CanSend(w, uid, target)
  {
    assert w' == AfterSend(w, uid, target);
  }

  lemma ReceivedWorld(w: World, w': World, r: PostOffice.Result, uid: int, source: int)
    requires uid in w.users && Found(w.users, source) && w'.users == w.users && w'.made == w.made
    requires r.Ok? <==> 0 <= source < ROWS && (source, uid) in w.pipes
    requires w'.pipes == if r.Ok? then w.pipes - {(source, uid)} else w.pipes
    ensures Steps(w, Receive(uid, source), w')
  {
    assert w' == AfterReceive(w, uid, source);
  }

  datatype Told = Delivered(socket: int) | NoSuchUser | OutOfRange

  /** What `>word` or `<word` comes to: a pipe, a message to the user, or an exception nobody catches. */
  datatype Piping = Pipe(pipe: nat) | Refused | Threw

  /** What came of the user pipes of a command: all were made, one was refused, or an exception ended
      the server. */
  datatype Asked = Granted | Denied | Ended

  /** Of the events `es` of user `uid`, those before `rest` have led from w to w', as r says. */
  ghost predicate Comes(r: Asked, uid: int, es: seq<Event>, w: World, rest: seq<Event>, w': World) {
    && OfUser(uid, es) && OfUser(uid, rest) && uid in w.users
    && match r
       case Granted => uid in w'.users && Perform(w, uid, es) == Perform(w', uid, rest)
       case Denied => Perform(w, uid, es) == Result(Running(w'), false)
       case Ended => Perform(w, uid, es) == Result(Crashed, false)
  }

  /** What one user pipe comes to. */
  lemma PipeComes(r: Asked, uid: int, e: Event, rest: seq<Event>, w: World, w': World)
    requires By(e, uid) && !e.Leave? && OfUser(uid, rest) && uid in w.users && Enabled(w, e)
    requires r.Ended? <==> Step(w, e) == Crashed
    requires r.Denied? <==> Refuses(w, e)
    requires !r.Ended? ==> Steps(w, e, w')
    ensures Comes(r, uid, [e] + rest, w, rest, w')
  {
    assert ([e] + rest)[1..] == rest;
    OfUserAppend(uid, [e], rest);
  }

  lemma PipeWords(uid: int, word: string)
    ensures By(SendEvent(uid, word), uid) && !SendEvent(uid, word).Leave?
    ensures By(ReceiveEvent(uid, word), uid) && !ReceiveEvent(uid, word).Leave?
  {
  }

  lemma NothingAsked(uid: int, rest: seq<Event>, w: World)
    requires OfUser(uid, rest) && uid in w.users
    ensures Comes(Granted, uid, [] + rest, w, rest, w)
  {
    assert [] + rest == rest;
  }

  lemma SendsOfUser(uid: int, words: seq<string>, rest: seq<Event>)
    requires OfUser(uid, rest)
    ensures var o := FirstMarked(words, '>');
      OfUser(uid, (if o < |words| then [SendEvent(uid, words[o][1..])] else []) + rest)
  {
  }

  /** A command's input pipe comes first, then its output pipe, then the rest of the line. */
  lemma RequestsAre(uid: int, words: seq<string>, rest: seq<Event>)
    ensures
      var i := FirstMarked(words, '<');
      var left := WithoutFile(Without(words, i));
      var o := FirstMarked(left, '>');
      Requests(uid, words) + rest ==
      (if i < |words| then [ReceiveEvent(uid, words[i][1..])] else []) +
      ((if o < |left| then [SendEvent(uid, left[o][1..])] else []) + rest)
  {
  }

  lemma NextRequests(uid: int, commands: seq<string>, k: nat)
    requires k < |commands|
    ensures LineRequests(uid, commands[k..]) ==
      Requests(uid, Text.Tokens(commands[k], WORD_BREAKS)) + LineRequests(uid, commands[k + 1..])
  {
    assert commands[k..][1..] == commands[k + 1..];
  }

  lemma NothingYet(uid: int, commands: seq<string>, w: World)
    requires uid in w.users
    ensures Comes(Granted, uid, LineRequests(uid, commands), w, LineRequests(uid, commands[0..]), w)
    ensures LineRequests(uid, commands[|commands|..]) == []
  {
    LineRequestsOfUser(uid, commands);
    assert commands[0..] == commands;
  }

  lemma ComesThen(r: Asked, uid: int, a: seq<Event>, w: World, b: seq<Event>, v: World, c: seq<Event>, u: World)
    requires Comes(Granted, uid, a, w, b, v) && Comes(r, uid, b, v, c, u)
    ensures Comes(r, uid, a, w, c, u)
  {
    hide Perform;
  }

  /** Once the line has ended, it does not matter what it would have asked for. */
  lemma ComesStopped(r: Asked, uid: int, a: seq<Event>, w: World, b: seq<Event>, v: World, c: seq<Event>)
    requires Comes(r, uid, a, w, b, v) && !r.Granted? && OfUser(uid, c)
    ensures Comes(r, uid, a, w, c, v)
  {
    hide Perform;
  }

  class Server {
    const clients: array<Client>
    var openSockets: set<int>
    const office: PostOffice.PostOffice

    constructor ()
      ensures Valid() && fresh(clients) && fresh(office) && fresh(office.openedPipes) && Initial(View())
    {
      clients := new Client[SLOTS](_ => FREE);
      openSockets := {};
      office := new PostOffice.PostOffice();
      new;
      InitialReachable(View());
    }

    ghost function View(): World
      reads this, clients, office, office.openedPipes
    {
      World(UsersOf(clients[..]), office.View(), office.nextPipe)
    }

    /** The client table, the open sockets and the post office agree, and show a world that some run of
        events leads to. */
    ghost predicate Valid()
      reads this, clients, office, office.openedPipes
    {
      && office.Valid()
      && clients.Length == SLOTS
      && TableOk(clients[..])
      && Reachable(View())
      && openSockets == SocketsOf(View().users)
    }

    method FindFree() returns (i: nat)
      requires Valid() && !Full(View().users)
      ensures i < SLOTS && !clients[i].connected && i + 1 == FirstFree(View().users, 1)
    {
      i := 0;
      while i < clients.Length && clients[i].connected
        invariant i <= SLOTS && forall j :: 0 <= j < i ==> clients[j].connected
      {
        i := i + 1;
      }
      FoundFree(clients[..], i);
    }

    /** find_if over the connection status; the new client is written to the slot that it finds. */
    method InsertNewClient(fd: int) returns (uid: int)
      requires Valid() && Enabled(View(), Connect(fd))
      modifies this, clients
      ensures Valid() && Steps(old(View()), Connect(fd), View())
      ensures 1 <= uid <= 35 && uid !in old(View()).users && forall v :: 1 <= v < uid ==> v in old(View()).users
      ensures View() == old(View()).(users := old(View()).users[uid := User(fd, "(no name)")])
    {
      ghost var w := View();
      var i := FindFree();
      uid := i + 1;
      ghost var cs, c := clients[..], Client(fd, NO_NAME, true, uid);
      clients[i] := Client(fd, NO_NAME, true, uid);
      openSockets := openSockets + {fd};
      assert clients[..] == cs[i := c];
      ConnectedUsers(cs, i, c);
      SocketsConnected(w.users, uid, User(fd, NO_NAME));
      assert Steps(w, Connect(fd), View());
      ReachableStep(w, Connect(fd), View());
    }

    /** Scanning by socket finds the client of an open socket. */
    method GetClientByFd(fd: int) returns (i: nat)
      requires Valid() && 0 <= fd
      ensures i <= SLOTS && (i < SLOTS <==> fd in openSockets)
      ensures i < SLOTS ==> i + 1 in View().users && View().users[i + 1].socket == fd
    {
      i := 0;
      while i < clients.Length && clients[i].socket != fd
        invariant i <= SLOTS && forall j :: 0 <= j < i ==> clients[j].socket != fd
      {
        i := i + 1;
      }
      FoundByFd(clients[..], i, fd);
    }

    /** Scanning by id finds slot uid - 1 of a connected client; -1 finds a free slot. */
    method GetClientByUid(uid: int) returns (i: nat)
      requires Valid()
      ensures i <= SLOTS && (i < SLOTS <==> Found(View().users, uid))
      ensures uid in View().users ==> i == uid - 1
      ensures i < SLOTS ==> clients[i].uid == uid
    {
      i := 0;
      while i < clients.Length && clients[i].uid != uid
        invariant i <= SLOTS && forall j :: 0 <= j < i ==> clients[j].uid != uid
      {
        i := i + 1;
      }
      FoundByUid(clients[..], i, uid);
    }

    method IsTaken(name: string) returns (taken: bool)
      requires Valid()
      ensures taken == Taken(View().users, name)
    {
      var i := 0;
      taken := false;
      while i < clients.Length && !taken
        invariant i <= SLOTS
        invariant taken == exists j :: 0 <= j < i && clients[j].connected && clients[j].name == name
      {
        taken := clients[i].connected && clients[i].name == name;
        i := i + 1;
      }
      TakenSlot(clients[..], name);
    }

    /** The new name is refused when a connected client has it, the asking one included. */
    method SetName(i: nat, name: string) returns (refused: bool)
      requires Valid() && i < SLOTS && clients[i].connected
      modifies clients
      ensures Valid() && Steps(old(View()), Name(i + 1, name), View())
      ensures i + 1 in old(View()).users
      ensures refused <==> exists u :: u in old(View()).users && old(View()).users[u].name == name
      ensures var users := old(View()).users;
        View() ==
          if refused then old(View()) else old(View()).(users := users[i + 1 := User(users[i + 1].socket, name)])
    {
      ghost var w := View();
      UserAt(clients[..], i);
      refused := IsTaken(name);
      if !refused {
        ghost var cs, c := clients[..], clients[i].(name := name);
        clients[i] := clients[i].(name := name);
        assert clients[..] == cs[i := c];
        ConnectedUsers(cs, i, c);
        SocketsNamed(w.users, i + 1, name);
      }
      assert Steps(w, Name(i + 1, name), View());
      ReachableStep(w, Name(i + 1, name), View());
    }

    /** clients.at(target - 1): an id without a slot is an exception nobody catches. */
    method TellUser(i: nat, target: int) returns (r: Told)
      requires Valid() && i < SLOTS && clients[i].connected
      ensures r == if target in View().users then Delivered(View().users[target].socket)
                   else if 1 <= target <= 35 then NoSuchUser else OutOfRange
      ensures i + 1 in View().users && (r == OutOfRange <==> Step(View(), Tell(i + 1, target)) == Crashed)
    {
      UserAt(clients[..], i);
      if !(0 <= target - 1 < clients.Length) {
        ReachableInv(View());
        return OutOfRange;
      }
      UserAt(clients[..], target - 1);
      r := if clients[target - 1].connected then Delivered(clients[target - 1].socket) else NoSuchUser;
    }

    method InsertPipe(i: nat, t: nat) returns (r: Piping)
      requires Valid() && i < SLOTS && clients[i].connected && t < SLOTS && Found(View().users, clients[t].uid)
      modifies office`nextPipe, office.openedPipes
      ensures Valid() && Steps(old(View()), Send(i + 1, clients[t].uid), View())
      ensures r == if CanSend(old(View()), i + 1, clients[t].uid) then Pipe(old(View()).made) else Refused
    {
      ghost var w := View();
      UserAt(clients[..], i);
      assert SlotOk(clients[..][i], i);
      var inserted := office.Insert(clients[i].uid, clients[t].uid);
      r := if inserted.Ok? then Pipe(inserted.pipe) else Refused;
      SentWorld(w, View(), inserted, i + 1, clients[t].uid);
      ReachableStep(w, Send(i + 1, clients[t].uid), View());
    }

    /** `>word`: an unknown id and an exception of the post office are both reported, and the line ends;
        a word that is no number is an exception nobody catches. */
    method PipeTo(i: nat, word: string) returns (r: Piping)
      requires Valid() && i < SLOTS && clients[i].connected
      modifies office`nextPipe, office.openedPipes
      ensures i + 1 in old(View()).users && Enabled(old(View()), SendEvent(i + 1, word))
      ensures r.Threw? <==> Step(old(View()), SendEvent(i + 1, word)) == Crashed
      ensures !r.Threw? ==> Valid() && Steps(old(View()), SendEvent(i + 1, word), View())
      ensures r.Refused? <==> Refuses(old(View()), SendEvent(i + 1, word))
      ensures r.Threw? <==> Text.Stoi(word) == Text.None
      ensures !r.Threw? ==>
        var w, target := old(View()), Text.Stoi(word).value;
        if Found(w.users, target) && i + 1 < 35 && (i + 1, target) !in w.pipes
        then r == Pipe(w.made) && View() == w.(pipes := w.pipes[(i + 1, target) := w.made], made := w.made + 1)
        else r == Refused && View() == w
    {
      UserAt(clients[..], i);
      var target := Text.Stoi(word);
      if target.None? {
        return Threw;
      }
      var t := GetClientByUid(target.value);
      if t == clients.Length {
        assert Steps(View(), Send(i + 1, target.value), View());
        return Refused;
      }
      r := InsertPipe(i, t);
    }

    method ErasePipe(i: nat, t: nat) returns (r: Piping)
      requires Valid() && i < SLOTS && clients[i].connected && t < SLOTS && Found(View().users, clients[t].uid)
      modifies office`toRemove, office.openedPipes
      ensures old(office.toRemove) <= office.toRemove
      ensures Valid() && Steps(old(View()), Receive(i + 1, clients[t].uid), View())
      ensures r == if CanReceive(old(View()), i + 1, clients[t].uid)
                   then Pipe(old(View()).pipes[(clients[t].uid, i + 1)]) else Refused
    {
      ghost var w := View();
      UserAt(clients[..], i);
      var erased := office.Erase(clients[t].uid, clients[i].uid);
      r := if erased.Ok? then Pipe(erased.pipe) else Refused;
      assert SlotOk(clients[..][i], i);
      ReceivedWorld(w, View(), erased, i + 1, clients[t].uid);
      ReachableStep(w, Receive(i + 1, clients[t].uid), View());
    }

    /** `<word`: the read end goes to the removal queue of the post office. */
    method PipeFrom(i: nat, word: string) returns (r: Piping)
      requires Valid() && i < SLOTS && clients[i].connected
      modifies office`toRemove, office.openedPipes
      ensures old(office.toRemove) <= office.toRemove
      ensures i + 1 in old(View()).users && Enabled(old(View()), ReceiveEvent(i + 1, word))
      ensures r.Threw? <==> Step(old(View()), ReceiveEvent(i + 1, word)) == Crashed
      ensures !r.Threw? ==> Valid() && Steps(old(View()), ReceiveEvent(i + 1, word), View())
      ensures r.Refused? <==> Refuses(old(View()), ReceiveEvent(i + 1, word))
      ensures r.Threw? <==> Text.Stoi(word) == Text.None
      ensures !r.Threw? ==>
        var w, source := old(View()), Text.Stoi(word).value;
        if Found(w.users, source) && (source, i + 1) in w.pipes
        then r == Pipe(w.pipes[(source, i + 1)]) && View() == w.(pipes := w.pipes - {(source, i + 1)})
        else r == Refused && View() == w
    {
      UserAt(clients[..], i);
      var source := Text.Stoi(word);
      if source.None? {
        return Threw;
      }
      var t := GetClientByUid(source.value);
      if t == clients.Length {
        assert Steps(View(), Receive(i + 1, source.value), View());
        return Refused;
      }
      r := ErasePipe(i, t);
    }

    /** The departure of the client in slot i. For user 35 the post office throws after clearing the
        column, and the server ends. */
    method Depart(i: nat) returns (crashed: bool)
      requires Valid() && i < SLOTS && clients[i].connected
      modifies this`openSockets, clients, office`closed, office.openedPipes
      ensures i + 1 in old(View()).users
      ensures crashed <==> Step(old(View()), Leave(i + 1)) == Crashed
      ensures crashed <==> i + 1 == 35
      ensures !crashed ==> Valid() && Steps(old(View()), Leave(i + 1), View())
      ensures !crashed ==>
        var w, uid := old(View()), i + 1;
        View() == World(w.users - {uid}, map k | k in w.pipes && k.0 != uid && k.1 != uid :: w.pipes[k], w.made)
    {
      hide Reachable, PipesInv, SocketsOf;
      ghost var w := View();
      ReachableInv(w);
      UserAt(clients[..], i);
      openSockets := openSockets - {clients[i].socket};
      crashed := office.DeleteAll(clients[i].uid);
      if crashed {
        return;
      }
      ghost var cs := clients[..];
      clients[i] := FREE;
      assert clients[..] == cs[i := FREE];
      FreedUsers(cs, i, FREE);
      SocketsLeft(w.users, i + 1);
      assert Steps(w, Leave(i + 1), View());
      ReachableStep(w, Leave(i + 1), View());
    }

    method FindMarked(words: seq<string>, mark: char) returns (i: nat)
      ensures i == FirstMarked(words, mark)
    {
      i := 0;
      while i < |words| && !Marked(words[i], mark)
        invariant i <= |words| && forall k :: 0 <= k < i ==> !Marked(words[k], mark)
      {
        i := i + 1;
      }
    }

    /** parse_input_from_user_pipe: the first `<n` of a command, which it takes out. `rest` is what the
        line will ask for after it. */
    method InputPipe(i: nat, words: seq<string>, ghost rest: seq<Event>) returns (r: Asked, left: seq<string>)
      requires Valid() && i < SLOTS && clients[i].connected && OfUser(i + 1, rest)
      modifies office`toRemove, office.openedPipes
      ensures var at := FirstMarked(words, '<');
        var es := (if at < |words| then [ReceiveEvent(i + 1, words[at][1..])] else []) + rest;
        left == Without(words, at) && Comes(r, i + 1, es, old(View()), rest, View())
      ensures !r.Ended? ==> Valid()
      ensures old(office.toRemove) <= office.toRemove
    {
      hide Reachable, UsersOf, Enabled, Step, SocketsOf, Full, Comes, Refuses, CanSend, CanReceive;
      ghost var w := View();
      UserAt(clients[..], i);
      var at := FindMarked(words, '<');
      left := Without(words, at);
      r := Granted;
      if at < |words| {
        var word := words[at][1..];
        var piping := PipeFrom(i, word);
        r := match piping { case Pipe(_) => Granted case Refused => Denied case Threw => Ended };
        PipeWords(i + 1, word);
        PipeComes(r, i + 1, ReceiveEvent(i + 1, word), rest, w, View());
      } else {
        NothingAsked(i + 1, rest, w);
      }
    }

    /** parse_output_to_user_pipe: the first `>n` of what is left of a command. */
    method OutputPipe(i: nat, words: seq<string>, ghost rest: seq<Event>) returns (r: Asked)
      requires Valid() && i < SLOTS && clients[i].connected && OfUser(i + 1, rest)
      modifies office`nextPipe, office.openedPipes
      ensures var at := FirstMarked(words, '>');
        var es := (if at < |words| then [SendEvent(i + 1, words[at][1..])] else []) + rest;
        Comes(r, i + 1, es, old(View()), rest, View())
      ensures !r.Ended? ==> Valid()
    {
      hide Reachable, UsersOf, Enabled, Step, SocketsOf, Full, Comes, Refuses, CanSend, CanReceive;
      ghost var w := View();
      UserAt(clients[..], i);
      var at := FindMarked(words, '>');
      r := Granted;
      if at < |words| {
        var word := words[at][1..];
        var piping := PipeTo(i, word);
        r := match piping { case Pipe(_) => Granted case Refused => Denied case Threw => Ended };
        PipeWords(i + 1, word);
        PipeComes(r, i + 1, SendEvent(i + 1, word), rest, w, View());
      } else {
        NothingAsked(i + 1, rest, w);
      }
    }

    /** The user pipes of one command. */
    method CommandPipes(i: nat, command: string, ghost rest: seq<Event>) returns (r: Asked)
      requires Valid() && i < SLOTS && clients[i].connected && OfUser(i + 1, rest)
      modifies office`toRemove, office`nextPipe, office.openedPipes
      ensures Comes(r, i + 1, Requests(i + 1, Text.Tokens(command, WORD_BREAKS)) + rest, old(View()), rest, View())
      ensures !r.Ended? ==> Valid()
      ensures old(office.toRemove) <= office.toRemove
    {
      hide Requests, Reachable, UsersOf, Comes, OfUser;
      ghost var w := View();
      var words := Text.SplitAndTrim(command, WORD_BREAKS);
      ghost var left := WithoutFile(Without(words, FirstMarked(words, '<')));
      ghost var o := FirstMarked(left, '>');
      ghost var send := if o < |left| then [SendEvent(i + 1, left[o][1..])] else [];
      SendsOfUser(i + 1, left, rest);
      RequestsAre(i + 1, words, rest);
      ghost var asked := Requests(i + 1, words) + rest;
      r, words := InputPipe(i, words, send + rest);
      if !r.Granted? {
        ComesStopped(r, i + 1, asked, w, send + rest, View(), rest);
        return;
      }
      ghost var v := View();
      if |words| > 2 && words[|words| - 2] == ">" {
        words := words[..|words| - 2];
      }
      r := OutputPipe(i, words, rest);
      ComesThen(r, i + 1, asked, w, send + rest, v, rest, View());
    }

    /** The user pipes of a pipeline, command by command; the read ends that it took are closed when the
        whole line has run. */
    method PipelinePipes(i: nat, commands: seq<string>) returns (r: Asked)
      requires Valid() && i < SLOTS && clients[i].connected
      modifies office`toRemove, office`nextPipe, office`closed, office.openedPipes
      ensures Comes(r, i + 1, LineRequests(i + 1, commands), old(View()), [], View())
      ensures !r.Ended? ==> Valid()
      ensures r.Granted? ==> office.toRemove == []
      ensures r.Denied? ==> old(office.toRemove) <= office.toRemove
    {
      hide Requests, LineRequests, Reachable, Comes, UsersOf;
      ghost var w := View();
      r := Granted;
      UserAt(clients[..], i);
      NothingYet(i + 1, commands, w);
      var k := 0;
      while k < |commands|
        invariant k <= |commands| && Valid() && r.Granted?
        invariant Comes(r, i + 1, LineRequests(i + 1, commands), w, LineRequests(i + 1, commands[k..]), View())
        invariant old(office.toRemove) <= office.toRemove
      {
        ghost var v := View();
        LineRequestsOfUser(i + 1, commands[k + 1..]);
        NextRequests(i + 1, commands, k);
        r := CommandPipes(i, commands[k], LineRequests(i + 1, commands[k + 1..]));
        ghost var asked, later := LineRequests(i + 1, commands), LineRequests(i + 1, commands[k + 1..]);
        ComesThen(r, i + 1, asked, w, LineRequests(i + 1, commands[k..]), v, later, View());
        if !r.Granted? {
          ComesStopped(r, i + 1, asked, w, later, View(), []);
          return;
        }
        k := k + 1;
      }
      office.DeleteQueued();
    }

    /** One line of the client in slot i; `true` when the server ends. */
    method ExecuteLine(i: nat, line: string, failed: bool) returns (ended: bool)
      requires Valid() && i < SLOTS && clients[i].connected
      modifies this`openSockets, clients, office`closed, office`toRemove, office`nextPipe, office.openedPipes
      ensures i + 1 in old(View()).users && OfUser(i + 1, LineEvents(i + 1, line, failed))
      ensures
        var outcome := Perform(old(View()), i + 1, LineEvents(i + 1, line, failed)).outcome;
        if ended then outcome == Crashed else Valid() && outcome == Running(View())
    {
      hide Classify, Reachable, UsersOf, TableOk, SocketsOf, Requests, LineRequests;
      UserAt(clients[..], i);
      LineEventsOfUser(i + 1, line, failed);
      ended := false;
      match Classify(line, failed) {
        case Leaves =>
          ended := Depart(i);
        case Silent =>
        case SetsEnv =>
          var words := Text.SplitAndTrim(line[6..], WORD_BREAKS);
          ended := |words| < 2;
        case Names =>
          var _ := SetName(i, line[5..]);
        case Tells =>
          var rest := line[5..];
          var target := Text.Stoi(rest[..Text.Find(rest, {' '})]);
          if target.None? {
            ended := true;
          } else {
            var told := TellUser(i, target.value);
            ended := told.OutOfRange?;
          }
        case Pipes =>
          var parsed := LineParser.ParseLine(line);
          if parsed.BadNumber? {
            ended := true;
          } else {
            var r := PipelinePipes(i, parsed.commands);
            ended := r.Ended?;
          }
      }
    }
  }
}
