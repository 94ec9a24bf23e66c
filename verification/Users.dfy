/** The user world of the single-process server, seen from outside: which users are connected and
    which user pipes join them, as a state machine over connections, lines and departures. */
module Users {
  import LineParser
  import Text

  /** Slots of the client table; a user's id is the number of its slot, counted from 1. */
  const SLOTS: nat := 35

  /** Rows of the user-pipe table: row u belongs to user u, so user 35 has none. */
  const ROWS: nat := 35

  const NO_NAME := "(no name)"

  datatype User = User(socket: int, name: string)

  /** `pipes` maps (sender, receiver) to a pipe; pipes are numbered as pipe() makes them. */
  datatype World = World(users: map<int, User>, pipes: map<(int, int), nat>, made: nat)

  /** What one line or connection does. A line that names several user pipes is several events. */
  datatype Event =
    | Connect(fd: int)
    | Name(uid: int, name: string)
    | Tell(uid: int, target: int)
    | Send(uid: int, target: int)
    | Receive(uid: int, source: int)
    | Leave(uid: int)
    | Throw(uid: int)

  datatype Outcome = Running(world: World) | Crashed

  ghost predicate Full(users: map<int, User>) {
    forall u :: 1 <= u <= SLOTS ==> u in users
  }

  /** The lowest id from `u` on that is free. */
  ghost function FirstFree(users: map<int, User>, u: int): (free: int)
    requires 1 <= u <= SLOTS && exists f :: u <= f <= SLOTS && f !in users
    ensures u <= free <= SLOTS && free !in users && forall v :: u <= v < free ==> v in users
    decreases SLOTS - u
  {
    if u !in users then u else FirstFree(users, u + 1)
  }

  /** get_client_by_uid finds a client: a connected one, or for -1 a free slot. */
  ghost predicate Found(users: map<int, User>, uid: int) {
    uid in users || (uid == -1 && !Full(users))
  }

  ghost predicate Taken(users: map<int, User>, name: string) {
    exists u :: u in users && users[u].name == name
  }

  /** The event can happen: a new socket is fresh and finds a free slot; lines come from users. */
  ghost predicate Enabled(w: World, e: Event) {
    match e
    case Connect(fd) => 0 <= fd && !Full(w.users) && forall u :: u in w.users ==> w.users[u].socket != fd
    case Name(uid, _) => uid in w.users
    case Tell(uid, _) => uid in w.users
    case Send(uid, _) => uid in w.users
    case Receive(uid, _) => uid in w.users
    case Leave(uid) => uid in w.users
    case Throw(uid) => uid in w.users
  }

  ghost function AfterConnect(w: World, fd: int): World
    requires !Full(w.users)
  {
    w.(users := w.users[FirstFree(w.users, 1) := User(fd, NO_NAME)])
  }

  ghost function AfterName(w: World, uid: int, name: string): World
    requires uid in w.users
  {
    if Taken(w.users, name) then w else w.(users := w.users[uid := w.users[uid].(name := name)])
  }

  ghost predicate CanSend(w: World, uid: int, target: int) {
    Found(w.users, target) && 0 <= uid < ROWS && (uid, target) !in w.pipes
  }

  ghost function AfterSend(w: World, uid: int, target: int): World {
    if CanSend(w, uid, target) then w.(pipes := w.pipes[(uid, target) := w.made], made := w.made + 1) else w
  }

  ghost predicate CanReceive(w: World, uid: int, source: int) {
    Found(w.users, source) && 0 <= source < ROWS && (source, uid) in w.pipes
  }

  ghost function AfterReceive(w: World, uid: int, source: int): World {
    if CanReceive(w, uid, source) then w.(pipes := w.pipes - {(source, uid)}) else w
  }

  ghost function AfterLeave(w: World, uid: int): World {
    w.(users := w.users - {uid}, pipes := map k | k in w.pipes && k.0 != uid && k.1 != uid :: w.pipes[k])
  }

  /** Telling an id that has no slot, and the departure of user 35, are exceptions nobody catches. */
  ghost function Step(w: World, e: Event): Outcome
    requires Enabled(w, e)
  {
    match e
    case Connect(fd) => Running(AfterConnect(w, fd))
    case Name(uid, name) => Running(AfterName(w, uid, name))
    case Tell(uid, target) => if 1 <= target <= SLOTS then Running(w) else Crashed
    case Send(uid, target) => Running(AfterSend(w, uid, target))
    case Receive(uid, source) => Running(AfterReceive(w, uid, source))
    case Leave(uid) => if uid < ROWS then Running(AfterLeave(w, uid)) else Crashed
    case Throw(_) => Crashed
  }

  // ---------------------------------------------------------------- the events of a line

  const WORD_BREAKS: set<char> := {'\r', '\t', '\n', ' '}

  /** What a word that should be a user's id becomes: stoi is called outside any handler. */
  function Numbered(uid: int, word: string, event: int -> Event): Event {
    match Text.Stoi(word)
    case Some(n) => event(n)
    case None => Throw(uid)
  }

  /** What the rest of a word `>word` or `<word` of a command asks for. */
  function SendEvent(uid: int, word: string): Event {
    Numbered(uid, word, n => Send(uid, n))
  }

  function ReceiveEvent(uid: int, word: string): Event {
    Numbered(uid, word, n => Receive(uid, n))
  }

  predicate Marked(word: string, mark: char) {
    |word| >= 2 && word[0] == mark
  }

  function FirstMarked(words: seq<string>, mark: char): (i: nat)
    ensures i <= |words| && (i < |words| ==> Marked(words[i], mark))
    ensures forall k :: 0 <= k < i ==> !Marked(words[k], mark)
  {
    if words == [] || Marked(words[0], mark) then 0 else 1 + FirstMarked(words[1..], mark)
  }

  function Without(words: seq<string>, i: nat): seq<string> {
    if i < |words| then words[..i] + words[i + 1..] else words
  }

  /** A redirection to a file is taken off before the command is searched for a user to pipe to. */
  function WithoutFile(words: seq<string>): seq<string> {
    if |words| > 2 && words[|words| - 2] == ">" then words[..|words| - 2] else words
  }

  /** The user pipes that one command asks for: the first `<n`, and then the first `>n`. */
  function Requests(uid: int, words: seq<string>): seq<Event> {
    var i := FirstMarked(words, '<');
    var rest := WithoutFile(Without(words, i));
    var o := FirstMarked(rest, '>');
    (if i < |words| then [ReceiveEvent(uid, words[i][1..])] else []) +
    (if o < |rest| then [SendEvent(uid, rest[o][1..])] else [])
  }

  function LineRequests(uid: int, commands: seq<string>): seq<Event> {
    if commands == [] then []
    else Requests(uid, Text.Tokens(commands[0], WORD_BREAKS)) + LineRequests(uid, commands[1..])
  }

  /** What execute does with a line. Printenv, who and yell touch no table. */
  datatype Kind = Leaves | Silent | SetsEnv | Names | Tells | Pipes

  /** `failed` says that the input has ended. */
  function Classify(line: string, failed: bool): (kind: Kind)
    ensures kind.SetsEnv? ==> |line| >= 7
    ensures kind.Names? || kind.Tells? ==> |line| >= 5
  {
    if "exit" <= line then Leaves
    else if line == "" || line == "\r" then Silent
    else if failed then Leaves
    else if "printenv " <= line then Silent
    else if "setenv " <= line then SetsEnv
    else if "who" <= line then Silent
    else if "name " <= line then Names
    else if "yell " <= line then Silent
    else if "tell " <= line then Tells
    else Pipes
  }

  /** The events of a line: setenv takes two words, tell a number, and the destination of a pipeline is
      one; a pipeline asks for the user pipes of all its commands. */
  function LineEvents(uid: int, line: string, failed: bool): seq<Event> {
    match Classify(line, failed)
    case Leaves => [Leave(uid)]
    case Silent => []
    case SetsEnv => if |Text.Tokens(line[6..], WORD_BREAKS)| < 2 then [Throw(uid)] else []
    case Names => [Name(uid, line[5..])]
    case Tells => [Numbered(uid, line[5..][..Text.Find(line[5..], {' '})], n => Tell(uid, n))]
    case Pipes =>
      match LineParser.Parse(line)
      case BadNumber => [Throw(uid)]
      case Parsed(commands, _, _) => LineRequests(uid, commands)
  }

  predicate By(e: Event, uid: int) {
    !e.Connect? && e.uid == uid
  }

  /** The events of one line of user `uid`: after the user has left there are no more. */
  predicate OfUser(uid: int, es: seq<Event>) {
    forall k :: 0 <= k < |es| ==> By(es[k], uid) && (es[k].Leave? ==> k == |es| - 1)
  }

  /** A user pipe that is not to be had: the line ends here, without an exception. */
  ghost predicate Refuses(w: World, e: Event) {
    || (e.Send? && !CanSend(w, e.uid, e.target))
    || (e.Receive? && !CanReceive(w, e.uid, e.source))
  }

  /** The world after a line, and whether every user pipe it asked for was to be had. */
  datatype Result = Result(outcome: Outcome, granted: bool)

  /** One event after the other, up to the first one that is refused or crashes. */
  ghost function Perform(w: World, uid: int, es: seq<Event>): Result
    requires OfUser(uid, es) && (es != [] ==> uid in w.users)
    decreases |es|
  {
    if es == [] then Result(Running(w), true)
    else if Refuses(w, es[0]) then Result(Running(w), false)
    else
      match Step(w, es[0])
      case Crashed => Result(Crashed, false)
      case Running(w') => Perform(w', uid, es[1..])
  }

  lemma OfUserAppend(uid: int, a: seq<Event>, b: seq<Event>)
    requires OfUser(uid, a) && OfUser(uid, b) && forall k :: 0 <= k < |a| ==> !a[k].Leave?
    ensures OfUser(uid, a + b)
  {
  }

  lemma RequestsOfUser(uid: int, words: seq<string>)
    ensures OfUser(uid, Requests(uid, words)) && |Requests(uid, words)| <= 2
    ensures forall k :: 0 <= k < |Requests(uid, words)| ==> !Requests(uid, words)[k].Leave?
  {
  }

  lemma {:induction false} LineRequestsOfUser(uid: int, commands: seq<string>)
    ensures OfUser(uid, LineRequests(uid, commands))
  {
    if commands != [] {
      LineRequestsOfUser(uid, commands[1..]);
      var words := Text.Tokens(commands[0], WORD_BREAKS);
      RequestsOfUser(uid, words);
      OfUserAppend(uid, Requests(uid, words), LineRequests(uid, commands[1..]));
    }
  }

  lemma LineEventsOfUser(uid: int, line: string, failed: bool)
    ensures OfUser(uid, LineEvents(uid, line, failed))
  {
    hide Classify, LineRequests, LineParser.Parse, Text.Stoi, Text.Tokens;
    var parsed := LineParser.Parse(line);
    if Classify(line, failed).Pipes? && parsed.Parsed? {
      LineRequestsOfUser(uid, parsed.commands);
    }
  }

  ghost predicate Steps(w: World, e: Event, w': World) {
    Enabled(w, e) && Step(w, e) == Running(w')
  }

  ghost predicate GrantedAt(ws: seq<World>, es: seq<Event>, i: nat)
    requires i < |es| && i + 1 < |ws|
  {
    Steps(ws[i], es[i], ws[i + 1]) && !Refuses(ws[i], es[i])
  }

  /** Performing a line is a run of its events, each of them granted, that goes to their end or stops
      before the first one that is refused or crashes. */
  lemma {:induction false} LineRuns(w: World, uid: int, es: seq<Event>) returns (ws: seq<World>)
    requires OfUser(uid, es) && (es != [] ==> uid in w.users)
    ensures 0 < |ws| <= |es| + 1 && ws[0] == w
    ensures forall i :: 0 <= i < |ws| - 1 ==> GrantedAt(ws, es, i)
    ensures
      var n, r := |ws| - 1, Perform(w, uid, es);
      && (r.granted <==> n == |es|)
      && (n < |es| ==> Enabled(ws[n], es[n]) && (Refuses(ws[n], es[n]) || Step(ws[n], es[n]) == Crashed))
      && r.outcome == if n < |es| && !Refuses(ws[n], es[n]) then Crashed else Running(ws[n])
    decreases |es|
  {
    if es == [] || Refuses(w, es[0]) || Step(w, es[0]) == Crashed {
      ws := [w];
    } else {
      var w' := Step(w, es[0]).world;
      var later := LineRuns(w', uid, es[1..]);
      ws := [w] + later;
      forall i | 0 <= i < |ws| - 1 ensures GrantedAt(ws, es, i) {
        if i > 0 { assert GrantedAt(later, es[1..], i - 1); }
      }
      var n := |later|;
      assert ws[n] == later[n - 1] && (n < |es| ==> es[n] == es[1..][n - 1]);
      assert Perform(w, uid, es) == Perform(w', uid, es[1..]);
    }
  }

  // ---------------------------------------------------------------- invariants

  ghost predicate UsersInv(users: map<int, User>) {
    && (forall u :: u in users ==> 1 <= u <= SLOTS && 0 <= users[u].socket)
    && (forall u, v :: u in users && v in users && u != v ==> users[u].socket != users[v].socket)
    && (forall u, v :: u in users && v in users && u != v && users[u].name == users[v].name ==>
          users[u].name == NO_NAME)
  }

  /** Every user pipe has a connected sender with a row, and a connected receiver or -1. */
  ghost predicate PipesInv(w: World) {
    forall k :: k in w.pipes ==> k.0 in w.users && k.0 < ROWS && (k.1 in w.users || k.1 == -1)
  }

  ghost predicate Inv(w: World) {
    UsersInv(w.users) && PipesInv(w)
  }

  ghost predicate NoStalePipes(w: World) {
    forall k :: k in w.pipes ==> k.0 in w.users && k.1 in w.users
  }

  ghost predicate Initial(w: World) {
    w.users == map[] && w.pipes == map[]
  }

  /** A run: `ws[i]` is the world before event i. */
  ghost predicate Run(ws: seq<World>, es: seq<Event>) {
    && |ws| == |es| + 1 && Initial(ws[0])
    && forall i, j :: 0 <= i < |es| && j == i + 1 ==> Steps(ws[i], es[i], ws[j])
  }

  lemma NameKeepsUsers(w: World, uid: int, name: string)
    requires UsersInv(w.users) && uid in w.users
    ensures UsersInv(AfterName(w, uid, name).users)
  {
  }

  lemma StepKeepsInv(w: World, e: Event)
    requires Inv(w) && Enabled(w, e) && Step(w, e).Running?
    ensures Inv(Step(w, e).world)
  {
    match e
    case Name(uid, name) => NameKeepsUsers(w, uid, name);
    case _ =>
  }

  lemma {:induction false} RunKeepsInv(ws: seq<World>, es: seq<Event>, n: nat)
    requires Run(ws, es) && n <= |es|
    ensures Inv(ws[n])
  {
    if n > 0 {
      RunKeepsInv(ws, es, n - 1);
      assert Steps(ws[n - 1], es[n - 1], ws[n]);
      StepKeepsInv(ws[n - 1], es[n - 1]);
    }
  }

  ghost predicate Reachable(w: World) {
    exists ws, es :: Run(ws, es) && ws[|es|] == w
  }

  lemma InitialReachable(w: World)
    requires Initial(w)
    ensures Reachable(w)
  {
    assert Run([w], []);
  }

  lemma ReachableInv(w: World)
    requires Reachable(w)
    ensures Inv(w)
  {
    var ws, es :| Run(ws, es) && ws[|es|] == w;
    RunKeepsInv(ws, es, |es|);
  }

  lemma RunAppend(ws: seq<World>, es: seq<Event>, e: Event)
    requires Run(ws, es) && Enabled(ws[|es|], e) && Step(ws[|es|], e).Running?
    ensures Run(ws + [Step(ws[|es|], e).world], es + [e])
  {
    var ws', es' := ws + [Step(ws[|es|], e).world], es + [e];
    forall i, j | 0 <= i < |es'| && j == i + 1 ensures Steps(ws'[i], es'[i], ws'[j]) {
      if i < |es| { assert Steps(ws[i], es[i], ws[j]); }
    }
  }

  lemma ReachableStep(w: World, e: Event, w': World)
    requires Reachable(w) && Steps(w, e, w')
    ensures Reachable(w')
  {
    var ws, es :| Run(ws, es) && ws[|es|] == w;
    RunAppend(ws, es, e);
    assert (ws + [w'])[|es + [e]|] == w';
  }

  // ---------------------------------------------------------------- user pipes over sessions

  /** Piping to -1 while a slot is free finds the free slot and leaves a pipe nobody can receive. */
  ghost predicate LeavesStalePipe(w: World, e: Event) {
    e.Send? && e.target == -1 && !Full(w.users) && e.uid < ROWS && (e.uid, -1) !in w.pipes
  }

  /** An event keeps the table free of stale pipes exactly when it does not pipe to a free slot. */
  lemma NoStalePipesKept(w: World, e: Event)
    requires Inv(w) && NoStalePipes(w) && Enabled(w, e) && Step(w, e).Running?
    ensures NoStalePipes(Step(w, e).world) <==> !LeavesStalePipe(w, e)
  {
    if LeavesStalePipe(w, e) {
      assert (e.uid, -1) in Step(w, e).world.pipes;
    }
  }

  lemma {:induction false} NoStalePipesOverRuns(ws: seq<World>, es: seq<Event>, n: nat)
    requires Run(ws, es) && n <= |es| && forall i :: 0 <= i < n ==> !LeavesStalePipe(ws[i], es[i])
    ensures NoStalePipes(ws[n])
  {
    if n > 0 {
      NoStalePipesOverRuns(ws, es, n - 1);
      RunKeepsInv(ws, es, n - 1);
      assert Steps(ws[n - 1], es[n - 1], ws[n]);
      NoStalePipesKept(ws[n - 1], es[n - 1]);
    }
  }

  /** On every run, piping to -1 included, a newcomer inherits no pipe. */
  lemma NewcomerInheritsNothing(ws: seq<World>, es: seq<Event>, n: nat, k: (int, int))
    requires Run(ws, es) && n < |es| && es[n].Connect? && k in ws[n + 1].pipes
    ensures ws[n + 1].users.Keys - ws[n].users.Keys == {FirstFree(ws[n].users, 1)}
    ensures k.0 != FirstFree(ws[n].users, 1) && k.1 != FirstFree(ws[n].users, 1)
  {
    RunKeepsInv(ws, es, n);
    var j := n + 1;
    assert Steps(ws[n], es[n], ws[j]);
  }

  /** Between events i and n neither end left and the receiver did not take the pipe. */
  ghost predicate Undisturbed(es: seq<Event>, i: nat, n: nat, a: int, b: int) {
    forall j :: i < j < n && j < |es| ==> es[j] != Leave(a) && es[j] != Leave(b) && es[j] != Receive(b, a)
  }

  /** Event i made the user pipe from a to b, or found it made, and it was undisturbed since. */
  ghost predicate Piped(ws: seq<World>, es: seq<Event>, i: nat, n: nat, a: int, b: int) {
    && i < n && i < |es| && i < |ws|
    && es[i] == Send(a, b) && Found(ws[i].users, b) && 0 <= a < ROWS && Undisturbed(es, i, n, a, b)
  }

  lemma StepPipes(w: World, e: Event, a: int, b: int)
    requires Inv(w) && Enabled(w, e) && Step(w, e).Running?
    ensures (a, b) in Step(w, e).world.pipes <==>
      if (a, b) in w.pipes then e != Leave(a) && e != Leave(b) && e != Receive(b, a)
      else e == Send(a, b) && Found(w.users, b) && 0 <= a < ROWS
  {
  }

  lemma PipedLater(ws: seq<World>, es: seq<Event>, i: nat, n: nat, a: int, b: int)
    requires n < |es| && i < |ws|
    ensures Piped(ws, es, i, n + 1, a, b) <==>
      if i < n then Piped(ws, es, i, n, a, b) && es[n] != Leave(a) && es[n] != Leave(b) && es[n] != Receive(b, a)
      else i == n && es[n] == Send(a, b) && Found(ws[n].users, b) && 0 <= a < ROWS
  {
  }

  /** The table of user pipes over runs: (a, b) has a pipe exactly when an earlier line of a piped to
      a client b that was found, and since then neither has left and b has not received from a. So the
      two users that a pipe joins are the two sessions that were there when it was made. */
  lemma {:induction false} PipesJoinSessions(ws: seq<World>, es: seq<Event>, n: nat, a: int, b: int)
    requires Run(ws, es) && n <= |es|
    ensures (a, b) in ws[n].pipes <==> exists i :: Piped(ws, es, i, n, a, b)
  {
    if n > 0 {
      var m := n - 1;
      PipesJoinSessions(ws, es, m, a, b);
      RunKeepsInv(ws, es, m);
      assert Steps(ws[m], es[m], ws[n]);
      StepPipes(ws[m], es[m], a, b);
      if (a, b) in ws[n].pipes {
        var i: nat := if (a, b) in ws[m].pipes then (var i: nat :| Piped(ws, es, i, m, a, b); i) else m;
        PipedLater(ws, es, i, m, a, b);
      }
      if i: nat :| Piped(ws, es, i, n, a, b) {
        PipedLater(ws, es, i, m, a, b);
      }
    }
  }

  /** The line `>-1` of the only user leaves a pipe in the table that joins it to nobody. */
  lemma PipingToAFreeSlot()
    ensures exists ws, es :: Run(ws, es) && |es| == 2 && es[1] == Send(1, -1) && !NoStalePipes(ws[2])
  {
    var w0 := World(map[], map[], 0);
    assert 1 !in w0.users;
    var w1 := AfterConnect(w0, 4);
    assert 2 !in w1.users;
    var w2 := AfterSend(w1, 1, -1);
    var ws, es := [w0, w1, w2], [Connect(4), Send(1, -1)];
    assert (1, -1) in w2.pipes;
    assert Steps(w0, es[0], w1) && Steps(w1, es[1], w2);
    assert Run(ws, es);
  }

  // ---------------------------------------------------------------- users over sessions

  /** Connection i gave user u its id, the lowest that was free, and u has not left before event n. */
  ghost predicate Joined(ws: seq<World>, es: seq<Event>, i: nat, n: nat, u: int) {
    && i < n <= |es| && |ws| == |es| + 1
    && es[i].Connect? && 1 <= u <= 35 && u !in ws[i].users && (forall v :: 1 <= v < u ==> v in ws[i].users)
    && (forall j :: i < j < n ==> es[j] != Leave(u))
  }

  /** Event j gives u a name that no connected user has. */
  ghost predicate Renames(ws: seq<World>, es: seq<Event>, j: nat, u: int)
    requires j < |es| && j < |ws|
  {
    es[j].Name? && es[j].uid == u && forall v :: v in ws[j].users ==> ws[j].users[v].name != es[j].name
  }

  lemma StepUser(w: World, e: Event, u: int)
    requires Inv(w) && Enabled(w, e) && Step(w, e).Running?
    ensures var w' := Step(w, e).world;
      && (u in w'.users <==>
            if u in w.users then e != Leave(u)
            else e.Connect? && 1 <= u <= 35 && forall v :: 1 <= v < u ==> v in w.users)
      && (u in w'.users && u !in w.users ==> w'.users[u] == User(e.fd, "(no name)"))
      && (u in w'.users && u in w.users ==>
            && w'.users[u].socket == w.users[u].socket
            && w'.users[u].name ==
                 (if e.Name? && e.uid == u && forall v :: v in w.users ==> w.users[v].name != e.name
                  then e.name else w.users[u].name))
  {
    hide PipesInv, Found, Inv;
  }

  lemma JoinedLater(ws: seq<World>, es: seq<Event>, i: nat, n: nat, u: int)
    requires n < |es| && |ws| == |es| + 1
    ensures Joined(ws, es, i, n + 1, u) <==>
      if i < n then Joined(ws, es, i, n, u) && es[n] != Leave(u)
      else i == n && es[n].Connect? && 1 <= u <= 35 && u !in ws[n].users && forall v :: 1 <= v < u ==> v in ws[n].users
  {
  }

  /** Who is connected, over runs: exactly those whom a connection gave the id and who have not left since. */
  lemma {:induction false} SessionsOverRuns(ws: seq<World>, es: seq<Event>, n: nat, u: int)
    requires Run(ws, es) && n <= |es|
    ensures u in ws[n].users <==> exists i :: Joined(ws, es, i, n, u)
  {
    if n > 0 {
      var m := n - 1;
      SessionsOverRuns(ws, es, m, u);
      RunKeepsInv(ws, es, m);
      assert Steps(ws[m], es[m], ws[n]);
      StepUser(ws[m], es[m], u);
      if u in ws[n].users {
        var i: nat := if u in ws[m].users then (var i: nat :| Joined(ws, es, i, m, u); i) else m;
        JoinedLater(ws, es, i, m, u);
      }
      if i: nat :| Joined(ws, es, i, n, u) {
        JoinedLater(ws, es, i, m, u);
      }
    }
  }

  /** A user's socket is that of the connection, and the name is the last one that was granted since, or
      `(no name)`. */
  lemma {:induction false} NameOverRuns(ws: seq<World>, es: seq<Event>, i: nat, n: nat, u: int)
    requires Run(ws, es) && Joined(ws, es, i, n, u)
    ensures u in ws[n].users && ws[n].users[u].socket == es[i].fd
    ensures forall j :: i < j < n && Renames(ws, es, j, u) && (forall k :: j < k < n ==> !Renames(ws, es, k, u)) ==>
              ws[n].users[u].name == es[j].name
    ensures (forall j :: i < j < n ==> !Renames(ws, es, j, u)) ==> ws[n].users[u].name == "(no name)"
  {
    var m := n - 1;
    RunKeepsInv(ws, es, m);
    assert Steps(ws[m], es[m], ws[n]);
    StepUser(ws[m], es[m], u);
    if i < m {
      NameOverRuns(ws, es, i, m, u);
      assert es[m].Name? ==> (Renames(ws, es, m, u) ==> ws[n].users[u].name == es[m].name);
    }
  }

  // ---------------------------------------------------------------- the last user

  /** The first n users connect, with sockets of any increasing numbers: here their own ids. */
  lemma {:induction false} Crowd(n: nat) returns (ws: seq<World>, es: seq<Event>)
    requires n <= SLOTS
    ensures Run(ws, es) && |es| == n && forall i :: 0 <= i < n ==> es[i].Connect?
    ensures forall u :: u in ws[n].users <==> 1 <= u <= n
    ensures forall u :: u in ws[n].users ==> ws[n].users[u].socket == u
  {
    if n == 0 {
      ws, es := [World(map[], map[], 0)], [];
    } else {
      ws, es := Crowd(n - 1);
      var w := ws[n - 1];
      assert n !in w.users;
      assert Enabled(w, Connect(n)) && FirstFree(w.users, 1) == n;
      RunAppend(ws, es, Connect(n));
      ws, es := ws + [AfterConnect(w, n)], es + [Connect(n)];
    }
  }

  /** When 35 users have connected, the departure of the last one ends the server. */
  lemma LastUserLeaves() returns (ws: seq<World>, es: seq<Event>)
    ensures Run(ws, es) && |es| == 35 && forall i :: 0 <= i < 35 ==> es[i].Connect?
    ensures Enabled(ws[35], Leave(35)) && Step(ws[35], Leave(35)) == Crashed
  {
    ws, es := Crowd(SLOTS);
  }
}
