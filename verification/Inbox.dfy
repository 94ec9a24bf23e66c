/** The whole inbox of one receiver as a state machine: posts of the senders' processes between any
    two steps of the receiver's signal handler, which visits the slots sender by sender. */
module Inbox {
  import opened Mailbox
  import Seqs

  /** The handler is not running, or will next visit a slot of a sender's row. */
  datatype Drain = Idle | At(sender: nat, slot: nat)

  /** `signalled`: SIGUSR1 is pending. For each sender, the texts that found a slot and the texts
      that were printed, in order. */
  datatype Inbox = Inbox(rows: seq<Row>, drain: Drain, signalled: bool, accepted: seq<seq<string>>,
                         printed: seq<seq<string>>)

  /** Empty: a post of an empty text leaves its slot free, but the signal goes out. */
  datatype Event = Posted(sender: nat, message: string) | Empty(sender: nat) | Start | Visit

  predicate Sized(x: Inbox) {
    |x.rows| == USERS && |x.accepted| == USERS && |x.printed| == USERS
    && (x.drain.At? ==> x.drain.sender < USERS && x.drain.slot < SLOTS)
  }

  /** How far the drain has come in the row of sender s. */
  function Cursor(drain: Drain, s: nat): (c: nat)
    requires drain.At? ==> drain.slot < SLOTS
    ensures c <= SLOTS
  {
    if drain.Idle? || s > drain.sender then 0 else if s == drain.sender then drain.slot else SLOTS
  }

  function Queue(x: Inbox, s: nat): seq<string>
    requires Sized(x) && s < USERS
  {
    InOrder(x.rows[s], Cursor(x.drain, s))
  }

  predicate Enabled(x: Inbox, e: Event) {
    Sized(x) &&
    match e
    case Posted(s, m) => s < USERS && Message(m)
    case Empty(s) => s < USERS && FirstFree(x.rows[s]) < SLOTS
    case Start => x.drain.Idle? && x.signalled
    case Visit => x.drain.At?
  }

  function AfterPosted(x: Inbox, s: nat, m: string): Inbox
    requires Sized(x) && s < USERS
  {
    if FirstFree(x.rows[s]) == SLOTS then x
    else
      x.(rows := x.rows[s := Post(x.rows[s], m)],
         signalled := true,
         accepted := x.accepted[s := x.accepted[s] + [m]])
  }

  function Next(d: Drain): Drain
    requires d.At?
  {
    if d.slot + 1 < SLOTS then At(d.sender, d.slot + 1) else if d.sender + 1 < USERS then At(d.sender + 1, 0) else Idle
  }

  function AfterVisit(x: Inbox): Inbox
    requires Sized(x) && x.drain.At?
  {
    var s, j := x.drain.sender, x.drain.slot;
    x.(drain := Next(x.drain),
       rows := x.rows[s := x.rows[s][j := ""]],
       printed := x.printed[s := x.printed[s] + Pending(x.rows[s], j, j + 1)])
  }

  function Step(x: Inbox, e: Event): (y: Inbox)
    requires Enabled(x, e)
    ensures Sized(y)
  {
    match e
    case Posted(s, m) => AfterPosted(x, s, m)
    case Empty(_) => x.(signalled := true)
    case Start => x.(drain := At(0, 0), signalled := false)
    case Visit => AfterVisit(x)
  }

  const EMPTY: Row := ["", "", "", "", ""]

  /** A session begins with an empty inbox and the handler not running. */
  ghost predicate Initial(x: Inbox) {
    && Sized(x) && x.drain.Idle?
    && forall s :: 0 <= s < USERS ==> x.rows[s] == EMPTY && x.accepted[s] == [] && x.printed[s] == []
  }

  ghost predicate Steps(x: Inbox, e: Event, y: Inbox) {
    Enabled(x, e) && Step(x, e) == y
  }

  ghost predicate Run(xs: seq<Inbox>, es: seq<Event>) {
    && |xs| == |es| + 1 && Initial(xs[0])
    && forall i, j :: 0 <= i < |es| && j == i + 1 ==> Steps(xs[i], es[i], xs[j])
  }

  // ---------------------------------------------------------------- invariants

  ghost predicate ShapeInv(x: Inbox) {
    Sized(x) && forall s :: 0 <= s < USERS ==> Shape(x.rows[s], Cursor(x.drain, s))
  }

  /** No text is lost or printed twice. */
  ghost predicate CountInv(x: Inbox) {
    Sized(x) && forall s :: 0 <= s < USERS ==> multiset(x.printed[s] + Queue(x, s)) == multiset(x.accepted[s])
  }

  ghost predicate InSendOrder(x: Inbox, s: nat)
    requires Sized(x) && s < USERS
  {
    x.printed[s] + Queue(x, s) == x.accepted[s]
  }

  /** Below this slot the running drain will not come again; all slots, if none runs. */
  function Reached(drain: Drain, s: nat): nat
    requires drain.At? ==> drain.slot < SLOTS
  {
    if drain.Idle? then SLOTS else Cursor(drain, s)
  }

  /** A text that waits where the running drain will not come, or while none runs, has a signal
      pending that will start one. */
  ghost predicate WakeInv(x: Inbox) {
    && Sized(x)
    && (!x.signalled ==> forall s, k :: 0 <= s < USERS && 0 <= k < Reached(x.drain, s) ==> x.rows[s][k] == "")
  }

  ghost predicate Inv(x: Inbox) {
    ShapeInv(x) && CountInv(x) && WakeInv(x)
  }

  /** A visit moves the cursor of the row that it visits; at the end of the drain all start over. */
  lemma NextCursor(d: Drain, s: nat)
    requires d.At? && d.slot < SLOTS && d.sender < USERS && s < USERS
    ensures Next(d).At? ==> Next(d).slot < SLOTS
    ensures var c := if s == d.sender then Cursor(d, s) + 1 else Cursor(d, s);
      Cursor(Next(d), s) == c || (c == SLOTS && Cursor(Next(d), s) == 0)
  {
  }

  lemma SameQueue(row: Row, c: nat, c': nat)
    requires c' == c <= SLOTS || (c == SLOTS && c' == 0)
    ensures InOrder(row, c') == InOrder(row, c) && (Shape(row, c) ==> Shape(row, c'))
  {
    PassedIsIdle(row);
  }

  lemma VisitQueue(x: Inbox, s: nat)
    requires Enabled(x, Visit) && s < USERS
    ensures AfterVisit(x).printed[s] + Queue(AfterVisit(x), s) == x.printed[s] + Queue(x, s)
    ensures Shape(x.rows[s], Cursor(x.drain, s)) ==> Shape(AfterVisit(x).rows[s], Cursor(AfterVisit(x).drain, s))
  {
    var row, c, c' := x.rows[s], Cursor(x.drain, s), Cursor(Next(x.drain), s);
    NextCursor(x.drain, s);
    if s == x.drain.sender {
      VisitOrder(row, c);
      Seqs.Assoc(x.printed[s], Pending(row, c, c + 1), InOrder(row[c := ""], c + 1));
      if Shape(row, c) { VisitKeepsShape(row, c); }
      SameQueue(row[c := ""], c + 1, c');
    } else {
      SameQueue(row, c, c');
    }
  }

  lemma PostedQueue(x: Inbox, s: nat, m: string, t: nat)
    requires Enabled(x, Posted(s, m)) && t < USERS && multiset(x.printed[t] + Queue(x, t)) == multiset(x.accepted[t])
    ensures multiset(AfterPosted(x, s, m).printed[t] + Queue(AfterPosted(x, s, m), t)) ==
      multiset(AfterPosted(x, s, m).accepted[t])
  {
    if s == t && FirstFree(x.rows[s]) < SLOTS {
      FilledAnywhere(x.rows[s], Cursor(x.drain, s), FirstFree(x.rows[s]), m);
    }
  }

  lemma StepKeepsCount(x: Inbox, e: Event)
    requires CountInv(x) && Enabled(x, e)
    ensures CountInv(Step(x, e))
  {
    var y := Step(x, e);
    forall s | 0 <= s < USERS ensures multiset(y.printed[s] + Queue(y, s)) == multiset(y.accepted[s]) {
      match e
      case Posted(t, m) => PostedQueue(x, t, m, s);
      case Visit => VisitQueue(x, s);
      case _ =>
    }
  }

  lemma StepKeepsShape(x: Inbox, e: Event)
    requires ShapeInv(x) && Enabled(x, e)
    ensures ShapeInv(Step(x, e))
  {
    forall s | 0 <= s < USERS ensures Shape(Step(x, e).rows[s], Cursor(Step(x, e).drain, s)) {
      match e
      case Posted(t, m) => PostKeepsShape(x.rows[s], Cursor(x.drain, s), m);
      case Visit => VisitQueue(x, s);
      case _ =>
    }
  }

  lemma StepKeepsWake(x: Inbox, e: Event)
    requires WakeInv(x) && Enabled(x, e)
    ensures WakeInv(Step(x, e))
  {
  }

  lemma SamePrefix(x: seq<string>, y: seq<string>, z: seq<string>)
    ensures x + y == x + z <==> y == z
  {
    assert (x + y)[|x|..] == y && (x + z)[|x|..] == z;
  }

  ghost predicate Overtaking(x: Inbox, e: Event, s: nat) {
    Enabled(x, e) && e.Posted? && e.sender == s && Overtakes(x.rows[s], Cursor(x.drain, s), e.message)
  }

  /** Each sender's order is kept by a step exactly when the step is not a post of that sender that
      overtakes: one that finds the slots behind the running drain refilled, with some other text. */
  lemma OrderKept(x: Inbox, e: Event, s: nat)
    requires ShapeInv(x) && Enabled(x, e) && s < USERS && InSendOrder(x, s)
    ensures InSendOrder(Step(x, e), s) <==> !Overtaking(x, e, s)
  {
    match e
    case Posted(t, m) =>
      if t == s && FirstFree(x.rows[s]) < SLOTS {
        var c := Cursor(x.drain, s);
        PostOrder(x.rows[s], c, m);
        Seqs.Assoc(x.printed[s], InOrder(x.rows[s], c), [m]);
        SamePrefix(x.printed[s], InOrder(Post(x.rows[s], m), c), InOrder(x.rows[s], c) + [m]);
      }
    case Visit => VisitQueue(x, s);
    case _ =>
  }

  lemma EmptyRow(row: Row)
    requires row == EMPTY
    ensures InOrder(row, 0) == [] && Shape(row, 0)
  {
    PendingFree(row, 0, |row|);
    assert ShapeAt(row, 0, 0, 0);
  }

  lemma InitialInv(x: Inbox)
    requires Initial(x)
    ensures Inv(x) && forall s: nat :: s < USERS ==> InSendOrder(x, s)
  {
    hide Shape, Pending;
    forall s: nat | s < USERS ensures Queue(x, s) == [] && Shape(x.rows[s], Cursor(x.drain, s)) {
      EmptyRow(x.rows[s]);
    }
  }

  // ---------------------------------------------------------------- runs

  lemma {:induction false} RunKeepsInv(xs: seq<Inbox>, es: seq<Event>, n: nat)
    requires Run(xs, es) && n <= |es|
    ensures Inv(xs[n])
  {
    if n == 0 {
      InitialInv(xs[0]);
    } else {
      RunKeepsInv(xs, es, n - 1);
      assert Steps(xs[n - 1], es[n - 1], xs[n]);
      StepKeepsShape(xs[n - 1], es[n - 1]);
      StepKeepsCount(xs[n - 1], es[n - 1]);
      StepKeepsWake(xs[n - 1], es[n - 1]);
    }
  }

  lemma RunAppend(xs: seq<Inbox>, es: seq<Event>, e: Event)
    requires Run(xs, es) && Enabled(xs[|es|], e)
    ensures Run(xs + [Step(xs[|es|], e)], es + [e])
  {
    var ys, fs := xs + [Step(xs[|es|], e)], es + [e];
    forall i, j | 0 <= i < |fs| && j == i + 1 ensures Steps(ys[i], fs[i], ys[j]) {
      if i < |es| { assert Steps(xs[i], es[i], xs[j]); }
    }
  }

  ghost predicate Reachable(x: Inbox) {
    exists xs, es :: Run(xs, es) && xs[|es|] == x
  }

  lemma InitialReachable(x: Inbox)
    requires Initial(x)
    ensures Reachable(x)
  {
    assert Run([x], []);
  }

  lemma ReachableInv(x: Inbox)
    requires Reachable(x)
    ensures Inv(x)
  {
    var xs, es :| Run(xs, es) && xs[|es|] == x;
    RunKeepsInv(xs, es, |es|);
  }

  lemma ReachableStep(x: Inbox, e: Event)
    requires Reachable(x) && Enabled(x, e)
    ensures Reachable(Step(x, e))
  {
    var xs, es :| Run(xs, es) && xs[|es|] == x;
    RunAppend(xs, es, e);
    assert (xs + [Step(x, e)])[|es + [e]|] == Step(x, e);
  }

  /** A post in a run is dropped exactly when five texts of its sender are pending. */
  lemma BoundedQueue(xs: seq<Inbox>, es: seq<Event>, n: nat)
    requires Run(xs, es) && n < |es| && es[n].Posted?
    ensures Sized(xs[n]) && es[n].sender < USERS
    ensures xs[n + 1] == xs[n] <==> |Queue(xs[n], es[n].sender)| == 5
  {
    RunKeepsInv(xs, es, n);
    var j := n + 1;
    assert Steps(xs[n], es[n], xs[j]);
    DroppedWhenFull(xs[n].rows[es[n].sender], Cursor(xs[n].drain, es[n].sender));
  }

  /** Bounded FIFO: while no post of s overtakes, printed texts followed by pending texts are the
      accepted texts in the order in which they were sent. */
  lemma {:induction false} FirstInFirstOut(xs: seq<Inbox>, es: seq<Event>, n: nat, s: nat)
    requires Run(xs, es) && n <= |es| && s < USERS
    requires forall i :: 0 <= i < n ==> !Overtaking(xs[i], es[i], s)
    ensures Sized(xs[n]) && InSendOrder(xs[n], s)
  {
    if n == 0 {
      InitialInv(xs[0]);
    } else {
      FirstInFirstOut(xs, es, n - 1, s);
      RunKeepsInv(xs, es, n - 1);
      assert Steps(xs[n - 1], es[n - 1], xs[n]);
      OrderKept(xs[n - 1], es[n - 1], s);
    }
  }

  /** No wake-up is lost: when the handler does not run and no signal is pending, every accepted text
      has been printed exactly once, overtaking or not. */
  lemma QuietIsDelivered(xs: seq<Inbox>, es: seq<Event>, n: nat, s: nat)
    requires Run(xs, es) && n <= |es| && s < USERS && xs[n].drain.Idle? && !xs[n].signalled
    ensures Sized(xs[n]) && multiset(xs[n].printed[s]) == multiset(xs[n].accepted[s])
  {
    RunKeepsInv(xs, es, n);
    PendingFree(xs[n].rows[s], 0, SLOTS);
    assert xs[n].printed[s] + Queue(xs[n], s) == xs[n].printed[s];
  }

  /** While the handler does not run, the occupied slots of every sender are a prefix of the five. */
  lemma IdlePrefix(xs: seq<Inbox>, es: seq<Event>, n: nat, s: nat, j: nat, k: nat)
    requires Run(xs, es) && n <= |es| && s < USERS && xs[n].drain.Idle? && j < k < SLOTS
    ensures Sized(xs[n]) && (xs[n].rows[s][k] != "" ==> xs[n].rows[s][j] != "")
  {
    RunKeepsInv(xs, es, n);
    var a: nat, b: nat :| ShapeAt(xs[n].rows[s], 0, a, b);
  }

  // ---------------------------------------------------------------- an overtaking run

  function EmptyInbox(): Inbox {
    Inbox(seq(USERS, _ => EMPTY), Idle, false, seq(USERS, _ => []), seq(USERS, _ => []))
  }

  /** The handler is about to look at slot 1 of user 1's row, having printed "a" from slot 0. */
  lemma DrainUnderWay() returns (xs: seq<Inbox>, es: seq<Event>)
    ensures Run(xs, es) && |es| == 8
    ensures Sized(xs[8]) && xs[8].drain == At(1, 1) && xs[8].rows[1] == EMPTY
    ensures xs[8].printed[1] == ["a"] == xs[8].accepted[1]
  {
    var x0 := EmptyInbox();
    var x1 := Step(x0, Posted(1, "a"));
    var x2 := Step(x1, Start);
    var x3 := Step(x2, Visit);
    var x4 := Step(x3, Visit);
    var x5 := Step(x4, Visit);
    var x6 := Step(x5, Visit);
    var x7 := Step(x6, Visit);
    var x8 := Step(x7, Visit);
    es := [Posted(1, "a"), Start, Visit, Visit, Visit, Visit, Visit, Visit];
    xs := [x0, x1, x2, x3, x4, x5, x6, x7, x8];
    assert x7.drain == At(1, 0) && x7.rows[1][0] == "a";
    assert x8.rows[1] == EMPTY;
  }

  /** User 1 sends "a", "b" and "c", and the terminal will show "c" before "b". */
  lemma OvertakingRun() returns (xs: seq<Inbox>, es: seq<Event>)
    ensures Run(xs, es) && |es| == 10 && Sized(xs[10])
    ensures xs[10].accepted[1] == ["a", "b", "c"]
    ensures xs[10].printed[1] + Queue(xs[10], 1) == ["a", "c", "b"]
  {
    xs, es := DrainUnderWay();
    var x9 := Step(xs[8], Posted(1, "b"));
    RunAppend(xs, es, Posted(1, "b"));
    xs, es := xs + [x9], es + [Posted(1, "b")];
    RunAppend(xs, es, Posted(1, "c"));
    xs, es := xs + [Step(x9, Posted(1, "c"))], es + [Posted(1, "c")];
  }
}
