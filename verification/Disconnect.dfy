/**
 The disconnect notification of the TCP transports in lib/go/transport_tcp.go: any number of
 Close calls, failing reads of a client, and the exit of a server's accept loop race for one
 atomic flag, and the winner calls OnDisconnect.
 */
module Disconnect {
  datatype Role = CloseCall | FailedRead | AcceptLoop

  /** Blocked in Accept, about to compare-and-swap, won and about to notify, past it, done. */
  datatype Pc = Accepting | AtFlag | Notifying | Finishing | Returned

  datatype Thread = Thread(role: Role, pc: Pc)

  datatype State = State(
    server: bool,
    handler: bool,
    disconnected: bool,
    issued: nat,             // calls of OnDisconnect so far
    winner: nat,             // the thread whose swap succeeded, once one has
    threads: map<nat, Thread>)

  datatype Action =
    | Close(t: nat)
    | ReadFails(t: nat)
    | AcceptExits(t: nat)
    | Swap(t: nat)
    | Notify(t: nat)
    | Return(t: nat)

  /** A client without threads, or a server whose accept loop is thread 0. */
  function Initial(server: bool, handler: bool): State {
    State(server, handler, false, 0, 0, if server then map[0 := Thread(AcceptLoop, Accepting)] else map[])
  }

  predicate Enabled(s: State, a: Action) {
    match a
    case Close(t) => t !in s.threads
    case ReadFails(t) => t !in s.threads && !s.server
    case AcceptExits(t) => t in s.threads && s.threads[t].pc == Accepting
    case Swap(t) => t in s.threads && s.threads[t].pc == AtFlag
    case Notify(t) => t in s.threads && s.threads[t].pc == Notifying
    case Return(t) =>
      && t in s.threads && s.threads[t].pc == Finishing
      // Close of a server waits for the accept loop
      && (s.server && s.threads[t].role == CloseCall ==>
            forall u :: u in s.threads && s.threads[u].role == AcceptLoop ==> s.threads[u].pc == Returned)
  }

  function Goto(s: State, t: nat, pc: Pc): State
    requires t in s.threads
  {
    s.(threads := s.threads[t := s.threads[t].(pc := pc)])
  }

  function Step(s: State, a: Action): State
    requires Enabled(s, a)
  {
    match a
    case Close(t) => s.(threads := s.threads[t := Thread(CloseCall, AtFlag)])
    case ReadFails(t) => s.(threads := s.threads[t := Thread(FailedRead, AtFlag)])
    case AcceptExits(t) => Goto(s, t, AtFlag)
    case Swap(t) =>
      if s.handler && !s.disconnected then Goto(s, t, Notifying).(disconnected := true, winner := t)
      else Goto(s, t, Finishing)
    case Notify(t) => Goto(s, t, Finishing).(issued := s.issued + 1)
    case Return(t) => Goto(s, t, Returned)
  }

  ghost predicate Run(s: State, actions: seq<Action>, t: State)
    decreases |actions|
  {
    if actions == [] then s == t
    else Enabled(s, actions[0]) && Run(Step(s, actions[0]), actions[1..], t)
  }

  /** Threads that have won the flag and have not called OnDisconnect yet. */
  ghost function Pending(s: State): set<nat> {
    set t | t in s.threads && s.threads[t].pc == Notifying
  }

  predicate Past(p: Pc) { p == Finishing || p == Returned }

  ghost predicate Invariant(s: State) {
    && (forall t :: t in s.threads && s.threads[t].pc == Notifying ==> s.disconnected && t == s.winner)
    && (forall t :: t in s.threads && Past(s.threads[t].pc) ==> s.disconnected || !s.handler)
    && (s.disconnected ==>
          && s.handler && s.winner in s.threads
          && (s.threads[s.winner].pc == Notifying || Past(s.threads[s.winner].pc))
          && s.issued == if s.threads[s.winner].pc == Notifying then 0 else 1)
    && (!s.disconnected ==> s.issued == 0)
    // a server's Close returns only behind its accept loop
    && (s.server && (exists t :: t in s.threads && s.threads[t].role == CloseCall && s.threads[t].pc == Returned) ==>
          forall u :: u in s.threads && s.threads[u].role == AcceptLoop ==> s.threads[u].pc == Returned)
    && (s.server ==> forall u :: u in s.threads ==> s.threads[u].role != FailedRead)
  }

  lemma InvariantStep(s: State, a: Action)
    requires Enabled(s, a) && Invariant(s)
    ensures Invariant(Step(s, a))
  {}

  lemma {:induction false} InvariantRun(s: State, actions: seq<Action>, t: State)
    requires Invariant(s) && Run(s, actions, t)
    ensures Invariant(t) && t.server == s.server && t.handler == s.handler
    decreases |actions|
  {
    if actions != [] {
      InvariantStep(s, actions[0]);
      hide Invariant;
      InvariantRun(Step(s, actions[0]), actions[1..], t);
    }
  }

  lemma Counts(s: State)
    requires Invariant(s)
    ensures s.issued + |Pending(s)| == if s.disconnected then 1 else 0
  {
    if s.disconnected && s.threads[s.winner].pc == Notifying {
      assert Pending(s) == {s.winner};
    } else {
      assert Pending(s) == {};
    }
  }

  /** In every interleaving OnDisconnect is called at most once, and never without a handler. */
  lemma AtMostOnce(server: bool, handler: bool, actions: seq<Action>, s: State)
    requires Run(Initial(server, handler), actions, s)
    ensures s.issued + |Pending(s)| <= 1 && (!handler ==> s.issued == 0)
  {
    InvariantRun(Initial(server, handler), actions, s);
    Counts(s);
  }

  /** Once any Close has returned, exactly one notification has been issued or is about to be. */
  lemma ExactlyOnceAfterClose(server: bool, actions: seq<Action>, s: State, t: nat)
    requires Run(Initial(server, true), actions, s)
    requires t in s.threads && s.threads[t] == Thread(CloseCall, Returned)
    ensures s.issued + |Pending(s)| == 1
  {
    InvariantRun(Initial(server, true), actions, s);
    Counts(s);
  }

  /** When the only Close of a server has returned, the notification has been issued. */
  lemma IssuedAfterServerClose(actions: seq<Action>, s: State, t: nat)
    requires Run(Initial(true, true), actions, s)
    requires t in s.threads && s.threads[t] == Thread(CloseCall, Returned)
    requires forall u :: u in s.threads && s.threads[u].role == CloseCall ==> u == t
    ensures s.issued == 1
  {
    InvariantRun(Initial(true, true), actions, s);
    Counts(s);
    forall u | u in s.threads ensures s.threads[u].pc != Notifying {
      if s.threads[u].role != CloseCall {
        assert s.threads[u].role == AcceptLoop;
      }
    }
    assert Pending(s) == {};
  }

  // ---------- What each action leaves behind ----------

  /** What every state from an action on shows of it. */
  predicate Shows(s: State, a: Action) {
    && a.t in s.threads
    && match a
       case Close(t) => s.threads[t].role == CloseCall && s.threads[t].pc != Accepting
       case ReadFails(t) => s.threads[t].role == FailedRead && s.threads[t].pc != Accepting
       case AcceptExits(t) => s.threads[t].pc != Accepting
       case Swap(t) => s.threads[t].pc == Notifying || Past(s.threads[t].pc)
       case Notify(t) => Past(s.threads[t].pc) && s.issued > 0
       case Return(t) => s.threads[t].pc == Returned
  }

  lemma ShowsStep(s: State, a: Action, b: Action)
    requires Enabled(s, b) && (a == b || Shows(s, a))
    ensures Shows(Step(s, b), a)
  {}

  lemma {:induction false} ShowsRun(s: State, actions: seq<Action>, u: State, a: Action)
    requires Run(s, actions, u) && (a in actions || Shows(s, a))
    ensures Shows(u, a)
    decreases |actions|
  {
    hide Shows, Step, Enabled;
    if actions != [] {
      if a == actions[0] || Shows(s, a) {
        ShowsStep(s, a, actions[0]);
      } else {
        assert a in actions[1..];
      }
      ShowsRun(Step(s, actions[0]), actions[1..], u, a);
    }
  }

  /** Once a thread has returned, one notification has been issued or is about to be; once all have, one was issued. */
  lemma NotifiedOnce(server: bool, actions: seq<Action>, s: State, t: nat)
    requires Run(Initial(server, true), actions, s) && t in s.threads
    ensures s.threads[t].pc == Returned ==> s.issued + |Pending(s)| == 1
    ensures (forall u :: u in s.threads ==> s.threads[u].pc == Returned) ==> s.issued == 1
  {
    InvariantRun(Initial(server, true), actions, s);
    Counts(s);
    if forall u :: u in s.threads ==> s.threads[u].pc == Returned {
      assert Pending(s) == {};
    }
  }

  /** A read of a client that fails is one of its threads ever after, and has its disconnection notified, once. */
  lemma FailedReadNotifies(actions: seq<Action>, s: State, t: nat)
    requires Run(Initial(false, true), actions, s) && ReadFails(t) in actions
    ensures t in s.threads && s.threads[t].role == FailedRead
    ensures s.threads[t].pc == Returned ==> s.issued + |Pending(s)| == 1
    ensures (forall u :: u in s.threads ==> s.threads[u].pc == Returned) ==> s.issued == 1
  {
    ShowsRun(Initial(false, true), actions, s, ReadFails(t));
    NotifiedOnce(false, actions, s, t);
  }

  /** And so has the exit of a server's accept loop. */
  lemma AcceptExitNotifies(actions: seq<Action>, s: State, t: nat)
    requires Run(Initial(true, true), actions, s) && AcceptExits(t) in actions
    ensures t in s.threads && s.threads[t].pc != Accepting
    ensures s.threads[t].pc == Returned ==> s.issued + |Pending(s)| == 1
    ensures (forall u :: u in s.threads ==> s.threads[u].pc == Returned) ==> s.issued == 1
  {
    ShowsRun(Initial(true, true), actions, s, AcceptExits(t));
    NotifiedOnce(true, actions, s, t);
  }

  /** And so has a Close of either. */
  lemma CloseNotifies(server: bool, actions: seq<Action>, s: State, t: nat)
    requires Run(Initial(server, true), actions, s) && Close(t) in actions
    ensures t in s.threads && s.threads[t].role == CloseCall
    ensures s.threads[t].pc == Returned ==> s.issued + |Pending(s)| == 1
    ensures (forall u :: u in s.threads ==> s.threads[u].pc == Returned) ==> s.issued == 1
  {
    ShowsRun(Initial(server, true), actions, s, Close(t));
    NotifiedOnce(server, actions, s, t);
  }

  // ---------- Every run can be brought to its end ----------

  lemma {:induction false} RunSum(s: State, a: seq<Action>, t: State, b: seq<Action>, u: State)
    requires Run(s, a, t) && Run(t, b, u)
    ensures Run(s, a + b, u)
    decreases |a|
  {
    hide Step, Enabled;
    if a == [] {
      assert a + b == b;
    } else {
      assert (a + b)[0] == a[0] && (a + b)[1..] == a[1..] + b;
      RunSum(Step(s, a[0]), a[1..], t, b, u);
    }
  }

  /** Nothing keeps this thread from returning. */
  predicate Unblocked(s: State, t: nat) {
    && t in s.threads
    && (s.server && s.threads[t].role == CloseCall ==>
          forall u :: u in s.threads && s.threads[u].role == AcceptLoop ==> s.threads[u].pc == Returned)
  }

  /** The other threads are where they were. */
  predicate OnlyMoved(s: State, u: State, t: nat) {
    && u.threads.Keys == s.threads.Keys && u.server == s.server
    && (forall x :: x in s.threads ==> u.threads[x].role == s.threads[x].role)
    && (forall x :: x in s.threads && x != t ==> u.threads[x] == s.threads[x])
  }

  function Left(p: Pc): nat {
    match p
    case Accepting => 4
    case AtFlag => 3
    case Notifying => 2
    case Finishing => 1
    case Returned => 0
  }

  function NextAction(p: Pc, t: nat): Action {
    match p
    case Accepting => AcceptExits(t)
    case AtFlag => Swap(t)
    case Notifying => Notify(t)
    case _ => Return(t)
  }

  lemma DriveStep(s: State, t: nat)
    requires Unblocked(s, t) && s.threads[t].pc != Returned
    ensures var a := NextAction(s.threads[t].pc, t);
            && Enabled(s, a) && OnlyMoved(s, Step(s, a), t) && Unblocked(Step(s, a), t)
            && Left(Step(s, a).threads[t].pc) < Left(s.threads[t].pc)
  {}

  lemma MovedOn(s: State, u: State, v: State, t: nat)
    requires OnlyMoved(s, u, t) && OnlyMoved(u, v, t)
    ensures OnlyMoved(s, v, t)
  {}

  lemma {:induction false} Drive(s: State, t: nat) returns (actions: seq<Action>, u: State)
    requires Unblocked(s, t)
    ensures Run(s, actions, u) && OnlyMoved(s, u, t) && t in u.threads && u.threads[t].pc == Returned
    decreases Left(s.threads[t].pc)
  {
    if s.threads[t].pc == Returned {
      actions, u := [], s;
    } else {
      var a := NextAction(s.threads[t].pc, t);
      DriveStep(s, t);
      hide Step, Enabled, OnlyMoved, Unblocked, Left, NextAction;
      var rest;
      rest, u := Drive(Step(s, a), t);
      MovedOn(s, Step(s, a), u, t);
      actions := [a] + rest;
      assert actions[1..] == rest;
    }
  }

  ghost function Unfinished(s: State): set<nat> {
    set t | t in s.threads && s.threads[t].pc != Returned
  }

  lemma {:induction false} Complete(s: State) returns (actions: seq<Action>, u: State)
    ensures Run(s, actions, u) && u.threads.Keys == s.threads.Keys && Unfinished(u) == {}
    decreases |Unfinished(s)|
  {
    hide Run;
    if Unfinished(s) == {} {
      actions, u := [], s;
      NoActions(s);
    } else {
      var t :| t in Unfinished(s) &&
               ((exists x :: x in Unfinished(s) && s.threads[x].role == AcceptLoop) ==>
                  s.threads[t].role == AcceptLoop);
      var first, mid := Drive(s, t);
      assert Unfinished(mid) == Unfinished(s) - {t};
      var rest;
      rest, u := Complete(mid);
      RunSum(s, first, mid, rest, u);
      actions := first + rest;
    }
  }

  lemma NoActions(s: State)
    ensures Run(s, [], s)
  {}

  /** Every run with a thread in it can go on to where all have returned and one notification was issued. */
  lemma CanFinish(server: bool, actions: seq<Action>, s: State) returns (more: seq<Action>, u: State)
    requires Run(Initial(server, true), actions, s) && s.threads != map[]
    ensures Run(s, more, u) && u.issued == 1
    ensures u.threads.Keys == s.threads.Keys && forall t :: t in u.threads ==> u.threads[t].pc == Returned
  {
    hide Run;
    more, u := Complete(s);
    RunSum(Initial(server, true), actions, s, more, u);
    forall t | t in u.threads ensures u.threads[t].pc == Returned {
      assert t !in Unfinished(u);
    }
    var t :| t in s.threads;
    NotifiedOnce(server, actions + more, u, t);
  }

  /** What can happen next, whatever the other threads do. */
  predicate MayHappen(s: State, a: Action) {
    match a
    case Close(t) => t !in s.threads
    case ReadFails(t) => t !in s.threads && !s.server
    case AcceptExits(t) => t in s.threads && s.threads[t] == Thread(AcceptLoop, Accepting)
    case _ => false
  }

  /**
   At any time Close can be called, a client's read can fail, and a server's accept loop that is
   still blocked can exit; and the run can go on to where the one notification was issued.
   */
  lemma CanHappen(server: bool, actions: seq<Action>, s: State, a: Action) returns (more: seq<Action>, u: State)
    requires Run(Initial(server, true), actions, s) && MayHappen(s, a)
    ensures more != [] && more[0] == a && Run(s, more, u) && u.issued == 1
    ensures forall t :: t in u.threads ==> u.threads[t].pc == Returned
  {
    assert Enabled(s, a) && a.t in Step(s, a).threads;
    assert Run(s, [a], Step(s, a)) by { assert [a][1..] == []; }
    hide Run, Step, Enabled;
    RunSum(Initial(server, true), actions, s, [a], Step(s, a));
    var rest;
    rest, u := CanFinish(server, actions + [a], Step(s, a));
    RunSum(s, [a], Step(s, a), rest, u);
    more := [a] + rest;
  }

  /** A server starts with its accept loop blocked, a client with nothing under way. */
  lemma Starts(handler: bool)
    ensures MayHappen(Initial(true, handler), AcceptExits(0)) && Initial(false, handler).threads == map[]
    ensures Initial(true, handler).issued == Initial(false, handler).issued == 0
  {}
}
