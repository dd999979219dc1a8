/**
 No run of the pipeline is stuck: without cancellation every message that was read can still be
 handled, and after cancellation every goroutine can end.
 */
module Progress {
  import opened Pipeline

  lemma RunOne(s: State, a: Action)
    requires Enabled(s, a)
    ensures Run(s, [a], Step(s, a))
  {
    assert [a][1..] == [];
  }

  lemma RunNone(s: State)
    ensures Run(s, [], s)
  {}

  // ---------- Facts beside the invariant ----------

  /** Loops end only when cancelled, and no client relays to itself. */
  ghost predicate Orderly(s: State) {
    && (s.protocol.receiver == Stopped ==> s.protocol.cancelled)
    && (s.protocol.processor == Ended ==> s.protocol.cancelled)
    && forall c :: c in s.clients && s.clients[c].phase.Relaying? ==> Aside(s.clients[c].phase, c)
  }

  predicate Aside(phase: Phase, c: nat)
    requires phase.Relaying?
  {
    c !in phase.todo && c !in phase.visited && (phase.hand.Free? || phase.hand.d != c)
  }

  lemma AsideStep(s: State, a: Action, c: nat)
    requires Enabled(s, a) && c in Step(s, a).clients && Step(s, a).clients[c].phase.Relaying?
    requires c in s.clients && s.clients[c].phase.Relaying? ==> Aside(s.clients[c].phase, c)
    ensures Aside(Step(s, a).clients[c].phase, c)
  {
    if c in s.clients && !Takes(a, c) {
      OtherClient(s, a, c);
    } else {
      ClientsStep(s, a);
    }
  }

  lemma OrderlyStep(s: State, a: Action)
    requires Enabled(s, a) && Orderly(s)
    ensures Orderly(Step(s, a))
  {
    assert (Step(s, a).protocol.receiver == Stopped ==> Step(s, a).protocol.cancelled)
        && (Step(s, a).protocol.processor == Ended ==> Step(s, a).protocol.cancelled);
    hide Step, Enabled, Aside;
    forall c | c in Step(s, a).clients && Step(s, a).clients[c].phase.Relaying?
      ensures Aside(Step(s, a).clients[c].phase, c)
    {
      AsideStep(s, a, c);
    }
  }

  /** A state that a run has reached. */
  ghost predicate Good(s: State) { Invariant(s) && Orderly(s) }

  lemma GoodStep(s: State, a: Action)
    requires Enabled(s, a) && Good(s)
    ensures Good(Step(s, a))
  {
    hide Step, Enabled, Invariant, Orderly;
    InvariantStep(s, a);
    OrderlyStep(s, a);
  }

  lemma {:induction false} GoodRun(s: State, actions: seq<Action>, t: State)
    requires Good(s) && Run(s, actions, t)
    ensures Good(t)
    decreases |actions|
  {
    hide Good, Step, Enabled;
    if actions != [] {
      GoodStep(s, actions[0]);
      GoodRun(Step(s, actions[0]), actions[1..], t);
    }
  }

  lemma GoodReached(actions: seq<Action>, t: State)
    requires Run(INITIAL, actions, t)
    ensures Good(t)
  {
    InvariantInitial();
    hide Invariant, Run;
    assert Orderly(INITIAL);
    GoodRun(INITIAL, actions, t);
  }

  // ---------- The queues can be emptied ----------

  /** Nothing is on its way between the readers and the handler. */
  predicate Quiet(s: State) {
    && s.server.queue == [] && s.protocol.receiver == Polling
    && s.protocol.queue == [] && s.protocol.processor == Waiting
  }

  function Load(s: State): nat {
    4 * |s.server.queue| + (if s.protocol.receiver.Holding? then 3 else 0)
    + 2 * |s.protocol.queue| + (if s.protocol.processor.Handling? then 1 else 0)
  }

  /** Both loops of the protocol are running. */
  predicate Running(s: State) { s.protocol.receiver != Stopped && s.protocol.processor != Ended }

  /** Only what is on its way has moved. */
  predicate Flowed(s: State, t: State) {
    && t.clients == s.clients && t.server == s.server.(queue := t.server.queue)
    && t.protocol.cancelled == s.protocol.cancelled && Running(t)
  }

  function FlowAction(s: State): Action {
    if s.protocol.processor.Handling? then Handle
    else if s.protocol.queue != [] then Take
    else if s.protocol.receiver.Holding? then Forward
    else Receive
  }

  lemma FlowStep(s: State)
    requires Running(s) && !Quiet(s)
    ensures var a := FlowAction(s); Enabled(s, a) && Flowed(s, Step(s, a)) && Load(Step(s, a)) < Load(s)
  {}

  lemma {:induction false} Flow(s: State) returns (actions: seq<Action>, t: State)
    requires Running(s)
    ensures Run(s, actions, t) && Flowed(s, t) && Quiet(t)
    decreases Load(s)
  {
    if Quiet(s) {
      actions, t := [], s;
    } else {
      var a := FlowAction(s);
      FlowStep(s);
      hide Step, Enabled, FlowAction, Load, Quiet;
      var rest;
      rest, t := Flow(Step(s, a));
      actions := [a] + rest;
      assert actions[1..] == rest;
    }
  }

  // ---------- A relay can be brought to its end ----------

  function Weight(hand: Hand): nat {
    match hand
    case Free => 0
    case Loaded(_) => 3
    case WriteFailed(_) => 2
    case Deleted(_) => 1
  }

  /** The clients that the relay of c still has to be handed. */
  function ToGo(s: State, c: nat): set<nat>
    requires c in s.clients && s.clients[c].phase.Relaying?
  {
    s.clients[c].phase.todo * s.server.live - s.clients[c].phase.visited
  }

  /** Other goroutines have not moved, and c is still relaying the same message. */
  predicate Relayed(s: State, t: State, c: nat) {
    && t.protocol == s.protocol && t.server.queue == s.server.queue && t.server.cancelled == s.server.cancelled
    && c in s.clients && c in t.clients && t.clients[c].read == s.clients[c].read
    && t.clients[c].dropped == s.clients[c].dropped && t.clients.Keys == s.clients.Keys
  }

  lemma SmallerSet(a: set<nat>, b: set<nat>)
    requires a <= b
    ensures |a| <= |b| && (a != b ==> |a| < |b|)
  {
    assert b == a + (b - a);
  }

  function RelayAction(s: State, c: nat): Action
    requires c in s.clients && s.clients[c].phase.Relaying? && !s.clients[c].phase.hand.Free?
  {
    match s.clients[c].phase.hand
    case Loaded(d) => Relay(c, Write(d, d !in s.server.closed))
    case WriteFailed(d) => Relay(c, Delete(d))
    case Deleted(d) => Relay(c, Close(d))
  }

  lemma EntryIsKnown(s: State, c: nat)
    requires Good(s) && c in s.clients && s.clients[c].phase.Relaying?
    ensures Aside(s.clients[c].phase, c) && s.server.live <= s.clients.Keys
    ensures var hand := s.clients[c].phase.hand; !hand.Free? ==> hand.d in s.clients
  {
    hide Accounts, Loss, Senders, Bounded, Leaving, Held, Of, Slice, Owes, Offered, Due;
    assert Known(s, c);
    assert RelayPair(s, c, c);
  }

  /** A step with an entry, on its own goroutine and the rest of the state. */
  lemma EntryStep(s: State, a: Action)
    requires Enabled(s, a) && a.Relay? && s.server.live <= s.clients.Keys
    ensures Relayed(s, Step(s, a), a.c) && Step(s, a).server.live <= s.server.live
  {
    SetsStep(s, a);
    OwnEntry(s, a);
    ClientsStep(s, a);
  }

  lemma HandEnabled(s: State, c: nat)
    requires c in s.clients && s.clients[c].phase.Relaying? && !s.clients[c].phase.hand.Free?
    requires Aside(s.clients[c].phase, c) && s.clients[c].phase.hand.d in s.clients
    ensures Enabled(s, RelayAction(s, c))
    ensures Weight(RelayAction(s, c).entry.After()) < Weight(s.clients[c].phase.hand)
  {}

  /** A step with the entry in hand. */
  lemma HandStep(s: State, c: nat)
    requires Good(s) && c in s.clients && s.clients[c].phase.Relaying? && !s.clients[c].phase.hand.Free?
    ensures var a := RelayAction(s, c);
            && Enabled(s, a) && Relayed(s, Step(s, a), c) && Step(s, a).clients[c].phase.Relaying?
            && ToGo(Step(s, a), c) <= ToGo(s, c)
            && Weight(Step(s, a).clients[c].phase.hand) < Weight(s.clients[c].phase.hand)
  {
    EntryIsKnown(s, c);
    hide Good;
    HandEnabled(s, c);
    var a := RelayAction(s, c);
    EntryStep(s, a);
    OwnEntry(s, a);
    hide Step, Enabled, Weight;
  }

  /** The next entry is handed out. */
  lemma LoadStep(s: State, c: nat, d: nat)
    requires Good(s) && c in s.clients && s.clients[c].phase.Relaying? && s.clients[c].phase.hand.Free?
    requires d in ToGo(s, c)
    ensures var a := Relay(c, Entry.Load(d));
            && Enabled(s, a) && Relayed(s, Step(s, a), c) && Step(s, a).clients[c].phase.Relaying?
            && ToGo(Step(s, a), c) <= ToGo(s, c) - {d}
  {
    EntryIsKnown(s, c);
    hide Good;
    var a := Relay(c, Entry.Load(d));
    EntryStep(s, a);
    OwnEntry(s, a);
    hide Step, Enabled;
  }

  lemma DoneStep(s: State, c: nat)
    requires c in s.clients && s.clients[c].phase.Relaying? && s.clients[c].phase.hand.Free? && ToGo(s, c) == {}
    ensures var a := RelayDone(c);
            && Enabled(s, a) && Relayed(s, Step(s, a), c) && Step(s, a).clients[c].phase.Sending?
  {
    assert forall d :: d in s.clients[c].phase.todo * s.server.live ==> d !in ToGo(s, c);
  }

  lemma RelayedOn(s: State, t: State, u: State, c: nat)
    requires Relayed(s, t, c) && Relayed(t, u, c)
    ensures Relayed(s, u, c)
  {}

  lemma {:induction false} FinishRelay(s: State, c: nat) returns (actions: seq<Action>, t: State)
    requires Good(s) && c in s.clients && s.clients[c].phase.Relaying?
    ensures Run(s, actions, t) && Relayed(s, t, c) && t.clients[c].phase.Sending?
    decreases |ToGo(s, c)|, Weight(s.clients[c].phase.hand)
  {
    var a;
    if !s.clients[c].phase.hand.Free? {
      a := RelayAction(s, c);
      HandStep(s, c);
      SmallerSet(ToGo(Step(s, a), c), ToGo(s, c));
    } else if ToGo(s, c) == {} {
      a := RelayDone(c);
      DoneStep(s, c);
      RunOne(s, a);
      return [a], Step(s, a);
    } else {
      var d :| d in ToGo(s, c);
      a := Relay(c, Entry.Load(d));
      LoadStep(s, c, d);
      SmallerSet(ToGo(Step(s, a), c), ToGo(s, c));
    }
    GoodStep(s, a);
    hide Step, Enabled, Good, ToGo, Weight;
    var rest;
    rest, t := FinishRelay(Step(s, a), c);
    RunOne(s, a);
    RunSum(s, [a], Step(s, a), rest, t);
    RelayedOn(s, Step(s, a), t, c);
    actions := [a] + rest;
  }

  // ---------- Every message can be handled, every goroutine can end ----------

  /** A run with the client's reader idle again, or ended, and everything it read handed on. */
  lemma HandOn(s: State, c: nat) returns (actions: seq<Action>, t: State)
    requires Good(s) && Running(s) && c in s.clients && Quiet(s)
    ensures Run(s, actions, t) && Running(t) && c in t.clients && t.clients[c].read == s.clients[c].read
    ensures t.clients[c].phase == if s.clients[c].phase == Gone then Gone else Idle
    ensures t.server.cancelled == s.server.cancelled && t.protocol.cancelled == s.protocol.cancelled
  {
    var mid, rest := s, [];
    RunNone(s);
    if s.clients[c].phase.Relaying? {
      rest, mid := FinishRelay(s, c);
    }
    if mid.clients[c].phase.Sending? {
      var a := Enqueue(c);
      assert Enabled(mid, a);
      RunOne(mid, a);
      RunSum(s, rest, mid, [a], Step(mid, a));
      actions, t := rest + [a], Step(mid, a);
    } else {
      actions, t := rest, mid;
    }
  }

  /**
   In every run without cancellation, whatever has been read from a client can be handled: the
   run goes on to where exactly that has been handled of it, in order.
   */
  lemma CanHandle(actions: seq<Action>, s: State, c: nat) returns (more: seq<Action>, t: State)
    requires Pipeline.Run(INITIAL, actions, s) && c in s.clients && !s.server.cancelled && !s.protocol.cancelled
    ensures Run(s, more, t) && c in t.clients && !t.server.cancelled && !t.protocol.cancelled
    ensures t.clients[c].read == s.clients[c].read == Of(t.protocol.handled, c)
    ensures t.clients[c].phase == if s.clients[c].phase == Gone then Gone else Idle
  {
    hide Run, Of, Invariant;
    GoodReached(actions, s);
    var a1, s1 := Flow(s);
    GoodRun(s, a1, s1);
    var a2, s2 := HandOn(s1, c);
    var a3;
    a3, t := Flow(s2);
    RunSum(s, a1, s1, a2, s2);
    RunSum(s, a1 + a2, s2, a3, t);
    more := a1 + a2 + a3;
    GoodRun(s, more, t);
    AllHandled(t, c);
  }

  lemma AllHandled(t: State, c: nat)
    requires Good(t) && Quiet(t) && c in t.clients && !t.server.cancelled && !t.protocol.cancelled
    requires !t.clients[c].phase.Relaying? && !t.clients[c].phase.Sending?
    ensures t.clients[c].read == Of(t.protocol.handled, c)
  {
    hide Of, Invariant;
    BooksBalance(t, c);
    NoDrops(t, c);
    assert Path(t) == t.protocol.handled && Kept(t.clients[c]) == [];
  }

  /** The next message of a client whose reader has not ended, or of a new one, whatever it is, can be handled. */
  lemma CanServe(actions: seq<Action>, s: State, c: nat, body: Body) returns (more: seq<Action>, t: State)
    requires Pipeline.Run(INITIAL, actions, s) && !s.server.cancelled && !s.protocol.cancelled
    requires c in s.clients ==> s.clients[c].phase != Gone
    ensures Run(s, more, t) && c in t.clients
    ensures t.clients[c].read == (if c in s.clients then s.clients[c].read else []) + [body]
    ensures Of(t.protocol.handled, c) == t.clients[c].read
  {
    var a1, s1;
    if c in s.clients {
      a1, s1 := CanHandle(actions, s, c);
    } else {
      a1, s1 := [Accept(c)], Step(s, Accept(c));
      RunOne(s, Accept(c));
    }
    var a := Read(c, body);
    assert Enabled(s1, a);
    var s2 := Step(s1, a);
    RunOne(s1, a);
    hide Run, Of;
    RunSum(s, a1, s1, [a], s2);
    RunSum(INITIAL, actions, s, a1 + [a], s2);
    var a3;
    a3, t := CanHandle(actions + (a1 + [a]), s2, c);
    RunSum(s, a1 + [a], s2, a3, t);
    more := a1 + [a] + a3;
  }

  /** Once the server is cancelled, the reader of a client can end. */
  lemma StopReader(s: State, c: nat) returns (more: seq<Action>, t: State)
    requires Good(s) && c in s.clients && s.server.cancelled
    ensures Run(s, more, t) && t.clients.Keys == s.clients.Keys && t.clients[c].phase == Gone
    ensures t.server.cancelled && t.protocol == s.protocol
  {
    hide Run;
    RunNone(s);
    var mid, rest := s, [];
    if s.clients[c].phase.Relaying? {
      rest, mid := FinishRelay(s, c);
    }
    hide Good;
    if mid.clients[c].phase == Gone {
      more, t := rest, mid;
    } else {
      var a := if mid.clients[c].phase.Sending? then DropOnCancel(c) else ReaderStops(c);
      assert Enabled(mid, a);
      ClientsStep(mid, a);
      RunOne(mid, a);
      RunSum(s, rest, mid, [a], Step(mid, a));
      more, t := rest + [a], Step(mid, a);
    }
  }

  /** The clients whose reader has not ended. */
  ghost function Going(s: State): set<nat> { set c | c in s.clients && s.clients[c].phase != Gone }

  lemma {:induction false} StopReaders(s: State) returns (more: seq<Action>, t: State)
    requires Good(s) && s.server.cancelled
    ensures Run(s, more, t) && t.protocol == s.protocol && Going(t) == {}
    decreases |Going(s)|
  {
    hide Good, Run;
    if Going(s) == {} {
      RunNone(s);
      more, t := [], s;
    } else {
      var c :| c in Going(s);
      var first, mid := StopReader(s, c);
      forall d | d in s.clients && s.clients[d].phase == Gone ensures mid.clients[d].phase == Gone {
        ReadsNoMore(s, first, mid, d);
      }
      SmallerSet(Going(mid), Going(s));
      GoodRun(s, first, mid);
      var rest;
      rest, t := StopReaders(mid);
      RunSum(s, first, mid, rest, t);
      more := first + rest;
    }
  }

  /** Once the protocol is cancelled, both of its loops can end. */
  lemma StopLoops(s: State) returns (more: seq<Action>, t: State)
    requires s.protocol.cancelled
    ensures Run(s, more, t) && t.clients == s.clients
    ensures t.protocol.receiver == Stopped && t.protocol.processor == Ended
  {
    hide Run;
    RunNone(s);
    more, t := [], s;
    if !t.protocol.receiver.Stopped? {
      RunOne(t, ReceiverStops);
      RunSum(s, more, t, [ReceiverStops], Step(t, ReceiverStops));
      more, t := more + [ReceiverStops], Step(t, ReceiverStops);
    }
    if t.protocol.processor.Handling? {
      RunOne(t, Handle);
      RunSum(s, more, t, [Handle], Step(t, Handle));
      more, t := more + [Handle], Step(t, Handle);
    }
    if t.protocol.processor == Waiting {
      RunOne(t, ProcessorStops);
      RunSum(s, more, t, [ProcessorStops], Step(t, ProcessorStops));
      more, t := more + [ProcessorStops], Step(t, ProcessorStops);
    }
  }

  /** At any time both sides can be cancelled, and then every reader and both loops can end. */
  lemma CanShutDown(actions: seq<Action>, s: State) returns (more: seq<Action>, t: State)
    requires Pipeline.Run(INITIAL, actions, s)
    ensures Run(s, [CancelServer, CancelProtocol] + more, t)
    ensures forall c :: c in t.clients ==> t.clients[c].phase == Gone
    ensures t.protocol.receiver == Stopped && t.protocol.processor == Ended
  {
    var s1 := Step(s, CancelServer);
    var s2 := Step(s1, CancelProtocol);
    RunOne(s, CancelServer);
    RunOne(s1, CancelProtocol);
    RunSum(s, [CancelServer], s1, [CancelProtocol], s2);
    assert [CancelServer] + [CancelProtocol] == [CancelServer, CancelProtocol];
    assert s2.server.cancelled && s2.protocol.cancelled;
    hide Run, Step, Enabled, Good;
    GoodReached(actions, s);
    GoodRun(s, [CancelServer, CancelProtocol], s2);
    var a, s3 := StopReaders(s2);
    var b;
    b, t := StopLoops(s3);
    RunSum(s2, a, s3, b, t);
    RunSum(s, [CancelServer, CancelProtocol], s2, a + b, t);
    more := a + b;
    assert forall c :: c in t.clients && t.clients[c].phase != Gone ==> c in Going(s3);
  }

  // ---------- The queues can be filled ----------

  /** Client 0 alone, its reader idle, m messages in the server's channel and n in the protocol's. */
  predicate Filling(s: State, m: nat, n: nat) {
    && 0 in s.clients && s.clients[0].phase == Idle && s.server.live == {0} && |s.server.queue| == m
    && s.protocol.receiver == Polling && |s.protocol.queue| == n
  }

  lemma FillServerOne(s: State, m: nat, n: nat) returns (t: State)
    requires Filling(s, m, n) && m < 100
    ensures Run(s, [Read(0, 0), RelayDone(0), Enqueue(0)], t) && Filling(t, m + 1, n)
  {
    var s1 := Step(s, Read(0, 0));
    RunOne(s, Read(0, 0));
    assert s1.clients[0].phase.todo == {};
    var s2 := Step(s1, RelayDone(0));
    RunOne(s1, RelayDone(0));
    t := Step(s2, Enqueue(0));
    RunOne(s2, Enqueue(0));
    hide Run;
    RunSum(s1, [RelayDone(0)], s2, [Enqueue(0)], t);
    RunSum(s, [Read(0, 0)], s1, [RelayDone(0)] + [Enqueue(0)], t);
    assert [Read(0, 0)] + ([RelayDone(0)] + [Enqueue(0)]) == [Read(0, 0), RelayDone(0), Enqueue(0)];
  }

  lemma ForwardOne(s: State, m: nat, n: nat) returns (t: State)
    requires Filling(s, m + 1, n) && n < 100
    ensures Run(s, [Receive, Forward], t) && Filling(t, m, n + 1)
  {
    var s1 := Step(s, Receive);
    RunOne(s, Receive);
    t := Step(s1, Forward);
    RunOne(s1, Forward);
    hide Run;
    RunSum(s, [Receive], s1, [Forward], t);
    assert [Receive] + [Forward] == [Receive, Forward];
  }

  lemma {:induction false} Fill(m: nat, n: nat) returns (actions: seq<Action>, s: State)
    requires m <= 100 && n <= 100
    ensures Run(INITIAL, actions, s) && Filling(s, m, n)
    decreases m + 2 * n
  {
    hide Run, Filling;
    var before, mid;
    if m > 0 {
      before, mid := Fill(m - 1, n);
      s := FillServerOne(mid, m - 1, n);
      actions := before + [Read(0, 0), RelayDone(0), Enqueue(0)];
      RunSum(INITIAL, before, mid, [Read(0, 0), RelayDone(0), Enqueue(0)], s);
    } else if n > 0 {
      before, mid := Fill(1, n - 1);
      s := ForwardOne(mid, 0, n - 1);
      actions := before + [Receive, Forward];
      RunSum(INITIAL, before, mid, [Receive, Forward], s);
    } else {
      actions, s := [Accept(0)], Step(INITIAL, Accept(0));
      RunOne(INITIAL, Accept(0));
      assert Filling(s, 0, 0) by { FilledNone(); }
    }
  }

  lemma FilledNone()
    ensures Filling(Step(INITIAL, Accept(0)), 0, 0)
  {}

  /** Each channel takes a hundred messages before a goroutine blocks on it. */
  lemma ChannelsFill(m: nat, n: nat) returns (actions: seq<Action>, s: State)
    requires m <= 100 && n <= 100
    ensures Run(INITIAL, actions, s) && |s.server.queue| == m && |s.protocol.queue| == n
  {
    hide Run;
    actions, s := Fill(m, n);
  }
}
