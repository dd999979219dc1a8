/**
 The path of a message through a TCP server and a protocol on top of it, as interleaved steps of
 goroutines: one reader per client that relays to the other clients and fills the server's
 channel (lib/go/transport_tcp.go), a receive loop that moves messages to the protocol's channel,
 and a process loop that handles them (lib/go/qdp.go).
 */
module Pipeline {
  const CHANNEL: nat := 100

  type Body = nat

  /** A message in transit, with the client it was read from. */
  datatype Item = Item(from: nat, body: Body)

  /** Where a goroutine is with the entry of the clients map that Range has handed to it, if any. */
  datatype Hand = Free | Loaded(d: nat) | WriteFailed(d: nat) | Deleted(d: nat)

  /** What a Range callback does with its entry: write to the client, and on failure delete and close it. */
  datatype Entry = Load(d: nat) | Write(d: nat, ok: bool) | Delete(d: nat) | Close(d: nat) {
    function Before(): Hand {
      match this
      case Load(_) => Free
      case Write(_, _) => Loaded(d)
      case Delete(_) => WriteFailed(d)
      case Close(_) => Deleted(d)
    }

    function After(): Hand {
      match this
      case Load(_) => Loaded(d)
      case Write(_, _) => if ok then Free else WriteFailed(d)
      case Delete(_) => Deleted(d)
      case Close(_) => Free
    }
  }

  /**
   Where the goroutine of handleClientReads is. While it relays: which other clients the map held
   when its Range began, which had been accepted at all, and which it has been handed so far.
   */
  datatype Phase =
    | Idle
    | Relaying(body: Body, todo: set<nat>, known: set<nat>, visited: set<nat>, hand: Hand)
    | Sending(body: Body)
    | Gone

  /** A client ever accepted: its reader, what was read from it, what was dropped, what was relayed to it. */
  datatype Client = Client(phase: Phase, read: seq<Body>, dropped: seq<Body>, relayed: seq<Item>)

  datatype Receiver = Polling | Holding(item: Item) | Stopped

  datatype Processor = Waiting | Handling(item: Item) | Ended

  /** The server of transport_tcp.go. */
  datatype Server = Server(
    live: set<nat>,       // the clients map
    closed: set<nat>,
    failed: set<nat>,     // clients that a write failed for
    writers: map<nat, Hand>,  // the goroutines in the server's own WriteMessage
    queue: seq<Item>,
    cancelled: bool)

  /** The protocol of qdp.go, with its receive loop and its process loop. */
  datatype Protocol = Protocol(
    receiver: Receiver,
    dropped: seq<Item>,   // by the receive loop, when it is cancelled
    queue: seq<Item>,
    processor: Processor,
    handled: seq<Item>,
    cancelled: bool)

  datatype State = State(clients: map<nat, Client>, server: Server, protocol: Protocol)

  const INITIAL: State :=
    State(map[], Server({}, {}, {}, map[], [], false), Protocol(Polling, [], [], Waiting, [], false))

  datatype Action =
    | Accept(c: nat)
    | Read(c: nat, body: Body)
    | ReadFails(c: nat)
    | ReaderStops(c: nat)
    | Relay(c: nat, entry: Entry)
    | RelayDone(c: nat)
    | Enqueue(c: nat)
    | DropOnCancel(c: nat)
    | ServerWrite(w: nat, entry: Entry)
    | CancelServer
    | CloseClient(d: nat)
    | Receive
    | Forward
    | ReceiverStops
    | Take
    | Handle
    | ProcessorStops
    | CancelProtocol

  predicate Relays(s: State, c: nat, hand: Hand) {
    c in s.clients && s.clients[c].phase.Relaying? && s.clients[c].phase.hand == hand
  }

  function Writes(s: State, w: nat): Hand { if w in s.server.writers then s.server.writers[w] else Free }

  /** A write can succeed until the client is closed. */
  predicate Possible(s: State, entry: Entry) {
    entry.d in s.clients && (entry.Write? && entry.ok ==> entry.d !in s.server.closed)
  }

  /** Range hands out a client at most once, if it was in the map at some time since the Range began. */
  predicate Handed(s: State, phase: Phase, d: nat)
    requires phase.Relaying?
  {
    d !in phase.visited && (d in s.server.live || d in phase.todo || d !in phase.known)
  }

  predicate Enabled(s: State, a: Action) {
    match a
    case Accept(c) => c !in s.clients
    case Read(c, _) => c in s.clients && s.clients[c].phase == Idle
    case ReadFails(c) => c in s.clients && s.clients[c].phase == Idle
    case ReaderStops(c) => c in s.clients && s.clients[c].phase == Idle && s.server.cancelled
    case Relay(c, entry) =>
      && Relays(s, c, entry.Before()) && Possible(s, entry) && entry.d != c
      && (entry.Load? ==> Handed(s, s.clients[c].phase, entry.d))
    case RelayDone(c) => Relays(s, c, Free) && s.clients[c].phase.todo * s.server.live <= s.clients[c].phase.visited
    case Enqueue(c) => c in s.clients && s.clients[c].phase.Sending? && |s.server.queue| < CHANNEL
    case DropOnCancel(c) => c in s.clients && s.clients[c].phase.Sending? && s.server.cancelled
    case ServerWrite(w, entry) => Writes(s, w) == entry.Before() && Possible(s, entry)
    case CancelServer => true
    case CloseClient(d) => s.server.cancelled && d in s.clients
    case Receive => s.protocol.receiver == Polling && s.server.queue != []
    case Forward => s.protocol.receiver.Holding? && |s.protocol.queue| < CHANNEL
    case ReceiverStops => s.protocol.cancelled && !s.protocol.receiver.Stopped?
    case Take => s.protocol.processor == Waiting && s.protocol.queue != []
    case Handle => s.protocol.processor.Handling?
    case ProcessorStops => s.protocol.cancelled && s.protocol.processor == Waiting
    case CancelProtocol => true
  }

  /** What a step with an entry does to the server's sets. */
  function Effect(v: Server, entry: Entry): Server {
    match entry
    case Write(d, ok) => if ok then v else v.(failed := v.failed + {d})
    case Delete(d) => v.(live := v.live - {d})
    case Close(d) => v.(closed := v.closed + {d})
    case Load(_) => v
  }

  /** The reader of client c takes a step with an entry; a message that was written has been relayed. */
  function Relayed(clients: map<nat, Client>, c: nat, entry: Entry): map<nat, Client>
    requires c in clients && clients[c].phase.Relaying? && entry.d in clients
  {
    var k := clients[c];
    var visited := k.phase.visited + if entry.Load? then {entry.d} else {};
    var after := clients[c := k.(phase := k.phase.(visited := visited, hand := entry.After()))];
    if entry.Write? && entry.ok
    then
      var other := after[entry.d];
      after[entry.d := other.(relayed := other.relayed + [Item(c, k.phase.body)])]
    else after
  }

  /** The steps of the reader goroutine of client c; the rest of the state stays as it is. */
  function ReaderStep(s: State, a: Action): map<nat, Client>
    requires Enabled(s, a)
  {
    match a
    case Accept(c) => s.clients[c := Client(Idle, [], [], [])]
    case Read(c, body) =>
      var k := s.clients[c];
      var phase := Relaying(body, s.server.live - {c}, s.clients.Keys, {}, Free);
      s.clients[c := k.(phase := phase, read := k.read + [body])]
    case ReadFails(c) => s.clients[c := s.clients[c].(phase := Gone)]
    case ReaderStops(c) => s.clients[c := s.clients[c].(phase := Gone)]
    case Relay(c, entry) => Relayed(s.clients, c, entry)
    case RelayDone(c) => s.clients[c := s.clients[c].(phase := Sending(s.clients[c].phase.body))]
    case Enqueue(c) => s.clients[c := s.clients[c].(phase := Idle)]
    case DropOnCancel(c) =>
      var k := s.clients[c];
      s.clients[c := k.(phase := Gone, dropped := k.dropped + [k.phase.body])]
    case _ => s.clients
  }

  function ServerStep(s: State, a: Action): Server
    requires Enabled(s, a)
  {
    var v := s.server;
    match a
    case Accept(c) => v.(live := v.live + {c})
    case ReadFails(c) => v.(live := v.live - {c})
    case Relay(_, entry) => Effect(v, entry)
    case Enqueue(c) => v.(queue := v.queue + [Item(c, s.clients[c].phase.body)])
    case ServerWrite(w, entry) => Effect(v.(writers := v.writers[w := entry.After()]), entry)
    case CancelServer => v.(cancelled := true)
    case CloseClient(d) => v.(closed := v.closed + {d})
    case Receive => v.(queue := v.queue[1..])
    case _ => v
  }

  function ProtocolStep(s: State, a: Action): Protocol
    requires Enabled(s, a)
  {
    var p := s.protocol;
    match a
    case Receive => p.(receiver := Holding(s.server.queue[0]))
    case Forward => p.(receiver := Polling, queue := p.queue + [p.receiver.item])
    case ReceiverStops =>
      p.(receiver := Stopped, dropped := p.dropped + if p.receiver.Holding? then [p.receiver.item] else [])
    case Take => p.(processor := Handling(p.queue[0]), queue := p.queue[1..])
    case Handle => p.(processor := Waiting, handled := p.handled + [p.processor.item])
    case ProcessorStops => p.(processor := Ended)
    case CancelProtocol => p.(cancelled := true)
    case _ => p
  }

  function Step(s: State, a: Action): State
    requires Enabled(s, a)
  {
    State(ReaderStep(s, a), ServerStep(s, a), ProtocolStep(s, a))
  }

  /** A run: enabled actions one after another, leading from s to t. */
  ghost predicate Run(s: State, actions: seq<Action>, t: State)
    decreases |actions|
  {
    if actions == [] then s == t
    else Enabled(s, actions[0]) && Run(Step(s, actions[0]), actions[1..], t)
  }

  // ---------- Order and conservation ----------

  /** The bodies of the items that came from one client. */
  function Of(items: seq<Item>, c: nat): seq<Body> {
    if items == [] then []
    else (if items[0].from == c then [items[0].body] else []) + Of(items[1..], c)
  }

  function InReceiver(s: State): seq<Item> { if s.protocol.receiver.Holding? then [s.protocol.receiver.item] else [] }

  function InProcessor(s: State): seq<Item> {
    if s.protocol.processor.Handling? then [s.protocol.processor.item] else []
  }

  function InReader(k: Client): seq<Body> {
    match k.phase
    case Relaying(body, _, _, _, _) => [body]
    case Sending(body) => [body]
    case _ => []
  }

  /** Every item on its way, the furthest first. */
  function Path(s: State): seq<Item> {
    Line(s.protocol.handled, InProcessor(s), s.protocol.queue, InReceiver(s), s.protocol.dropped, s.server.queue)
  }

  /** What was read from a client is accounted for, in order, along the path. */
  ghost predicate Account(s: State, c: nat)
    requires c in s.clients
  {
    s.clients[c].read == Of(Path(s), c) + InReader(s.clients[c]) + s.clients[c].dropped
  }

  ghost predicate Accounts(s: State) {
    forall c :: c in s.clients ==> Account(s, c)
  }

  ghost predicate Loss(s: State) {
    && (s.protocol.dropped != [] ==> s.protocol.receiver == Stopped && s.protocol.cancelled)
    && (forall c :: c in s.clients ==> DropsOnlyAtEnd(s, c))
  }

  ghost predicate DropsOnlyAtEnd(s: State, c: nat)
    requires c in s.clients
  {
    s.clients[c].dropped != [] ==> s.clients[c].phase == Gone && s.server.cancelled
  }

  ghost predicate Senders(s: State) {
    forall i :: 0 <= i < |Path(s)| ==> Path(s)[i].from in s.clients
  }

  ghost predicate Bounded(s: State) { |s.server.queue| <= CHANNEL && |s.protocol.queue| <= CHANNEL }

  lemma {:induction false} OfConcat(a: seq<Item>, b: seq<Item>, c: nat)
    ensures Of(a + b, c) == Of(a, c) + Of(b, c)
    decreases |a|
  {
    if a == [] {
      assert a + b == b;
    } else {
      assert (a + b)[0] == a[0] && (a + b)[1..] == a[1..] + b;
      OfConcat(a[1..], b, c);
      var head := if a[0].from == c then [a[0].body] else [];
      assert Of(a + b, c) == head + (Of(a[1..], c) + Of(b, c));
    }
  }

  lemma OfOne(item: Item, c: nat)
    ensures Of([item], c) == if item.from == c then [item.body] else []
  {
    assert [item][1..] == [];
  }

  lemma {:induction false} OfNone(items: seq<Item>, c: nat)
    requires forall i :: 0 <= i < |items| ==> items[i].from != c
    ensures Of(items, c) == []
    decreases |items|
  {
    if items != [] {
      OfNone(items[1..], c);
    }
  }

  /** Path, with the parts named. */
  function Line(a: seq<Item>, b: seq<Item>, c: seq<Item>, d: seq<Item>, e: seq<Item>, f: seq<Item>): seq<Item> {
    a + b + c + d + e + f
  }

  lemma LineMoves(a: seq<Item>, b: seq<Item>, c: seq<Item>, d: seq<Item>, e: seq<Item>, f: seq<Item>, x: seq<Item>)
    ensures Line(a, x, c, d, e, f) == Line(a + x, [], c, d, e, f)
    ensures Line(a, [], x + c, d, e, f) == Line(a, x, c, d, e, f)
    ensures Line(a, b, c, x, [], f) == Line(a, b, c + x, [], [], f)
    ensures Line(a, b, c, x, [], f) == Line(a, b, c, [], [] + x, f)
    ensures Line(a, b, c, [], [], x + f) == Line(a, b, c, x, [], f)
    ensures Line(a, b, c, d, e, f + x) == Line(a, b, c, d, e, f) + x
  {}

  /** Only an enqueue adds to the path; every other step moves items along it or leaves it alone. */
  lemma PathStep(s: State, a: Action)
    requires Enabled(s, a) && Loss(s)
    ensures Path(Step(s, a)) == Path(s) + if a.Enqueue? then [Item(a.c, s.clients[a.c].phase.body)] else []
  {
    hide Line;
    var t := Step(s, a);
    var h, p, pq, r, dr, sq :=
      s.protocol.handled, InProcessor(s), s.protocol.queue, InReceiver(s), s.protocol.dropped, s.server.queue;
    match a {
      case Enqueue(c) =>
        LineMoves(h, p, pq, r, dr, sq, [Item(c, s.clients[c].phase.body)]);
      case Receive =>
        assert sq == [sq[0]] + sq[1..];
        LineMoves(h, p, pq, r, dr, sq[1..], [sq[0]]);
      case Forward =>
        LineMoves(h, p, pq, r, dr, sq, r);
      case ReceiverStops =>
        LineMoves(h, p, pq, r, dr, sq, r);
      case Take =>
        assert pq == [pq[0]] + pq[1..];
        LineMoves(h, p, pq[1..], r, dr, sq, [pq[0]]);
      case Handle =>
        LineMoves(h, p, pq, r, dr, sq, p);
      case _ =>
    }
  }

  /** What a client still has in hand or has dropped. */
  function Kept(k: Client): seq<Body> { InReader(k) + k.dropped }

  /** The client whose goroutine takes the step, if any. */
  predicate Takes(a: Action, c: nat) {
    match a
    case Read(x, _) => x == c
    case ReadFails(x) => x == c
    case ReaderStops(x) => x == c
    case Relay(x, _) => x == c
    case RelayDone(x) => x == c
    case Enqueue(x) => x == c
    case DropOnCancel(x) => x == c
    case _ => false
  }

  lemma OtherClient(s: State, a: Action, c: nat)
    requires Enabled(s, a) && c in s.clients && !Takes(a, c)
    ensures c in Step(s, a).clients
    ensures var k, k' := s.clients[c], Step(s, a).clients[c];
            k'.read == k.read && k'.phase == k.phase && k'.dropped == k.dropped
  {}

  lemma OwnStep(s: State, a: Action, c: nat)
    requires Enabled(s, a) && c in s.clients && Takes(a, c)
    requires s.clients[c].phase != Gone ==> s.clients[c].dropped == []
    ensures c in Step(s, a).clients
    ensures var k, k' := s.clients[c], Step(s, a).clients[c];
            && k'.read == k.read + (if a.Read? then [a.body] else [])
            && (if a.Read? then Kept(k) == [] && Kept(k') == [a.body]
                else if a.Enqueue? then Kept(k) == [k.phase.body] && Kept(k') == []
                else Kept(k') == Kept(k))
  {
    if a.DropOnCancel? {
      assert Kept(s.clients[c]) == [s.clients[c].phase.body];
    }
  }

  /** What a step does to the books of one client. */
  lemma ClientStep(s: State, a: Action, c: nat)
    requires Enabled(s, a) && Loss(s) && c in s.clients
    ensures c in Step(s, a).clients
    ensures var k, k' := s.clients[c], Step(s, a).clients[c];
            && k'.read == k.read + (if a.Read? && a.c == c then [a.body] else [])
            && (if a.Read? && a.c == c then Kept(k) == [] && Kept(k') == [a.body]
                else if a.Enqueue? && a.c == c then Kept(k) == [k.phase.body] && Kept(k') == []
                else Kept(k') == Kept(k))
  {
    hide Step, Enabled;
    assert DropsOnlyAtEnd(s, c);
    if Takes(a, c) {
      OwnStep(s, a, c);
    } else {
      OtherClient(s, a, c);
      assert s.clients[c].read + [] == s.clients[c].read;
    }
  }

  lemma AccountIs(s: State, c: nat)
    requires c in s.clients
    ensures Account(s, c) <==> s.clients[c].read == Of(Path(s), c) + Kept(s.clients[c])
  {
    hide Of, Path;
  }

  lemma OfPathStep(s: State, a: Action, c: nat)
    requires Enabled(s, a) && Loss(s)
    ensures Of(Path(Step(s, a)), c)
            == Of(Path(s), c) + if a.Enqueue? && a.c == c then [s.clients[c].phase.body] else []
  {
    PathStep(s, a);
    hide Of, Path, Step, Loss;
    if a.Enqueue? {
      var item := Item(a.c, s.clients[a.c].phase.body);
      OfConcat(Path(s), [item], c);
      OfOne(item, c);
    } else {
      assert Path(s) + [] == Path(s);
    }
  }

  /** The account of every client still balances after a step. */
  lemma AccountStep(s: State, a: Action, c: nat)
    requires Enabled(s, a) && Loss(s) && c in s.clients && Account(s, c)
    ensures c in Step(s, a).clients && Account(Step(s, a), c)
  {
    hide Of, Path, Step, Kept, Account, Loss;
    OfPathStep(s, a, c);
    ClientStep(s, a, c);
    AccountIs(s, c);
    AccountIs(Step(s, a), c);
  }

  lemma ClientsStep(s: State, a: Action)
    requires Enabled(s, a)
    ensures Step(s, a).clients.Keys == s.clients.Keys + if a.Accept? then {a.c} else {}
    ensures a.Accept? ==> Step(s, a).clients[a.c] == Client(Idle, [], [], [])
  {}

  lemma AccountAccepted(s: State, a: Action)
    requires Enabled(s, a) && a.Accept? && Senders(s) && Loss(s)
    ensures a.c in Step(s, a).clients && Account(Step(s, a), a.c)
  {
    hide Of, Path, Step, Account, Loss;
    OfPathStep(s, a, a.c);
    ClientsStep(s, a);
    AccountIs(Step(s, a), a.c);
    OfNone(Path(s), a.c);
  }

  lemma SendersStep(s: State, a: Action)
    requires Enabled(s, a) && Loss(s) && Senders(s)
    ensures Senders(Step(s, a))
  {
    PathStep(s, a);
    ClientsStep(s, a);
    hide Path, Step, Loss;
    var t := Step(s, a);
    forall i | 0 <= i < |Path(t)| ensures Path(t)[i].from in t.clients {
      assert i < |Path(s)| ==> Path(t)[i] == Path(s)[i];
    }
  }

  lemma AccountsStep(s: State, a: Action)
    requires Enabled(s, a) && Accounts(s) && Loss(s) && Senders(s)
    ensures Accounts(Step(s, a))
  {
    hide Of, Path, Step, Account, Loss, Senders, Enabled;
    ClientsStep(s, a);
    if a.Accept? {
      AccountAccepted(s, a);
    }
    forall c | c in Step(s, a).clients ensures Account(Step(s, a), c) {
      if c in s.clients {
        AccountStep(s, a, c);
      }
    }
  }

  lemma DropsStep(s: State, a: Action, c: nat)
    requires Enabled(s, a) && c in s.clients && DropsOnlyAtEnd(s, c)
    ensures c in Step(s, a).clients && DropsOnlyAtEnd(Step(s, a), c)
  {
    if !Takes(a, c) {
      OtherClient(s, a, c);
    }
    CancelStays(s, a);
  }

  lemma CancelStays(s: State, a: Action)
    requires Enabled(s, a)
    ensures s.server.cancelled ==> Step(s, a).server.cancelled
    ensures Step(s, a).protocol.dropped != s.protocol.dropped ==> a.ReceiverStops?
    ensures s.protocol.receiver == Stopped ==> Step(s, a).protocol.receiver == Stopped
    ensures s.protocol.cancelled ==> Step(s, a).protocol.cancelled
  {}

  lemma LossStep(s: State, a: Action)
    requires Enabled(s, a) && Loss(s)
    ensures Loss(Step(s, a))
  {
    ClientsStep(s, a);
    CancelStays(s, a);
    assert a.ReceiverStops? ==> s.protocol.cancelled && Step(s, a).protocol.receiver == Stopped;
    hide Step, Enabled, DropsOnlyAtEnd;
    forall c | c in Step(s, a).clients ensures DropsOnlyAtEnd(Step(s, a), c) {
      if c in s.clients {
        DropsStep(s, a, c);
      } else {
        NewDropsNothing(Step(s, a), c);
      }
    }
  }

  lemma NewDropsNothing(s: State, c: nat)
    requires c in s.clients && s.clients[c].dropped == []
    ensures DropsOnlyAtEnd(s, c)
  {}

  // ---------- Relaying ----------

  /** A contiguous piece of a sequence that ends at j. */
  ghost predicate Slice(piece: seq<Body>, whole: seq<Body>, j: nat) {
    |piece| <= j <= |whole| && piece == whole[j - |piece|..j]
  }

  /** The message in hand has not been written to d: not yet, or in vain. */
  predicate Owes(k: Client, d: nat) {
    k.phase.Relaying? && (d !in k.phase.visited || (!k.phase.hand.Free? && k.phase.hand.d == d))
  }

  /** Range can still hand d out, whether or not the map still holds it. */
  predicate Due(k: Client, d: nat) {
    k.phase.Relaying? && d !in k.phase.visited && (d in k.phase.todo || d !in k.phase.known)
  }

  /** How far the messages of c have been written to d. */
  function Offered(k: Client, d: nat): nat
    requires k.phase.Relaying? ==> k.read != []
  {
    if Owes(k, d) then |k.read| - 1 else |k.read|
  }

  ghost predicate InHand(k: Client) {
    && (k.phase.Relaying? ==> k.read != [] && k.read[|k.read| - 1] == k.phase.body)
    && (k.phase.Sending? ==> k.read != [] && k.read[|k.read| - 1] == k.phase.body)
    && (k.phase.Relaying? && !k.phase.hand.Free? ==> k.phase.hand.d in k.phase.visited)
  }

  /** The step writes c's message to d. */
  predicate Arrives(a: Action, c: nat, d: nat) { a == Relay(c, Write(d, true)) }

  /** What d got from c is one unbroken piece of what was read from c, up to date while d is connected. */
  ghost predicate RelayPair(s: State, c: nat, d: nat)
    requires c in s.clients && d in s.clients
  {
    var k, got := s.clients[c], Of(s.clients[d].relayed, c);
    && InHand(k)
    && (c == d ==> got == [])
    && (got != [] ==> exists j :: Slice(got, k.read, j))
    && (got != [] && d in s.server.live ==>
          && Slice(got, k.read, Offered(k, d))
          && (k.phase.Relaying? ==> d in k.phase.todo || d in k.phase.visited))
    && (got != [] && k.phase.Relaying? && k.phase.hand == Loaded(d) ==> Slice(got, k.read, |k.read| - 1))
    && (got != [] && Due(k, d) ==> Slice(got, k.read, |k.read| - 1))
    && (k.phase.Relaying? && !Owes(k, d) && d in s.server.live ==> got != [])
  }

  ghost predicate AllRelays(s: State) {
    forall c, d :: c in s.clients && d in s.clients ==> RelayPair(s, c, d)
  }

  /** Some goroutine is there with its entry. */
  ghost predicate Held(s: State, hand: Hand) {
    (exists c :: Relays(s, c, hand)) || (exists w :: Writes(s, w) == hand)
  }

  /** A client that a write failed for is deleted and closed, or some goroutine is about to do it. */
  ghost predicate Leaving(s: State, d: nat) {
    && d in s.clients
    && (d in s.server.live ==> Held(s, WriteFailed(d)))
    && (d !in s.server.closed ==> Held(s, WriteFailed(d)) || Held(s, Deleted(d)))
  }

  ghost predicate Removed(s: State) {
    && s.server.live <= s.clients.Keys
    && (forall d :: d in s.server.failed ==> Leaving(s, d))
    && (forall d :: Held(s, Deleted(d)) ==> d in s.clients && d !in s.server.live)
    && (forall d :: Held(s, Loaded(d)) || Held(s, WriteFailed(d)) ==> d in s.clients)
  }

  /** Clients named in a client's books are known. */
  ghost predicate Known(s: State, c: nat)
    requires c in s.clients
  {
    && (s.clients[c].phase.Relaying? ==> s.clients[c].phase.visited <= s.clients.Keys)
    && (forall i :: 0 <= i < |s.clients[c].relayed| ==> s.clients[c].relayed[i].from in s.clients)
  }

  ghost predicate AllKnown(s: State) {
    forall c :: c in s.clients ==> Known(s, c)
  }

  /** Where the goroutine that takes the step was with its entry, and where it is then. */
  function Before(a: Action): Hand {
    match a
    case Relay(_, entry) => entry.Before()
    case ServerWrite(_, entry) => entry.Before()
    case _ => Free
  }

  function After(a: Action): Hand {
    match a
    case Relay(_, entry) => entry.After()
    case ServerWrite(_, entry) => entry.After()
    case _ => Free
  }

  lemma RelaysOne(s: State, a: Action, c: nat, hand: Hand)
    requires Enabled(s, a) && !hand.Free?
    ensures Relays(s, c, hand) && Before(a) != hand ==> Relays(Step(s, a), c, hand)
    ensures Relays(Step(s, a), c, hand) ==> Relays(s, c, hand) || After(a) == hand
  {
    if c in s.clients && !Takes(a, c) {
      OtherClient(s, a, c);
    }
  }

  lemma WritesOne(s: State, a: Action, w: nat, hand: Hand)
    requires Enabled(s, a) && !hand.Free?
    ensures Writes(s, w) == hand && Before(a) != hand ==> Writes(Step(s, a), w) == hand
    ensures Writes(Step(s, a), w) == hand ==> Writes(s, w) == hand || After(a) == hand
  {
    WritersStep(s, a);
  }

  lemma WritersStep(s: State, a: Action)
    requires Enabled(s, a)
    ensures Step(s, a).server.writers ==
              if a.ServerWrite? then s.server.writers[a.w := a.entry.After()] else s.server.writers
  {}

  /** An entry is held on to until the goroutine that holds it goes on. */
  lemma HeldStep(s: State, a: Action, hand: Hand)
    requires Enabled(s, a) && !hand.Free?
    ensures Held(s, hand) && Before(a) != hand ==> Held(Step(s, a), hand)
    ensures Held(Step(s, a), hand) ==> Held(s, hand) || After(a) == hand
  {
    hide Step, Enabled, Relays, Writes, Before, After;
    forall c ensures && (Relays(s, c, hand) && Before(a) != hand ==> Relays(Step(s, a), c, hand))
                     && (Relays(Step(s, a), c, hand) ==> Relays(s, c, hand) || After(a) == hand) {
      RelaysOne(s, a, c, hand);
    }
    forall w ensures && (Writes(s, w) == hand && Before(a) != hand ==> Writes(Step(s, a), w) == hand)
                     && (Writes(Step(s, a), w) == hand ==> Writes(s, w) == hand || After(a) == hand) {
      WritesOne(s, a, w, hand);
    }
  }

  lemma HeldAfter(s: State, a: Action)
    requires Enabled(s, a) && !After(a).Free?
    ensures Held(Step(s, a), After(a))
  {
    var t := Step(s, a);
    if a.Relay? {
      assert Relays(t, a.c, After(a));
    } else {
      assert Writes(t, a.w) == After(a);
    }
  }

  lemma HeldBefore(s: State, a: Action)
    requires Enabled(s, a) && !Before(a).Free?
    ensures Held(s, Before(a))
  {
    if a.Relay? {
      assert Relays(s, a.c, Before(a));
    } else {
      assert Writes(s, a.w) == Before(a);
    }
  }

  /** Which clients are live, closed and failed for after a step. */
  lemma SetsStep(s: State, a: Action)
    requires Enabled(s, a)
    ensures var t := Step(s, a);
            && t.server.live == s.server.live + (if a.Accept? then {a.c} else {})
                         - (if After(a).Deleted? then {After(a).d} else if a.ReadFails? then {a.c} else {})
            && t.server.failed == s.server.failed + (if After(a).WriteFailed? then {After(a).d} else {})
            && t.server.closed ==
                 s.server.closed
                 + (if Before(a).Deleted? then {Before(a).d} else if a.CloseClient? then {a.d} else {})
  {}

  lemma LeavingStep(s: State, a: Action, d: nat)
    requires Enabled(s, a) && Removed(s) && d in Step(s, a).server.failed
    ensures Leaving(Step(s, a), d)
  {
    ClientsStep(s, a);
    SetsStep(s, a);
    assert (Before(a) == WriteFailed(d) ==> After(a) == Deleted(d)) && (a.Accept? ==> a.c !in s.clients);
    hide Step, Enabled, Held;
    HeldStep(s, a, WriteFailed(d));
    HeldStep(s, a, Deleted(d));
    if !After(a).Free? {
      HeldAfter(s, a);
    }
    if !Before(a).Free? {
      HeldBefore(s, a);
    }
  }

  lemma RemovedStep(s: State, a: Action)
    requires Enabled(s, a) && Removed(s)
    ensures Removed(Step(s, a))
  {
    ClientsStep(s, a);
    SetsStep(s, a);
    EntryKnown(s, a);
    assert a.Accept? ==> a.c !in s.clients;
    hide Step, Enabled, Held, Leaving;
    var t := Step(s, a);
    forall d | d in t.server.failed ensures Leaving(t, d) {
      LeavingStep(s, a, d);
    }
    forall d ensures Held(t, Deleted(d)) ==> d in t.clients && d !in t.server.live {
      HeldStep(s, a, Deleted(d));
    }
    forall d ensures Held(t, Loaded(d)) || Held(t, WriteFailed(d)) ==> d in t.clients {
      HeldStep(s, a, Loaded(d));
      HeldStep(s, a, WriteFailed(d));
    }
  }

  lemma EntryKnown(s: State, a: Action)
    requires Enabled(s, a) && Removed(s)
    ensures !After(a).Free? ==> After(a).d in s.clients
  {
    hide Held;
    if !Before(a).Free? {
      HeldBefore(s, a);
    }
  }

  lemma KnownStep(s: State, a: Action, c: nat)
    requires Enabled(s, a) && c in s.clients && Known(s, c)
    ensures c in Step(s, a).clients && Known(Step(s, a), c)
  {
    ClientsStep(s, a);
    var t := Step(s, a);
    assert t.clients[c].relayed == s.clients[c].relayed
           + if a.Relay? && Arrives(a, a.c, c) then [Item(a.c, s.clients[a.c].phase.body)] else [];
  }

  lemma AllKnownStep(s: State, a: Action)
    requires Enabled(s, a) && AllKnown(s)
    ensures AllKnown(Step(s, a))
  {
    ClientsStep(s, a);
    hide Step, Enabled;
    forall c | c in Step(s, a).clients ensures Known(Step(s, a), c) {
      if c in s.clients {
        KnownStep(s, a, c);
      }
    }
  }

  lemma SliceGrows(piece: seq<Body>, whole: seq<Body>, j: nat, b: Body)
    requires Slice(piece, whole, j)
    ensures Slice(piece, whole + [b], j)
  {
    assert (whole + [b])[j - |piece|..j] == whole[j - |piece|..j];
  }

  lemma SliceExtends(piece: seq<Body>, whole: seq<Body>)
    requires whole != [] && (piece == [] || Slice(piece, whole, |whole| - 1))
    ensures Slice(piece + [whole[|whole| - 1]], whole, |whole|)
  {}

  /** From s to t, c has offered to d up to the same point, and d has not come back. */
  ghost predicate Continues(s: State, t: State, c: nat, d: nat)
    requires c in s.clients && d in s.clients && c in t.clients
    requires InHand(s.clients[c]) && InHand(t.clients[c])
  {
    var k, k', got := s.clients[c], t.clients[c], Of(s.clients[d].relayed, c);
    && k'.read == k.read
    && (d in t.server.live ==> d in s.server.live)
    && (d in t.server.live && got != [] ==>
          && Offered(k', d) == Offered(k, d)
          && (k'.phase.Relaying? ==> d in k'.phase.todo || d in k'.phase.visited))
    && (Relays(t, c, Loaded(d)) && got != [] ==> Slice(got, k.read, |k.read| - 1))
    && (Due(k', d) ==> Due(k, d))
    && (k'.phase.Relaying? && !Owes(k', d) && d in t.server.live ==> k.phase.Relaying? && !Owes(k, d))
  }

  lemma PairKept(s: State, t: State, c: nat, d: nat)
    requires c in s.clients && d in s.clients && c in t.clients && d in t.clients && RelayPair(s, c, d)
    requires Of(t.clients[d].relayed, c) == Of(s.clients[d].relayed, c)
    requires InHand(t.clients[c]) && Continues(s, t, c, d)
    ensures RelayPair(t, c, d)
  {
    hide Of, Slice;
  }

  lemma PairOnAccept(s: State, a: Action, c: nat, d: nat)
    requires Enabled(s, a) && a.Accept? && AllRelays(s) && Removed(s) && AllKnown(s)
    requires c in Step(s, a).clients && d in Step(s, a).clients
    ensures RelayPair(Step(s, a), c, d)
  {
    hide Of, Slice;
    var t := Step(s, a);
    if c == a.c {
      OfNone(t.clients[d].relayed, c);
    } else if d == a.c {
      assert RelayPair(s, c, c);
      OfNone([], c);
    } else {
      assert RelayPair(s, c, d);
      PairKept(s, t, c, d);
    }
  }

  lemma PairOnRead(s: State, a: Action, d: nat)
    requires Enabled(s, a) && a.Read? && d in s.clients && RelayPair(s, a.c, d)
    ensures RelayPair(Step(s, a), a.c, d)
  {
    hide Of, Slice;
    var t, k := Step(s, a), s.clients[a.c];
    var got := Of(s.clients[d].relayed, a.c);
    if got != [] {
      var j :| Slice(got, k.read, j);
      SliceGrows(got, k.read, j, a.body);
      if d in s.server.live {
        SliceGrows(got, k.read, |k.read|, a.body);
      }
    }
  }

  lemma PairOnRelay(s: State, a: Action, c: nat, d: nat)
    requires Enabled(s, a) && Arrives(a, c, d) && RelayPair(s, c, d)
    ensures RelayPair(Step(s, a), c, d)
  {
    hide Of, Slice;
    var k := s.clients[c];
    var got := Of(s.clients[d].relayed, c);
    OfConcat(s.clients[d].relayed, [Item(c, k.phase.body)], c);
    OfOne(Item(c, k.phase.body), c);
    SliceExtends(got, k.read);
  }

  /** The relayed items of d, seen from any sender but the one that just relayed to d. */
  lemma RelayedStep(s: State, a: Action, c: nat, d: nat)
    requires Enabled(s, a) && c in s.clients && d in s.clients && !Arrives(a, c, d)
    ensures d in Step(s, a).clients && Of(Step(s, a).clients[d].relayed, c) == Of(s.clients[d].relayed, c)
  {
    hide Of;
    if a.Relay? && Arrives(a, a.c, d) {
      var item := Item(a.c, s.clients[a.c].phase.body);
      OfConcat(s.clients[d].relayed, [item], c);
      OfOne(item, c);
      assert Of(s.clients[d].relayed, c) + [] == Of(s.clients[d].relayed, c);
    } else {
      SameRelayed(s, a, d);
    }
  }

  lemma SameRelayed(s: State, a: Action, d: nat)
    requires Enabled(s, a) && d in s.clients && !(a.Relay? && Arrives(a, a.c, d))
    ensures d in Step(s, a).clients && Step(s, a).clients[d].relayed == s.clients[d].relayed
  {}

  /** What a step with an entry does to the client whose reader takes it. */
  lemma OwnEntry(s: State, a: Action)
    requires Enabled(s, a) && a.Relay?
    ensures var k := s.clients[a.c];
            && a.c in Step(s, a).clients && k.phase.Relaying? && k.phase.hand == a.entry.Before()
            && (a.entry.Load? ==> Handed(s, k.phase, a.entry.d))
            && Step(s, a).clients[a.c] ==
                 k.(phase := k.phase.(visited := k.phase.visited + (if a.entry.Load? then {a.entry.d} else {}),
                                      hand := a.entry.After()))
  {}

  lemma ClosingLeft(s: State, a: Action, d: nat)
    requires Enabled(s, a) && Removed(s) && Before(a) == Deleted(d)
    ensures d !in Step(s, a).server.live
  {
    HeldBefore(s, a);
    LiveStep(s, a, d);
  }

  /** The owner's books: who is owed the message in hand changes only for the entry of the step. */
  lemma EntryOffers(k: Client, entry: Entry, d: nat)
    requires k.phase.Relaying? && InHand(k) && k.phase.hand == entry.Before()
    requires entry.Load? ==> entry.d !in k.phase.visited
    ensures var k' := k.(phase := k.phase.(visited := k.phase.visited + (if entry.Load? then {entry.d} else {}),
                                           hand := entry.After()));
            && InHand(k')
            && (Owes(k', d) <==> Owes(k, d) && entry != Write(d, true) && entry != Close(d))
            && (k'.phase.hand == Loaded(d) <==> entry == Load(d))
            && (d in k.phase.visited ==> d in k'.phase.visited) && (Due(k', d) ==> Due(k, d))
  {}

  lemma OfferEntry(s: State, a: Action, c: nat, d: nat)
    requires Enabled(s, a) && c in s.clients && d in s.clients && RelayPair(s, c, d) && Removed(s)
    requires a.Relay? && a.c == c && !Arrives(a, c, d)
    ensures c in Step(s, a).clients && InHand(Step(s, a).clients[c]) && Continues(s, Step(s, a), c, d)
  {
    hide Of, Slice, Step, Enabled, Held, Removed, InHand;
    LiveStep(s, a, d);
    OwnEntry(s, a);
    EntryOffers(s.clients[c], a.entry, d);
    if a.entry == Close(d) {
      ClosingLeft(s, a, d);
    }
    hide Owes;
  }

  lemma OfferOwn(s: State, a: Action, c: nat, d: nat)
    requires Enabled(s, a) && c in s.clients && d in s.clients && RelayPair(s, c, d)
    requires Takes(a, c) && !a.Read? && !a.Relay?
    ensures c in Step(s, a).clients && InHand(Step(s, a).clients[c]) && Continues(s, Step(s, a), c, d)
  {
    hide Of, Slice;
    LiveStep(s, a, d);
  }

  lemma OfferOther(s: State, a: Action, c: nat, d: nat)
    requires Enabled(s, a) && c in s.clients && d in s.clients && RelayPair(s, c, d)
    requires !a.Accept? && !Takes(a, c)
    ensures c in Step(s, a).clients && InHand(Step(s, a).clients[c]) && Continues(s, Step(s, a), c, d)
  {
    LiveStep(s, a, d);
    OtherClient(s, a, c);
    hide Of, Slice, Step, Enabled;
  }

  lemma OfferStep(s: State, a: Action, c: nat, d: nat)
    requires Enabled(s, a) && c in s.clients && d in s.clients && RelayPair(s, c, d) && Removed(s)
    requires !a.Accept? && !(a.Read? && a.c == c) && !Arrives(a, c, d)
    ensures c in Step(s, a).clients && InHand(Step(s, a).clients[c]) && Continues(s, Step(s, a), c, d)
  {
    hide Step, Enabled, RelayPair, Removed, InHand, Continues;
    if !Takes(a, c) {
      OfferOther(s, a, c, d);
    } else if a.Relay? {
      OfferEntry(s, a, c, d);
    } else {
      OfferOwn(s, a, c, d);
    }
  }

  lemma LiveStep(s: State, a: Action, d: nat)
    requires Enabled(s, a) && !a.Accept?
    ensures d in Step(s, a).server.live ==> d in s.server.live
    ensures d in s.clients ==> d in Step(s, a).clients
  {}

  lemma RelaysStep(s: State, a: Action)
    requires Enabled(s, a) && AllRelays(s) && Removed(s) && AllKnown(s)
    ensures AllRelays(Step(s, a))
  {
    ClientsStep(s, a);
    hide Step, Enabled, RelayPair, Removed, AllKnown;
    var t := Step(s, a);
    forall c, d | c in t.clients && d in t.clients ensures RelayPair(t, c, d) {
      if a.Accept? {
        PairOnAccept(s, a, c, d);
      } else {
        assert RelayPair(s, c, d);
        if a.Read? && a.c == c {
          PairOnRead(s, a, d);
        } else if Arrives(a, c, d) {
          PairOnRelay(s, a, c, d);
        } else {
          PairElsewhere(s, a, c, d);
        }
      }
    }
  }

  lemma PairElsewhere(s: State, a: Action, c: nat, d: nat)
    requires Enabled(s, a) && c in s.clients && d in s.clients && RelayPair(s, c, d) && Removed(s)
    requires !a.Accept? && !(a.Read? && a.c == c) && !Arrives(a, c, d)
    ensures c in Step(s, a).clients && d in Step(s, a).clients && RelayPair(Step(s, a), c, d)
  {
    OfferStep(s, a, c, d);
    RelayedStep(s, a, c, d);
    hide Step, Enabled, RelayPair, Of, Offered, InHand;
    PairKept(s, Step(s, a), c, d);
  }

  // ---------- Every run ----------

  ghost predicate Invariant(s: State) {
    Accounts(s) && Loss(s) && Senders(s) && Bounded(s) && AllRelays(s) && Removed(s) && AllKnown(s)
  }

  lemma BoundedStep(s: State, a: Action)
    requires Enabled(s, a) && Bounded(s)
    ensures Bounded(Step(s, a))
  {}

  lemma InvariantStep(s: State, a: Action)
    requires Enabled(s, a) && Invariant(s)
    ensures Invariant(Step(s, a))
  {
    hide Step, Enabled, Accounts, Loss, Senders, Bounded, AllRelays, Removed, AllKnown;
    AccountsStep(s, a);
    LossStep(s, a);
    SendersStep(s, a);
    BoundedStep(s, a);
    RelaysStep(s, a);
    RemovedStep(s, a);
    AllKnownStep(s, a);
  }

  lemma InvariantInitial()
    ensures Invariant(INITIAL)
  {}

  lemma {:induction false} InvariantRun(s: State, actions: seq<Action>, t: State)
    requires Invariant(s) && Run(s, actions, t)
    ensures Invariant(t)
    decreases |actions|
  {
    hide Invariant, Step, Enabled;
    if actions != [] {
      InvariantStep(s, actions[0]);
      InvariantRun(Step(s, actions[0]), actions[1..], t);
    }
  }

  /** What holds in every state a run reaches. */
  lemma Reached(actions: seq<Action>, t: State)
    requires Run(INITIAL, actions, t)
    ensures Invariant(t)
  {
    hide Invariant, Run;
    InvariantInitial();
    InvariantRun(INITIAL, actions, t);
  }

  lemma BooksBalance(s: State, c: nat)
    requires Invariant(s) && c in s.clients
    ensures s.clients[c].read == Of(Path(s), c) + Kept(s.clients[c])
  {
    hide Account, Loss, Senders, Bounded, AllRelays, Removed, AllKnown, Of, Path, Kept;
    AccountIs(s, c);
    assert Account(s, c);
  }

  lemma BehindHandled(s: State) returns (rest: seq<Item>)
    ensures Path(s) == s.protocol.handled + rest
  {
    rest := InProcessor(s) + s.protocol.queue + InReceiver(s) + s.protocol.dropped + s.server.queue;
  }

  /** In every run, cancelled or not, what was handled from a client is a prefix of what was read from it. */
  lemma HandledIsPrefix(actions: seq<Action>, t: State, c: nat)
    requires Run(INITIAL, actions, t) && c in t.clients
    ensures Of(t.protocol.handled, c) <= t.clients[c].read
  {
    hide Run, Of, Invariant, Path, Kept;
    Reached(actions, t);
    BooksBalance(t, c);
    var rest := BehindHandled(t);
    OfConcat(t.protocol.handled, rest, c);
  }

  lemma NoDrops(s: State, c: nat)
    requires Invariant(s) && c in s.clients && !s.server.cancelled && !s.protocol.cancelled
    ensures s.protocol.dropped == [] && s.clients[c].dropped == [] && Bounded(s)
  {
    hide Accounts, Senders, Bounded, AllRelays, Removed, AllKnown;
    assert DropsOnlyAtEnd(s, c);
  }

  /** Without cancellation nothing is lost: read is handled, in hand or queued, in order, at most 100 in a queue. */
  lemma NothingLost(actions: seq<Action>, t: State, c: nat)
    requires Run(INITIAL, actions, t) && c in t.clients && !t.server.cancelled && !t.protocol.cancelled
    ensures t.clients[c].read ==
              Of(t.protocol.handled + InProcessor(t) + t.protocol.queue + InReceiver(t) + t.server.queue, c)
              + InReader(t.clients[c])
    ensures |t.server.queue| <= 100 && |t.protocol.queue| <= 100
  {
    hide Run, Of, Invariant, InReader, InProcessor, InReceiver;
    Reached(actions, t);
    BooksBalance(t, c);
    NoDrops(t, c);
    assert Path(t) == t.protocol.handled + InProcessor(t) + t.protocol.queue + InReceiver(t) + t.server.queue;
    assert Kept(t.clients[c]) == InReader(t.clients[c]);
  }

  lemma PairOf(s: State, c: nat, d: nat)
    requires Invariant(s) && c in s.clients && d in s.clients
    ensures RelayPair(s, c, d)
  {
    hide Accounts, Loss, Senders, Bounded, Removed, AllKnown, RelayPair;
  }

  /** In every run a client gets none of its own messages relayed, and from each other one an unbroken piece. */
  lemma RelaySafe(actions: seq<Action>, t: State, c: nat, d: nat)
    requires Run(INITIAL, actions, t) && c in t.clients && d in t.clients
    ensures c == d ==> Of(t.clients[d].relayed, c) == []
    ensures Of(t.clients[d].relayed, c) != [] ==> exists j :: Slice(Of(t.clients[d].relayed, c), t.clients[c].read, j)
  {
    hide Run, Of, Slice, Invariant, Removed, Offered, Owes, InHand;
    Reached(actions, t);
    PairOf(t, c, d);
  }

  /**
   In every run a client that a write failed for is out of the map and closed, unless a goroutine
   is still on its way from the failed write to the Delete, or from there to the Close.
   */
  lemma FailedLeaves(actions: seq<Action>, t: State, d: nat)
    requires Run(INITIAL, actions, t) && d in t.server.failed
    ensures d in t.server.live ==> Held(t, WriteFailed(d))
    ensures d !in t.server.closed ==> Held(t, WriteFailed(d)) || Held(t, Deleted(d))
  {
    hide Run, Held, Invariant;
    Reached(actions, t);
    RemovedOf(t);
    assert Leaving(t, d);
  }

  lemma RemovedOf(s: State)
    requires Invariant(s)
    ensures Removed(s)
  {
    hide Accounts, Loss, Senders, Bounded, AllRelays, Removed, AllKnown;
  }

  /** When a relay ends, every client it found connected and that still is has the message as its latest from c. */
  lemma RelayReachesAll(actions: seq<Action>, t: State, c: nat, d: nat)
    requires Run(INITIAL, actions, t) && Enabled(t, RelayDone(c))
    requires d in t.clients[c].phase.todo && d in t.server.live && d in t.clients
    ensures var got := Of(t.clients[d].relayed, c);
            got != [] && got[|got| - 1] == t.clients[c].phase.body
  {
    hide Run, Of, Invariant, Removed;
    Reached(actions, t);
    PairOf(t, c, d);
    assert d in t.clients[c].phase.visited;
    assert !Owes(t.clients[c], d);
  }

  // ---------- What each action leaves behind ----------

  /** What every state from an action with an entry on shows of it. */
  predicate EntryShows(s: State, entry: Entry) {
    match entry
    case Load(_) => true
    case Write(d, ok) => ok || d in s.server.failed
    case Delete(d) => d in s.clients && d !in s.server.live
    case Close(d) => d in s.server.closed
  }

  /** What every state from an action on shows of it. */
  predicate Shows(s: State, a: Action) {
    match a
    case Accept(c) => c in s.clients
    case Read(c, body) => c in s.clients && body in s.clients[c].read
    case ReadFails(c) => c in s.clients && s.clients[c].phase == Gone && c !in s.server.live
    case ReaderStops(c) => c in s.clients && s.clients[c].phase == Gone
    case DropOnCancel(c) => c in s.clients && s.clients[c].phase == Gone && s.clients[c].dropped != []
    case Relay(c, entry) => EntryShows(s, entry)
    case ServerWrite(w, entry) => EntryShows(s, entry)
    case CancelServer => s.server.cancelled
    case CloseClient(d) => d in s.server.closed
    case ReceiverStops => s.protocol.receiver == Stopped
    case ProcessorStops => s.protocol.processor == Ended
    case CancelProtocol => s.protocol.cancelled
    case _ => true
  }

  lemma ShowsAtOnce(s: State, a: Action)
    requires Enabled(s, a)
    ensures Shows(Step(s, a), a)
  {}

  /** A goroutine that has ended takes no more steps: nothing is read from its client any more. */
  lemma GoneStays(s: State, a: Action, c: nat)
    requires Enabled(s, a) && c in s.clients && s.clients[c].phase == Gone
    ensures c in Step(s, a).clients
    ensures var k, k' := s.clients[c], Step(s, a).clients[c];
            k'.phase == Gone && k'.read == k.read && k'.dropped == k.dropped
  {
    OtherClient(s, a, c);
  }

  lemma LastingStep(s: State, a: Action)
    requires Enabled(s, a)
    ensures var t := Step(s, a);
            && s.server.failed <= t.server.failed && s.server.closed <= t.server.closed
            && s.clients.Keys <= t.clients.Keys
            && (forall d :: d in s.clients && d in t.server.live ==> d in s.server.live)
            && (s.server.cancelled ==> t.server.cancelled) && (s.protocol.cancelled ==> t.protocol.cancelled)
            && (s.protocol.receiver == Stopped ==> t.protocol.receiver == Stopped)
            && (s.protocol.processor == Ended ==> t.protocol.processor == Ended)
  {
    SetsStep(s, a);
    ClientsStep(s, a);
  }

  lemma ReadStays(s: State, a: Action, c: nat)
    requires Enabled(s, a) && c in s.clients
    ensures c in Step(s, a).clients && s.clients[c].read <= Step(s, a).clients[c].read
  {
    if !Takes(a, c) {
      OtherClient(s, a, c);
    }
  }

  lemma ShowsStays(s: State, a: Action, b: Action)
    requires Enabled(s, b) && Shows(s, a)
    ensures Shows(Step(s, b), a)
  {
    LastingStep(s, b);
    hide Step, Enabled;
    match a {
      case Read(c, body) =>
        ReadStays(s, b, c);
      case ReadFails(c) =>
        GoneStays(s, b, c);
      case ReaderStops(c) =>
        GoneStays(s, b, c);
      case DropOnCancel(c) =>
        GoneStays(s, b, c);
      case _ =>
    }
  }

  /** What was done stays done, in every run. */
  lemma {:induction false} ShowsRun(s: State, actions: seq<Action>, t: State, a: Action)
    requires Run(s, actions, t) && (a in actions || Shows(s, a))
    ensures Shows(t, a)
    decreases |actions|
  {
    hide Shows, Step, Enabled;
    if actions != [] {
      if Shows(s, a) {
        ShowsStays(s, a, actions[0]);
      } else if a == actions[0] {
        ShowsAtOnce(s, a);
      } else {
        assert a in actions[1..];
      }
      ShowsRun(Step(s, actions[0]), actions[1..], t, a);
    }
  }

  /** From a client whose reader has ended nothing is read any more, however the run goes on. */
  lemma {:induction false} ReadsNoMore(s: State, actions: seq<Action>, t: State, c: nat)
    requires Run(s, actions, t) && c in s.clients && s.clients[c].phase == Gone
    ensures c in t.clients && t.clients[c].phase == Gone && t.clients[c].read == s.clients[c].read
    ensures forall i :: 0 <= i < |actions| && actions[i].Read? ==> actions[i].c != c
    decreases |actions|
  {
    assert actions != [] && actions[0].Read? ==> actions[0].c != c;
    hide Step, Enabled;
    if actions != [] {
      GoneStays(s, actions[0], c);
      ReadsNoMore(Step(s, actions[0]), actions[1..], t, c);
    }
  }

  /** That is so after a read of it has failed. */
  lemma FailedReadIsLast(s: State, c: nat, actions: seq<Action>, t: State)
    requires Run(s, [ReadFails(c)] + actions, t)
    ensures c in s.clients && c in t.clients && t.clients[c].phase == Gone && t.clients[c].read == s.clients[c].read
    ensures forall i :: 0 <= i < |actions| && actions[i].Read? ==> actions[i].c != c
  {
    var all := [ReadFails(c)] + actions;
    assert all[0] == ReadFails(c) && all[1..] == actions;
    ReadsNoMore(Step(s, ReadFails(c)), actions, t, c);
  }

  /** The bodies that a run reads from a client. */
  function BodiesRead(actions: seq<Action>, c: nat): seq<Body> {
    if actions == [] then []
    else (if actions[0].Read? && actions[0].c == c then [actions[0].body] else []) + BodiesRead(actions[1..], c)
  }

  function ReadFrom(s: State, c: nat): seq<Body> { if c in s.clients then s.clients[c].read else [] }

  lemma ReadFromStep(s: State, a: Action, c: nat)
    requires Enabled(s, a)
    ensures ReadFrom(Step(s, a), c) == ReadFrom(s, c) + if a.Read? && a.c == c then [a.body] else []
  {
    if c in s.clients && !Takes(a, c) {
      OtherClient(s, a, c);
    } else {
      ClientsStep(s, a);
    }
  }

  /** What a client's books say was read is what the run read from it, in order. */
  lemma {:induction false} BooksTell(s: State, actions: seq<Action>, t: State, c: nat)
    requires Run(s, actions, t)
    ensures ReadFrom(t, c) == ReadFrom(s, c) + BodiesRead(actions, c)
    decreases |actions|
  {
    hide Step, Enabled, ReadFrom;
    if actions != [] {
      ReadFromStep(s, actions[0], c);
      BooksTell(Step(s, actions[0]), actions[1..], t, c);
    }
  }

  lemma {:induction false} RunSum(s: State, a: seq<Action>, t: State, b: seq<Action>, u: State)
    requires Run(s, a, t) && Run(t, b, u)
    ensures Run(s, a + b, u)
    decreases |a|
  {
    hide Step, Enabled;
    if a == [] {
      assert a + b == b;
    } else {
      assert (a + b)[0] == a[0] && (a + b)[1..] == a[1..] + b;
      RunSum(Step(s, a[0]), a[1..], t, b, u);
    }
  }

  /** Without a read a client's reader does not begin to relay. */
  lemma SameRelayStep(s: State, a: Action, c: nat)
    requires Enabled(s, a) && c in s.clients && !(a.Read? && a.c == c)
    ensures c in Step(s, a).clients
    ensures var k, k' := s.clients[c], Step(s, a).clients[c];
            k'.phase.Relaying? ==> k.phase.Relaying? && k.phase.todo == k'.phase.todo && k.phase.body == k'.phase.body
  {
    if !Takes(a, c) {
      OtherClient(s, a, c);
    }
  }

  lemma {:induction false} SameRelay(s: State, actions: seq<Action>, t: State, c: nat)
    requires Run(s, actions, t) && c in s.clients && BodiesRead(actions, c) == []
    ensures c in t.clients
    ensures var k, k' := s.clients[c], t.clients[c];
            k'.phase.Relaying? ==> k.phase.Relaying? && k.phase.todo == k'.phase.todo && k.phase.body == k'.phase.body
    decreases |actions|
  {
    hide Step, Enabled;
    if actions != [] {
      assert !(actions[0].Read? && actions[0].c == c) && BodiesRead(actions[1..], c) == [];
      SameRelayStep(s, actions[0], c);
      SameRelay(Step(s, actions[0]), actions[1..], t, c);
    }
  }

  /** When the relay of a message read from c ends, every other client connected at both times has it last from c. */
  lemma RelayReaches(before: seq<Action>, s: State, c: nat, body: Body, actions: seq<Action>, t: State, d: nat)
    requires Run(INITIAL, before, s) && Run(s, [Read(c, body)] + actions, t) && BodiesRead(actions, c) == []
    requires Enabled(t, RelayDone(c)) && d != c && d in s.server.live && d in t.server.live
    ensures d in t.clients
    ensures var got := Of(t.clients[d].relayed, c); got != [] && got[|got| - 1] == body
  {
    var all := [Read(c, body)] + actions;
    assert all[0] == Read(c, body) && all[1..] == actions;
    SameRelay(Step(s, Read(c, body)), actions, t, c);
    assert d in t.clients[c].phase.todo && t.clients[c].phase.body == body;
    hide Run, Step, Of, BodiesRead;
    RunSum(INITIAL, before, s, all, t);
    LiveIsKnown(before + all, t);
    RelayReachesAll(before + all, t, c, d);
  }

  lemma LiveIsKnown(actions: seq<Action>, t: State)
    requires Run(INITIAL, actions, t)
    ensures t.server.live <= t.clients.Keys
  {
    hide Run, Accounts, Loss, Senders, Bounded, Known, Held, Leaving, Of, Owes, Offered, Due;
    Reached(actions, t);
  }
}
