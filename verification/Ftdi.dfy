/**
 The FTDI side of lib/go/transport_ftdi.go: chunked writes, the packets they come back in, and
 delivery from one end to the other.
 */
module Ftdi {
  import opened Bytes
  import opened CrcTable
  import opened Codec
  import opened Encoder
  import opened Scan
  import opened IoReader
  import opened Endpoint
  import opened Positions
  import opened Course
  import opened Runs
  import opened Carrying
  import opened MessageReader
  import opened Receiving

  // ---------- Writing ----------

  /** The pieces a write is cut into: as long as possible, at most 62 bytes each. */
  function Chunks(data: seq<byte>): seq<seq<byte>> {
    if data == [] then []
    else if |data| <= MAX_DATA then [data]
    else [data[..MAX_DATA]] + Chunks(data[MAX_DATA..])
  }

  /** The pieces make up the data again, none is empty, and all but the last are full. */
  lemma {:induction false} ChunksCover(data: seq<byte>)
    ensures Concat(Chunks(data)) == data
    ensures forall i :: 0 <= i < |Chunks(data)| ==>
              1 <= |Chunks(data)[i]| <= 62 && (i < |Chunks(data)| - 1 ==> |Chunks(data)[i]| == 62)
  {
    if |data| > MAX_DATA {
      ChunksCover(data[MAX_DATA..]);
    } else if data != [] {
      assert [data][1..] == [];
    }
  }

  function Min(a: nat, b: nat): nat { if a <= b then a else b }

  /** What an endpoint takes of each chunk that takes at most answers[i] bytes of the i-th. */
  function Taken(chunks: seq<seq<byte>>, answers: seq<nat>): (sent: seq<seq<byte>>)
    requires |chunks| <= |answers|
    ensures |sent| == |chunks|
  {
    seq(|chunks|, i requires 0 <= i < |chunks| => chunks[i][..Min(|chunks[i]|, answers[i])])
  }

  ghost predicate TakesAll(chunks: seq<seq<byte>>, answers: seq<nat>)
    requires |chunks| <= |answers|
  {
    forall i :: 0 <= i < |chunks| ==> |chunks[i]| <= answers[i]
  }

  /** Nothing arrives complete unless every chunk was taken whole. */
  lemma {:induction false} TakenWhole(chunks: seq<seq<byte>>, answers: seq<nat>)
    requires |chunks| <= |answers|
    ensures |Concat(Taken(chunks, answers))| <= |Concat(chunks)|
    ensures |Concat(Taken(chunks, answers))| == |Concat(chunks)| <==> TakesAll(chunks, answers)
    ensures TakesAll(chunks, answers) ==> Taken(chunks, answers) == chunks
    decreases |chunks|
  {
    var sent := Taken(chunks, answers);
    if chunks == [] {
      assert sent == [];
    } else {
      var first, rest := sent[0], Taken(chunks[1..], answers[1..]);
      assert sent[1..] == rest;
      TakenWhole(chunks[1..], answers[1..]);
      TakesAllRest(chunks, answers);
      if TakesAll(chunks, answers) {
        assert first == chunks[0];
        assert sent == [first] + rest == [chunks[0]] + chunks[1..] == chunks;
      }
    }
  }

  lemma TakesAllRest(chunks: seq<seq<byte>>, answers: seq<nat>)
    requires 0 < |chunks| <= |answers|
    ensures TakesAll(chunks, answers) <==> |chunks[0]| <= answers[0] && TakesAll(chunks[1..], answers[1..])
  {
    if |chunks[0]| <= answers[0] && TakesAll(chunks[1..], answers[1..]) {
      forall i | 0 <= i < |chunks| ensures |chunks[i]| <= answers[i] {
        if i > 0 {
          assert chunks[1..][i - 1] == chunks[i] && answers[1..][i - 1] == answers[i];
        }
      }
    }
  }

  lemma FirstChunk(rest: seq<byte>)
    requires rest != []
    ensures var n := Min(|rest|, MAX_DATA);
            Chunks(rest) == [rest[..n]] + Chunks(rest[n..])
  {
    if |rest| <= MAX_DATA {
      assert rest[..|rest|] == rest && rest[|rest|..] == [];
    }
  }

  lemma TakenNext(done: seq<seq<byte>>, chunk: seq<byte>, answers: seq<nat>)
    requires |done| < |answers|
    ensures Taken(done + [chunk], answers) == Taken(done, answers) + [chunk[..Min(|chunk|, answers[|done|])]]
  {}

  /**
   writeChunked to an endpoint that answers so many writes without an error and then fails. The
   i-th chunk is counted as far as it was taken and given up as a whole, so that the call can
   succeed without having sent everything: its count, which WriteMessage drops, would tell.
   */
  method WriteChunked(data: seq<byte>, answers: seq<nat>) returns (sent: seq<seq<byte>>, written: nat, ok: bool)
    ensures ok <==> |Chunks(data)| <= |answers|
    ensures sent == Taken(Chunks(data)[..Min(|Chunks(data)|, |answers|)], answers)
    ensures written == |Concat(sent)|
    ensures ok ==> (Concat(sent) == data <==> TakesAll(Chunks(data), answers))
    ensures ok ==> (Concat(sent) == data <==> written == |data|)
  {
    hide Chunks, Taken, Concat, TakesAll;
    sent, written := [], 0;
    var rest := data;
    ghost var done: seq<seq<byte>> := [];
    NothingTaken(answers);
    while |rest| > 0
      invariant |done| == |sent| <= |answers| && Chunks(data) == done + Chunks(rest)
      invariant sent == Taken(done, answers) && written == |Concat(sent)|
      decreases |rest|
    {
      var chunkSize := MAX_DATA;
      if |rest| < chunkSize {
        chunkSize := |rest|;
      }
      FirstChunk(rest);
      if |sent| == |answers| {
        assert Chunks(data)[..|done|] == done;
        return sent, written, false;
      }
      var n := Min(chunkSize, answers[|sent|]);
      var chunk := rest[..chunkSize];
      TakenNext(done, chunk, answers);
      ConcatLast(sent, chunk[..n]);
      assert done + ([chunk] + Chunks(rest[chunkSize..])) == (done + [chunk]) + Chunks(rest[chunkSize..]);
      sent, done := sent + [chunk[..n]], done + [chunk];
      written := written + n;
      rest := rest[chunkSize..];
    }
    ok := true;
    NoChunks();
    assert Chunks(data) == done == Chunks(data)[..|done|];
    ChunksCover(data);
    TakenWhole(Chunks(data), answers);
  }

  lemma NoChunks()
    ensures Chunks([]) == []
  {}

  lemma NothingTaken(answers: seq<nat>)
    ensures Taken([], answers) == [] && Concat<byte>([]) == []
  {}

  // ---------- Packets ----------

  /** A packet of data behind any two status bytes. */
  ghost predicate PacketOf(e: UsbEvent, chunk: seq<byte>) {
    e.Packet? && |e.bytes| == |chunk| + 2 && e.bytes[2..] == chunk
  }

  /** A packet of status bytes only. */
  predicate Idle(e: UsbEvent) { e.Packet? && |e.bytes| <= 2 }

  /** The chunks in order, each in a packet of its own, with idle packets anywhere. */
  ghost predicate Trail(packets: seq<UsbEvent>, chunks: seq<seq<byte>>)
    decreases |packets|
  {
    if packets == [] then chunks == []
    else if Idle(packets[0]) then Trail(packets[1..], chunks)
    else chunks != [] && PacketOf(packets[0], chunks[0]) && Trail(packets[1..], chunks[1..])
  }

  /** The packets of one write: idle ones only in between. */
  ghost predicate Conveys(packets: seq<UsbEvent>, chunks: seq<seq<byte>>) {
    packets != [] && !Idle(packets[0]) && !Idle(packets[|packets| - 1]) && Trail(packets, chunks)
  }

  lemma {:induction false} TrailCarries(packets: seq<UsbEvent>, chunks: seq<seq<byte>>)
    requires Trail(packets, chunks)
    ensures Pending(StripAll(packets)) == Concat(chunks)
    ensures forall i :: 0 <= i < |packets| ==> StripAll(packets)[i].Data?
    decreases |packets|
  {
    if packets != [] {
      assert StripAll(packets)[1..] == StripAll(packets[1..]);
      TrailCarries(packets[1..], if Idle(packets[0]) then chunks else chunks[1..]);
      assert packets == [packets[0]] + packets[1..];
    }
  }

  lemma StripEnds(packets: seq<UsbEvent>)
    requires packets != [] && packets[0].Packet?
    ensures |StripAll(packets)[0].bytes| + STATUS_SIZE >= |packets[0].bytes|
    ensures var last := StripAll(packets)[|packets| - 1];
            last.Data? && !Idle(packets[|packets| - 1]) ==> last.bytes != []
  {}

  lemma FirstPacket(packets: seq<UsbEvent>, frame: seq<byte>)
    requires Conveys(packets, Chunks(frame)) && |frame| >= 12
    ensures packets[0].Packet? && |packets[0].bytes| >= 12 + STATUS_SIZE
  {
    assert PacketOf(packets[0], Chunks(frame)[0]);
  }

  /** The stripped packets of a chunked frame carry the frame. */
  lemma ConveyedFrameIsCarried(packets: seq<UsbEvent>, frame: seq<byte>)
    requires Conveys(packets, Chunks(frame)) && |frame| >= 12
    ensures Carries(StripAll(packets), frame)
  {
    hide Pending, Trail, Chunks, Concat;
    ChunksCover(frame);
    TrailCarries(packets, Chunks(frame));
    FirstPacket(packets, frame);
    StripEnds(packets);
    hide StripAll, Idle;
  }

  lemma {:induction false} TrailSum(p: seq<UsbEvent>, a: seq<seq<byte>>, q: seq<UsbEvent>, b: seq<seq<byte>>)
    requires Trail(p, a) && Trail(q, b)
    ensures Trail(p + q, a + b)
    decreases |p|
  {
    if p == [] {
      assert p + q == q && a + b == b;
    } else {
      assert (p + q)[1..] == p[1..] + q;
      if Idle(p[0]) {
        TrailSum(p[1..], a, q, b);
      } else {
        TrailSum(p[1..], a[1..], q, b);
        assert (a + b)[1..] == a[1..] + b;
      }
    }
  }

  ghost predicate AllIdle(packets: seq<UsbEvent>) {
    forall i :: 0 <= i < |packets| ==> Idle(packets[i])
  }

  lemma {:induction false} IdleTrail(packets: seq<UsbEvent>)
    requires AllIdle(packets)
    ensures Trail(packets, []) && PacketsFit(packets)
    decreases |packets|
  {
    if packets != [] {
      IdleTrail(packets[1..]);
    }
  }

  lemma PacketTrail(e: UsbEvent, chunk: seq<byte>)
    requires PacketOf(e, chunk) && chunk != []
    ensures Trail([e], [chunk])
  {
    assert [e][1..] == [] && [chunk][1..] == [];
  }

  predicate ChunksFit(chunks: seq<seq<byte>>) {
    forall i :: 0 <= i < |chunks| ==> 1 <= |chunks[i]| <= 62
  }

  /** The device: each chunk comes back behind two status bytes, with any idle packets in between. */
  method Loopback(chunks: seq<seq<byte>>, status: nat -> (byte, byte), idle: nat -> seq<UsbEvent>)
    returns (packets: seq<UsbEvent>)
    requires chunks != [] && ChunksFit(chunks) && forall i: nat :: AllIdle(idle(i))
    ensures Conveys(packets, chunks) && PacketsFit(packets)
  {
    hide Trail, AllIdle;
    packets := [Packet([status(0).0, status(0).1] + chunks[0])];
    PacketTrail(packets[0], chunks[0]);
    assert chunks[..1] == [chunks[0]];
    for k := 1 to |chunks|
      invariant packets != [] && !Idle(packets[0]) && !Idle(packets[|packets| - 1])
      invariant Trail(packets, chunks[..k]) && PacketsFit(packets)
    {
      var chunk := chunks[k];
      var packet := Packet([status(k).0, status(k).1] + chunk);
      IdleTrail(idle(k));
      TrailSum(packets, chunks[..k], idle(k), []);
      PacketTrail(packet, chunk);
      TrailSum(packets + idle(k), chunks[..k] + [], [packet], [chunk]);
      packets := packets + idle(k) + [packet];
      assert chunks[..k] + [] + [chunk] == chunks[..k + 1];
    }
    assert chunks[..|chunks|] == chunks;
  }

  // ---------- One end to the other ----------

  /** FTDITransport.WriteMessage on a healthy endpoint: encode, then write in chunks. */
  method Send(table: seq<bv32>, m: Message) returns (chunks: seq<seq<byte>>, ok: bool)
    requires IsTable(table) && Fits(m)
    ensures ok <==> m.topic != []
    ensures chunks == (if ok then Chunks(Frame(m)) else [])
    ensures ok ==> Concat(chunks) == Frame(m) && ChunksFit(chunks)
  {
    hide IsTable, Frame, Chunks, Concat;
    var encoded := Encode(table, m);
    if encoded.InvalidMessage? {
      return [], false;
    }
    ChunksCover(Frame(m));
    var healthy := seq(|Chunks(encoded.value)|, _ => MAX_DATA);
    assert TakesAll(Chunks(encoded.value), healthy);
    TakenWhole(Chunks(encoded.value), healthy);
    var written;
    chunks, written, ok := WriteChunked(encoded.value, healthy);
    assert Chunks(encoded.value)[..|Chunks(encoded.value)|] == Chunks(encoded.value);
  }

  /** The messages that are sent at all. */
  function Named(ms: seq<Message>): seq<Message> {
    if ms == [] then []
    else Named(ms[..|ms| - 1]) + if ms[|ms| - 1].topic == [] then [] else [ms[|ms| - 1]]
  }

  lemma NamedNext(ms: seq<Message>, k: nat)
    requires k < |ms|
    ensures Named(ms[..k + 1]) == Named(ms[..k]) + if ms[k].topic == [] then [] else [ms[k]]
  {
    assert ms[..k + 1][..k] == ms[..k];
  }

  // ---------- Which messages find room ----------

  /** How much of so many bytes comes before the last packet. */
  function BeforeLast(n: nat): (k: nat)
    ensures n > 0 ==> k < n <= k + 62 && k % 62 == 0
  {
    if n <= MAX_DATA then 0 else MAX_DATA + BeforeLast(n - MAX_DATA)
  }

  /** A frame of n bytes finds room: the buffer is empty for it, or all but its last packet end in the first half. */
  predicate Clear(count: nat, n: nat) { Packed(count) == 0 || Packed(count) + BeforeLast(n) <= 1024 }

  /** How many messages find room, one behind the other, before one does not. */
  function FindRoom(count: nat, ms: seq<Message>): (k: nat)
    requires AllFit(ms)
    ensures k <= |ms|
    decreases |ms|
  {
    if ms == [] || !Clear(count, |Frame(ms[0])|) then 0
    else 1 + FindRoom(Packed(count) + |Frame(ms[0])|, ms[1..])
  }

  lemma {:induction false} LastChunk(data: seq<byte>)
    requires data != []
    ensures Chunks(data) != [] && |Chunks(data)[|Chunks(data)| - 1]| == |data| - BeforeLast(|data|)
  {
    if |data| > MAX_DATA {
      LastChunk(data[MAX_DATA..]);
      assert Chunks(data)[1..] == Chunks(data[MAX_DATA..]);
    }
  }

  lemma {:induction false} LastPacket(packets: seq<UsbEvent>, chunks: seq<seq<byte>>)
    requires Trail(packets, chunks) && packets != [] && !Idle(packets[|packets| - 1])
    ensures chunks != [] && PacketOf(packets[|packets| - 1], chunks[|chunks| - 1])
    decreases |packets|
  {
    if |packets| > 1 {
      LastPacket(packets[1..], if Idle(packets[0]) then chunks else chunks[1..]);
    } else {
      assert packets[1..] == [];
    }
  }

  /** The reads of a conveyed frame find room exactly when the frame does. */
  lemma ClearIsRoomy(count: nat, packets: seq<UsbEvent>, frame: seq<byte>)
    requires Conveys(packets, Chunks(frame)) && |frame| >= 12
    ensures Carries(StripAll(packets), frame) && |StripAll(packets)[0].bytes| > 8
    ensures Roomy(count, StripAll(packets)) <==> Clear(count, |frame|)
  {
    hide Pending, Trail, Chunks, Concat, Carried;
    ConveyedFrameIsCarried(packets, frame);
    FirstPacket(packets, frame);
    LastPacket(packets, Chunks(frame));
    LastChunk(frame);
    var group := StripAll(packets);
    assert group[0] == Strip(packets[0]) && group[|group| - 1] == Strip(packets[|packets| - 1]);
    CarriedBounds(group, frame, |group|);
  }

  function StripGroups(usb: seq<seq<UsbEvent>>): (groups: seq<seq<Event>>)
    ensures |groups| == |usb|
  {
    seq(|usb|, i requires 0 <= i < |usb| => StripAll(usb[i]))
  }

  lemma {:induction false} StripConcat(usb: seq<seq<UsbEvent>>)
    ensures StripAll(Concat(usb)) == Concat(StripGroups(usb))
  {
    if usb != [] {
      StripConcat(usb[1..]);
      assert StripGroups(usb)[1..] == StripGroups(usb[1..]);
    }
  }

  /** The packets of each frame, one after the other. */
  ghost predicate AllConveyed(usb: seq<seq<UsbEvent>>, ms: seq<Message>)
    ensures AllConveyed(usb, ms) ==> |usb| == |ms| && AllSendable(ms)
  {
    && |usb| == |ms| && AllSendable(ms)
    && forall i :: 0 <= i < |ms| ==> Conveys(usb[i], Chunks(Frame(ms[i])))
  }

  lemma ConveyedAreCarried(usb: seq<seq<UsbEvent>>, ms: seq<Message>)
    requires AllConveyed(usb, ms)
    ensures AllCarried(StripGroups(usb), ms) && Ample(StripGroups(usb))
  {
    hide Frame, Conveys, Chunks, Pending;
    var groups := StripGroups(usb);
    forall i | 0 <= i < |ms| ensures Carries(groups[i], Frame(ms[i])) && |groups[i][0].bytes| > 8 {
      ClearIsRoomy(0, usb[i], Frame(ms[i]));
    }
  }

  lemma {:induction false} FindRoomIsArriving(count: nat, usb: seq<seq<UsbEvent>>, ms: seq<Message>)
    requires AllConveyed(usb, ms)
    ensures Arriving(count, StripGroups(usb)) == FindRoom(count, ms)
    decreases |usb|
  {
    hide Frame, Conveys, Carries, Chunks, Pending, Clear, Roomy;
    if ms != [] {
      ClearIsRoomy(count, usb[0], Frame(ms[0]));
      assert StripGroups(usb)[1..] == StripGroups(usb[1..]);
      CarriedFrame(StripAll(usb[0]), Frame(ms[0]));
      FindRoomIsArriving(Packed(count) + |Frame(ms[0])|, usb[1..], ms[1..]);
    }
  }

  lemma CarriedFrame(group: seq<Event>, frame: seq<byte>)
    requires Carries(group, frame)
    ensures group != [] && Pending(group) == frame
  {}

  // ---------- Receiving ----------

  /**
   The packets of any number of messages, idle ones only within frames, read by a MessageReader
   through the endpointReader: the messages that find room are returned in order. If all do,
   exactly they are returned, and then the end of the source; if one does not, it never is.
   */
  method ReceivePackets(r: MessageReader, ghost usb: seq<seq<UsbEvent>>, ghost ms: seq<Message>)
    returns (got: seq<Message>, last: Answer)
    requires AllConveyed(usb, ms) && r.Valid() && r.pos == r.count && r.script == StripAll(Concat(usb))
    modifies r, r.buffer, r.source.repr
    ensures r.Valid() && r.Stream() == old(r.Stream())
    ensures got == LogMessages(old(r.Rest()).got) && last == old(r.Rest()).answer && r.log == old(r.log + r.Rest().got)
    ensures var k, all := FindRoom(old(r.count), ms), FramesFrom(r.Stream(), old(r.Position()));
            && LogMessages(all) == ms && ms[..k] <= got
            && (if k == |ms| then got == ms && last == Failed(EOF) && r.skips == old(r.skips)
                else r.skips > old(r.skips) && all[k] !in old(r.Rest()).got)
  {
    hide Pending, FramesFrom, Running, Harmless, MessageReader.Valid, MessageReader.Stream, Concat, Frame;
    hide AllCarried, AllConveyed, Arriving, FindRoom, LogMessages, Ample, StripAll, StripGroups;
    StripConcat(usb);
    ConveyedAreCarried(usb, ms);
    FindRoomIsArriving(r.count, usb, ms);
    got, last := ReceiveCarried(r, StripGroups(usb), ms);
  }

  /**
   Any packets that carry frames in chunks, with idle packets anywhere: a run that does not skip
   and whose calls all start where the scan is as good returns exactly the messages of the
   frames, and then the end of the source. Without rewinds they all do.
   */
  method ReceiveTrail(r: MessageReader, ghost packets: seq<UsbEvent>, ghost chunks: seq<seq<byte>>,
                      ghost ms: seq<Message>)
    returns (got: seq<Message>, last: Answer)
    requires Trail(packets, chunks) && AllSendable(ms) && Concat(chunks) == Frames(ms)
    requires r.Valid() && r.pos == r.count && r.script == StripAll(packets)
    modifies r, r.buffer, r.source.repr
    ensures r.Valid() && r.Stream() == old(r.Stream())
    ensures got == LogMessages(old(r.Rest()).got) && last == old(r.Rest()).answer && r.log == old(r.log + r.Rest().got)
    ensures r.skips == old(r.skips + |r.Rest().jumps|) && r.rewinds == old(r.rewinds + r.Rest().rewinds)
    ensures r.skips == old(r.skips) && old(r.Straight()) ==> got == ms && last == Failed(EOF)
    ensures r.rewinds == old(r.rewinds) ==> old(r.Straight())
    ensures last.Failed? && r.skips == old(r.skips) ==>
              (old(r.Rest()).got == FramesFrom(r.Stream(), old(r.Position())) <==> old(r.Straight()))
  {
    hide Concat, Trail, Frames, Harmless, Running, FramesFrom, LogMessages, MessageReader.Valid, Pending, StripAll;
    TrailCarries(packets, chunks);
    RestIs(r);
    ghost var s, g := r.Stream(), r.Here();
    assert !HasError(r.script);
    hide HasError;
    if r.Rest().jumps == [] && r.Straight() {
      TrailEnds(s, g, ms);
    }
    got, last := Drain(r);
  }

  lemma TrailEnds(s: seq<byte>, g: Stage, ms: seq<Message>)
    requires Holds(s, g) && g.pos == g.count && AllSendable(ms) && Pending(g.script) == Frames(ms)
    requires !HasError(g.script) && Running(s, g).jumps == [] && Harmless(s, g)
    ensures LogMessages(Running(s, g).got) == ms && Running(s, g).answer == Failed(EOF)
  {
    hide Frames, Harmless, Running, FramesFrom, LogMessages, Messages, Pending, HasError;
    assert Near(s, g, g.Position(), ms);
    FramesEnd(s, g, g.Position(), ms);
    RunCode(s, g);
    HarmlessIff(s, g);
    FramesFromMessages(s, g.Position());
    MessagesOfFrames(ms);
  }

  // ---------- One end to the other, in whole ----------

  lemma {:induction false} ConcatFits(usb: seq<seq<UsbEvent>>)
    requires forall i :: 0 <= i < |usb| ==> PacketsFit(usb[i])
    ensures PacketsFit(Concat(usb))
  {
    if usb != [] {
      ConcatFits(usb[1..]);
      assert Concat(usb) == usb[0] + Concat(usb[1..]);
    }
  }

  /** Every message with a topic is encoded, cut into chunks and comes back in packets. */
  method SendAll(table: seq<bv32>, ms: seq<Message>, status: (nat, nat) -> (byte, byte),
                 idle: (nat, nat) -> seq<UsbEvent>)
    returns (usb: seq<seq<UsbEvent>>)
    requires IsTable(table) && AllSendable(ms) && forall i: nat, j: nat :: AllIdle(idle(i, j))
    ensures AllConveyed(usb, Named(ms)) && PacketsFit(Concat(usb))
  {
    hide IsTable, Frame, Chunks, Concat, Named, Conveys, AllIdle, PacketsFit;
    usb := [];
    NothingSent();
    for k := 0 to |ms|
      invariant AllConveyed(usb, Named(ms[..k])) && forall i :: 0 <= i < |usb| ==> PacketsFit(usb[i])
    {
      var chunks, ok := Send(table, ms[k]);
      NamedNext(ms, k);
      if ok {
        SomeChunks(Frame(ms[k]));
        var packets := Loopback(chunks, (j: nat) => status(k, j), (j: nat) => idle(k, j));
        usb := usb + [packets];
      } else {
        assert Named(ms[..k]) + [] == Named(ms[..k]);
      }
    }
    assert ms[..|ms|] == ms;
    ConcatFits(usb);
  }

  lemma NothingSent()
    ensures Named([]) == []
  {}

  lemma SomeChunks(data: seq<byte>)
    requires data != []
    ensures Chunks(data) != []
  {}

  method NewReader(table: seq<bv32>, packets: seq<UsbEvent>) returns (r: MessageReader)
    requires IsTable(table) && PacketsFit(packets)
    ensures r.Valid() && fresh(r) && fresh(r.buffer) && fresh(r.source.repr)
    ensures r.Here() == Start(StripAll(packets)) && r.Stream() == Pending(StripAll(packets))
    ensures r.log == [] && r.skips == r.rewinds == 0
  {
    hide IsTable, PacketsFit, StripAll, Pending, MessageReader.Valid;
    var endpoint := new EndpointReader(packets);
    var source := new Source.Endpoint(endpoint);
    r := new MessageReader(table, source);
  }

  /**
   Messages written over FTDI, encoded, cut into chunks, wrapped in packets with idle packets
   within frames, stripped and reassembled: those with a topic that find room are returned in
   order, and if all do, exactly they are, followed by the end of the source.
   */
  method EndToEnd(table: seq<bv32>, ms: seq<Message>, status: (nat, nat) -> (byte, byte),
                  idle: (nat, nat) -> seq<UsbEvent>)
    returns (got: seq<Message>, last: Answer, ghost usb: seq<seq<UsbEvent>>)
    requires IsTable(table) && forall i :: 0 <= i < |ms| ==> |ms[i].topic| <= 64 && |ms[i].payload| <= 1024
    requires forall i: nat, j: nat :: AllIdle(idle(i, j))
    ensures AllConveyed(usb, Named(ms)) && Named(ms)[..FindRoom(0, Named(ms))] <= got
    ensures FindRoom(0, Named(ms)) == |Named(ms)| ==> got == Named(ms) && last == Failed(EOF)
    ensures var script, k := StripAll(Concat(usb)), FindRoom(0, Named(ms));
            && Holds(Pending(script), Start(script))
            && var run, all := Running(Pending(script), Start(script)), FramesFrom(Pending(script), 0);
               && got == LogMessages(run.got) && last == run.answer && LogMessages(all) == Named(ms)
               && (k < |Named(ms)| ==> all[k] !in run.got)
  {
    hide IsTable, Concat, Named, AllConveyed, PacketsFit, FindRoom, StripAll, Pending, Running, Harmless, FramesFrom;
    hide LogMessages, MessageReader.Valid, AllIdle;
    var packets := SendAll(table, ms, status, idle);
    usb := packets;
    StartHolds(StripAll(Concat(usb)));
    var r := NewReader(table, Concat(packets));
    RestIs(r);
    got, last := ReceivePackets(r, usb, Named(ms));
  }

  /** Not all messages find room: behind a first frame, one whose last packet but one ends in the second half. */
  lemma SecondFindsNone(m1: Message, m2: Message)
    requires Sendable(m1) && Sendable(m2) && |Frame(m1)| <= 1024 < |Frame(m1)| + BeforeLast(|Frame(m2)|)
    ensures FindRoom(0, [m1, m2]) == 1
  {
    hide Frame;
    assert [m1, m2][1..] == [m2];
  }

  lemma {:induction false} SmallFindRoom(count: nat, ms: seq<Message>)
    requires AllFit(ms) && count + |Frames(ms)| <= 1024
    ensures FindRoom(count, ms) == |ms|
    decreases |ms|
  {
    hide Frame;
    if ms != [] {
      SmallFindRoom(count + |Frame(ms[0])|, ms[1..]);
    }
  }

  lemma {:induction false} PacketsFindRoom(count: nat, ms: seq<Message>)
    requires AllFit(ms) && forall i :: 0 <= i < |ms| ==> |Frame(ms[i])| <= 62
    ensures FindRoom(count, ms) == |ms|
    decreases |ms|
  {
    hide Frame;
    if ms != [] {
      PacketsFindRoom(Packed(count) + |Frame(ms[0])|, ms[1..]);
    }
  }

  /** In particular, frames of not more than 1024 bytes in all find room. */
  method EndToEndSmall(table: seq<bv32>, ms: seq<Message>, usb: seq<seq<UsbEvent>>)
    returns (got: seq<Message>, last: Answer)
    requires IsTable(table) && AllConveyed(usb, ms) && |Frames(ms)| <= 1024 && PacketsFit(Concat(usb))
    ensures got == ms && last == Failed(EOF)
  {
    hide IsTable, Concat, AllConveyed, PacketsFit, StripAll, Pending, Running, FramesFrom, LogMessages;
    hide MessageReader.Valid, FindRoom, Frames;
    SmallFindRoom(0, ms);
    var r := NewReader(table, Concat(usb));
    got, last := ReceivePackets(r, usb, ms);
  }

  /** And so do any number of frames that fit in a packet each. */
  method EndToEndPackets(table: seq<bv32>, ms: seq<Message>, usb: seq<seq<UsbEvent>>)
    returns (got: seq<Message>, last: Answer)
    requires IsTable(table) && AllConveyed(usb, ms) && PacketsFit(Concat(usb))
    requires forall i :: 0 <= i < |ms| ==> |Frame(ms[i])| <= 62
    ensures got == ms && last == Failed(EOF)
  {
    hide IsTable, Concat, AllConveyed, PacketsFit, StripAll, Pending, Running, FramesFrom, LogMessages;
    hide MessageReader.Valid, FindRoom, Frame;
    PacketsFindRoom(0, ms);
    var r := NewReader(table, Concat(usb));
    got, last := ReceivePackets(r, usb, ms);
  }
}
