/**
 Runs in which the MessageReader does not do what the leftmost scan of the same bytes does: a
 frame it loses, a message it makes up, and a call that never returns.
 */
module Anomalies {
  import opened Bytes
  import opened Crc32
  import opened CrcTable
  import opened CrcDetection
  import opened Codec
  import opened Scan
  import opened IoReader
  import opened Endpoint
  import opened Positions
  import opened Course
  import opened Runs
  import opened MessageReader
  import opened Receiving

  // ---------- A frame that is lost ----------

  /** Two frames in two reads, the first of which ends inside the second frame. */
  function TwoReads(m1: Message, m2: Message, cut: nat): seq<Event>
    requires Sendable(m1) && Sendable(m2) && cut <= |Frame(m2)|
  {
    [Data(Frame(m1) + Frame(m2)[..cut]), Data(Frame(m2)[cut..])]
  }

  /** Where the first message has been returned. */
  function Between(m1: Message, m2: Message, cut: nat): Stage
    requires Sendable(m1) && Sendable(m2) && cut <= |Frame(m2)|
  {
    Stage(0, |Frame(m1)|, |Frame(m1)| + cut, [Data(Frame(m2)[cut..])])
  }

  lemma BetweenHolds(m1: Message, m2: Message, cut: nat)
    requires Sendable(m1) && Sendable(m2) && cut <= |Frame(m2)| && |Frame(m1)| + cut <= BUFFER_SIZE
    ensures Pending(TwoReads(m1, m2, cut)) == Frame(m1) + Frame(m2)
    ensures Holds(Frame(m1) + Frame(m2), Between(m1, m2, cut))
  {
    hide Frame;
    var f1, f2 := Frame(m1), Frame(m2);
    var last := [Data(f2[cut..])];
    assert last[1..] == [] && TwoReads(m1, m2, cut)[1..] == last;
    assert Pending(last) == f2[cut..];
    assert (f1 + f2[..cut]) + f2[cut..] == f1 + f2;
    assert (f1 + f2)[|f1| + cut..] == f2[cut..];
  }

  lemma FirstReturned(m1: Message, m2: Message, cut: nat)
    requires Sendable(m1) && Sendable(m2) && cut <= |Frame(m2)| && |Frame(m1)| + cut <= BUFFER_SIZE
    ensures var s, g := Frame(m1) + Frame(m2), Start(TwoReads(m1, m2, cut));
            && Holds(s, g)
            && Turning(s, g) == Result(Delivered(m1), [Delivery(0, |Frame(m1)|, m1)], Between(m1, m2, cut), [], 0)
  {
    hide Frame, Pending, Judge, Weight;
    var s, script := Frame(m1) + Frame(m2), TwoReads(m1, m2, cut);
    BetweenHolds(m1, m2, cut);
    StartHolds(script);
    FetchedHolds(s, Start(script));
    ReadHead(script, BUFFER_SIZE);
    var h := Start(script).Fetched();
    assert View(s, h, 0)[..|Frame(m1)|] == Frame(m1);
    FoundIff(View(s, h, 0), |Frame(m1)|, m1);
  }

  /** The wait for the rest of the second frame moves its bytes, and the loop's cursor ends up behind them. */
  lemma SecondLost(m1: Message, m2: Message, cut: nat)
    requires Sendable(m1) && Sendable(m2) && 8 <= cut < |Frame(m2)| < |Frame(m1)| + 8
    requires HALF < |Frame(m1)| + cut <= BUFFER_SIZE
    ensures var s, g := Frame(m1) + Frame(m2), Between(m1, m2, cut);
            Holds(s, g) && Last(Turning(s, g)) && Turning(s, g).answer == Failed(EOF) && Turning(s, g).got == []
  {
    hide Frame, Pending, Judge, Weight;
    var s, g := Frame(m1) + Frame(m2), Between(m1, m2, cut);
    BetweenHolds(m1, m2, cut);
    assert View(s, g, g.pos) == Frame(m2)[..cut];
    PartialFrame(m2, cut);
    ReadHead(g.script, g.Space());
    hide Read;
    assert Turning(s, g) == Hunting(s, g, g.pos);
    WaitsOn(s, g, g.pos);
    BehindLast(s, g.Fetched(), g.pos);
  }

  lemma BehindLast(s: seq<byte>, g: Stage, at: nat)
    requires Holds(s, g) && g.script == [] && at + 8 > g.count
    ensures var t := Hunting(s, g, at); t.answer == Failed(EOF) && t.got == [] && t.end.script == []
  {
    hide Pending, Weight;
    ReadPastEnd(g.(pos := KeptFrom(g.count)).Space());
  }

  /**
   The first read ends inside the second frame, more than 1024 bytes are then buffered, and the
   second frame is not more than 7 bytes longer than the first: the compaction moves its bytes
   but not the scan position, which ends up behind all of them. The whole run returns only m1.
   */
  method LosesFrame(table: seq<bv32>, m1: Message, m2: Message, cut: nat) returns (got: seq<Message>, last: Answer)
    requires IsTable(table)
    requires |m1.topic| <= 64 && |m1.payload| <= 1024 && |m2.topic| <= 64 && |m2.payload| <= 1024
    requires 8 <= cut < |Frame(m2)| < |Frame(m1)| + 8
    requires 1024 < |Frame(m1)| + cut <= 2048
    ensures Messages(Frame(m1) + Frame(m2)) == [m1, m2]
    ensures got == [m1] && last == Failed(EOF)
  {
    hide MessageReader.Valid, Pending, Frame, Messages, Turning, Running, Harmless, FramesFrom;
    TwoFrames(m1, m2);
    ghost var s, script := Frame(m1) + Frame(m2), TwoReads(m1, m2, cut);
    var source := new Source.Connection(TwoReads(m1, m2, cut));
    var r := new MessageReader(table, source);
    BetweenHolds(m1, m2, cut);
    FirstReturned(m1, m2, cut);
    SecondLost(m1, m2, cut);
    RunningUnfolds(s, Start(script));
    RunningUnfolds(s, Between(m1, m2, cut));
    assert r.Stream() == s && r.Here() == Start(script);
    got, last := Drain(r);
  }

  lemma TwoFrames(m1: Message, m2: Message)
    requires Sendable(m1) && Sendable(m2)
    ensures Messages(Frame(m1) + Frame(m2)) == [m1, m2]
  {
    hide Frame, Messages;
    MessagesOfFrames([m1, m2]);
    assert [m1, m2][1..] == [m2] && [m2][1..] == [];
    assert Frames([m2]) == Frame(m2) + [] == Frame(m2);
  }

  // ---------- A call that never returns ----------

  /** 2040 bytes none of which can start a frame, and then a plausible header. */
  ghost predicate PlausibleAtLast(w: seq<byte>) {
    && |w| == 2048
    && (forall i :: 0 <= i < 2040 ==> w[i] as nat > 64)
    && TopicLength(w[2040..]) <= 64 && PayloadLength(w[2040..]) <= 1024
  }

  lemma {:induction false} GarbageStalls(w: seq<byte>, from: nat)
    requires PlausibleAtLast(w) && from <= 2040
    ensures Stalls(w, from)
    decreases |w| - from
  {
    hide ChecksumHolds;
    if from < 2040 {
      assert w[from..][0] == w[from];
      GarbageStalls(w, from + 1);
    }
  }

  lemma GarbageSpins(w: seq<byte>, more: seq<Event>)
    requires PlausibleAtLast(w)
    ensures var script := [Data(w)] + more;
            && Holds(Pending(script), Start(script))
            && Turning(Pending(script), Start(script)).answer == Spins
  {
    hide Pending, Judge, Weight, Stalls, Turning;
    var script := [Data(w)] + more;
    var s, g := Pending(script), Start(script);
    StartHolds(script);
    FetchedHolds(s, g);
    ReadHead(script, BUFFER_SIZE);
    GarbageStalls(w, 0);
    assert View(s, g.Fetched(), 0) == w by { DataFirst(w, more); }
    SpinsAtOnce(s, g);
  }

  lemma DataFirst(w: seq<byte>, more: seq<Event>)
    ensures |w| <= |Pending([Data(w)] + more)| && Pending([Data(w)] + more)[..|w|] == w
  {}

  /** One full read of such bytes, whatever comes after it, and ReadMessage does not return. */
  method NeverReturns(table: seq<bv32>, w: seq<byte>, more: seq<Event>) returns (first: Answer)
    requires IsTable(table) && PlausibleAtLast(w)
    ensures first == Spins
  {
    hide MessageReader.Valid, PlausibleAtLast, Turning, FramesFrom, Weight, Pending;
    GarbageSpins(w, more);
    var source := new Source.Connection([Data(w)] + more);
    var r := new MessageReader(table, source);
    assert r.Stream() == Pending([Data(w)] + more);
    first := r.ReadMessage();
  }

  // ---------- A message that is made up ----------

  /** The last byte of the first frame could be the first byte of the second. */
  ghost predicate Overlap(m1: Message, m2: Message) {
    && |m1.topic| <= 64 && |m1.payload| <= 1024 && |m2.topic| <= 64 && |m2.payload| <= 1024
    && Frame(m1)[|Frame(m1)| - 1] == Frame(m2)[0]
  }

  /** The first frame and all but the first byte of the second. */
  function Overlapping(m1: Message, m2: Message): seq<Event>
    requires Sendable(m1) && Sendable(m2)
  {
    [Data(Frame(m1)), Data(Frame(m2)[1..8]), Data(Frame(m2)[8..])]
  }

  lemma RestOfOverlapping(m1: Message, m2: Message)
    requires Sendable(m1) && Sendable(m2)
    ensures Pending(Overlapping(m1, m2)[1..]) == Frame(m2)[1..]
  {
    hide Frame;
    var f2 := Frame(m2);
    var rest, last := [Data(f2[1..8]), Data(f2[8..])], [Data(f2[8..])];
    assert Overlapping(m1, m2)[1..] == rest && rest[1..] == last && last[1..] == [];
    assert Pending(last) == f2[8..];
    assert Pending(rest) == f2[1..8] + f2[8..] == f2[1..];
  }

  lemma OverlappingStream(m1: Message, m2: Message)
    requires Overlap(m1, m2)
    ensures var n, s := |Frame(m1)|, Pending(Overlapping(m1, m2));
            && s == Frame(m1) + Frame(m2)[1..] && s[n - 1..] == Frame(m2)
            && FramesFrom(s, 0) == [Delivery(0, n, m1)] + FramesFrom(s, n)
            && FramesFrom(s, n - 1) == [Delivery(n - 1, |Frame(m2)|, m2)] + FramesFrom(s, n - 1 + |Frame(m2)|)
  {
    hide Frame, FramesFrom;
    var f1, f2 := Frame(m1), Frame(m2);
    var s := Pending(Overlapping(m1, m2));
    RestOfOverlapping(m1, m2);
    assert s == f1 + f2[1..];
    assert s[0..] == Frame(m1) + f2[1..];
    FramesFromAligned(s, 0, m1, f2[1..]);
    assert s[|f1| - 1..] == [f1[|f1| - 1]] + f2[1..] == f2 == f2 + [];
    FramesFromAligned(s, |f1| - 1, m2, []);
  }

  /** No scan of these bytes starts a frame inside the first one. */
  lemma ScanDiffers(m1: Message, m2: Message)
    requires Overlap(m1, m2)
    ensures var n, s := |Frame(m1)|, Pending(Overlapping(m1, m2));
            FramesFrom(s, n - 1) != FramesFrom(s, n) &&
            forall d :: d in FramesFrom(s, 0) ==> d == Delivery(0, n, m1) || d.start >= n
  {
    hide Frame, FramesFrom, Overlapping, Pending;
    OverlappingStream(m1, m2);
    var n, s := |Frame(m1)|, Pending(Overlapping(m1, m2));
    FramesStartLater(s, n);
    assert FramesFrom(s, n - 1)[0].start == n - 1;
  }

  /** Once all bytes are read, no event of the source is left. */
  lemma OverlappingEnd(m1: Message, m2: Message, script: seq<Event>)
    requires Sendable(m1) && Sendable(m2) && Suffix(script, Overlapping(m1, m2)[1..]) && Pending(script) == []
    ensures script == []
  {
    hide Frame;
    if script != [] {
      assert Frame(m2)[8..] != [];
      assert script[|script| - 1] == Data(Frame(m2)[8..]);
      PendingLast(script);
    }
  }

  lemma PendingLast(script: seq<Event>)
    requires script != [] && script[|script| - 1].Data? && script[|script| - 1].bytes != []
    ensures Pending(script) != []
  {
    var n := |script| - 1;
    assert script == script[..n] + [script[n]];
    PendingConcat(script[..n], [script[n]]);
    assert [script[n]][1..] == [];
  }

  /** Where the first message has been returned and seven bytes of the second frame will come. */
  function Behind(m1: Message, m2: Message): Stage
    requires Sendable(m1) && Sendable(m2)
  {
    Stage(0, |Frame(m1)|, |Frame(m1)|, Overlapping(m1, m2)[1..])
  }

  lemma BehindHolds(m1: Message, m2: Message)
    requires Overlap(m1, m2) && |Frame(m1)| + |Frame(m2)| <= 1024
    ensures var s, g := Pending(Overlapping(m1, m2)), Behind(m1, m2);
            Holds(s, g) && |s| == |Frame(m1)| + |Frame(m2)| - 1 && !HasError(g.script)
  {
    hide Frame, Pending, FramesFrom;
    OverlappingStream(m1, m2);
    RestOfOverlapping(m1, m2);
    assert (Frame(m1) + Frame(m2)[1..])[|Frame(m1)|..] == Frame(m2)[1..];
  }

  lemma FirstTaken(m1: Message, m2: Message)
    requires Overlap(m1, m2) && |Frame(m1)| + |Frame(m2)| <= 1024
    ensures var s, g := Pending(Overlapping(m1, m2)), Start(Overlapping(m1, m2));
            && Holds(s, g)
            && Turning(s, g) == Result(Delivered(m1), [Delivery(0, |Frame(m1)|, m1)], Behind(m1, m2), [], 0)
  {
    hide Frame, Pending, Judge, Weight, FramesFrom, HasError;
    var script := Overlapping(m1, m2);
    var s := Pending(script);
    BehindHolds(m1, m2);
    OverlappingStream(m1, m2);
    StartHolds(script);
    FetchedHolds(s, Start(script));
    ReadHead(script, BUFFER_SIZE);
    var h := Start(script).Fetched();
    assert View(s, h, 0)[..|Frame(m1)|] == Frame(m1);
    FoundIff(View(s, h, 0), |Frame(m1)|, m1);
  }

  /** The second call goes back by one byte, and finds a frame there. */
  lemma SecondMadeUp(m1: Message, m2: Message)
    requires Overlap(m1, m2) && |Frame(m1)| + |Frame(m2)| <= 1024
    ensures var s, g := Pending(Overlapping(m1, m2)), Behind(m1, m2);
            && Holds(s, g) && WillRewind(g) && Origin(g) == |Frame(m1)| - 1
            && var t := Turning(s, g);
               && t.answer == Delivered(m2) && t.got == [Delivery(|Frame(m1)| - 1, |Frame(m2)|, m2)]
               && Holds(s, t.end) && t.end.script == [] && t.end.pos == t.end.count
  {
    hide Frame, Pending, Judge, Weight, FramesFrom, HasError, Turning, Genuine;
    var s, g := Pending(Overlapping(m1, m2)), Behind(m1, m2);
    BehindHolds(m1, m2);
    OverlappingStream(m1, m2);
    ReadHead(g.script, g.Space());
    assert WillRewind(g) && Origin(g) == |Frame(m1)| - 1;
    hide Read, WillRewind, Origin;
    RunningUnfolds(s, g);
    SmallTurning(s, g);
    EmptyPending();
    var t := Turning(s, g);
    assert t.jumps == [] && t.answer.Delivered?;
    assert t.got[0] == FramesFrom(s, |Frame(m1)| - 1)[0];
    assert t.got == [t.got[0]];
    OverlappingEnd(m1, m2, t.end.script);
  }

  lemma AllRead(s: seq<byte>, g: Stage)
    requires Holds(s, g) && g.pos == g.count && g.script == []
    ensures var t := Turning(s, g); Last(t) && t.answer == Failed(EOF) && t.got == []
  {
    hide Pending, Weight;
    ReadPastEnd(g.Space());
  }

  lemma OverlapRun(m1: Message, m2: Message)
    requires Overlap(m1, m2) && |Frame(m1)| + |Frame(m2)| <= 1024
    ensures var s, g := Pending(Overlapping(m1, m2)), Start(Overlapping(m1, m2));
            && Holds(s, g) && Running(s, g).answer == Failed(EOF)
            && Running(s, g).got == [Delivery(0, |Frame(m1)|, m1), Delivery(|Frame(m1)| - 1, |Frame(m2)|, m2)]
            && Running(s, g).got[1] !in FramesFrom(s, 0)
  {
    hide FramesFrom, Pending, Frame, Overlapping, Turning, Running, Harmless, Tracks, Stays, Proper, WillRewind, Origin;
    ScanDiffers(m1, m2);
    var s, g := Pending(Overlapping(m1, m2)), Start(Overlapping(m1, m2));
    FirstTaken(m1, m2);
    SecondMadeUp(m1, m2);
    RunningUnfolds(s, g);
    RunningUnfolds(s, Behind(m1, m2));
    var end := Turning(s, Behind(m1, m2)).end;
    AllRead(s, end);
    RunningUnfolds(s, end);
  }

  /**
   A read that ends 7 bytes behind a returned frame sends the reader back into that frame. What
   it then returns starts with the last byte of the frame, where no scan of the stream looks.
   */
  method MakesUpMessage(table: seq<bv32>, m1: Message, m2: Message) returns (got: seq<Message>, last: Answer)
    requires IsTable(table) && Overlap(m1, m2) && |Frame(m1)| + |Frame(m2)| <= 1024
    ensures got == [m1, m2] && last == Failed(EOF)
    ensures var s, g := Pending(Overlapping(m1, m2)), Start(Overlapping(m1, m2));
            && Holds(s, g)
            && Running(s, g).got == [Delivery(0, |Frame(m1)|, m1), Delivery(|Frame(m1)| - 1, |Frame(m2)|, m2)]
            && Running(s, g).got[1] !in FramesFrom(s, 0)
  {
    hide MessageReader.Valid, FramesFrom, Pending, Frame, Overlapping, Running, Harmless;
    OverlapRun(m1, m2);
    ghost var s, script := Pending(Overlapping(m1, m2)), Overlapping(m1, m2);
    var source := new Source.Connection(Overlapping(m1, m2));
    var r := new MessageReader(table, source);
    assert r.Stream() == s && r.Here() == Start(script);
    got, last := Drain(r);
  }

  // ---------- Two messages that overlap ----------

  const S_TOPIC: Message := Message([83], [])

  lemma Advance(c: bv32, b: byte, rest: seq<byte>)
    ensures Divide(c, BitsOf([b] + rest)) == Divide(Shifts(Xor(c, ToBits(b) as bv32), 8), BitsOf(rest))
  {
    hide Divide, BitsOfByte, Shifts, Xor, ToBits;
    assert ([b] + rest)[1..] == rest;
    DivideConcat(c, BitsOfByte(b), BitsOf(rest));
    DivideByte(c, b);
  }

  lemma Register0() ensures Shifts(0xFFFFFFFE, 8) == 0x5AFA20E4 {}
  lemma Register1() ensures Shifts(0x5AFA20E4, 8) == 0xA73DDC41 {}
  lemma Register2() ensures Shifts(0xA73DDC41, 8) == 0x017C4CDA {}
  lemma Register3() ensures Shifts(0x017C4CDA, 8) == 0x66074786 {}
  lemma Register4() ensures Shifts(0x66074786, 8) == 0x04BD2152 {}
  lemma Register5() ensures Shifts(0x04BD2152, 8) == 0x85618DF9 {}
  lemma Register6() ensures Shifts(0x85618DF9, 8) == 0xC4E42B35 {}
  lemma Register7() ensures Shifts(0xC4E42B35, 8) == 0x56772008 {}
  lemma Register8() ensures Shifts(0x5677205B, 8) == 0xFCEFFF5C {}

  lemma FedBytes()
    ensures Xor(ALL_ONES, ToBits(1) as bv32) == 0xFFFFFFFE && Xor(0x56772008, ToBits(83) as bv32) == 0x5677205B
  {}

  lemma FedZero(c: bv32)
    ensures Xor(c, ToBits(0) as bv32) == c
  {}

  lemma NoBits(c: bv32)
    ensures Divide(c, BitsOf([])) == c
  {}

  function Tail(zeros: nat): seq<byte> {
    if zeros == 0 then [83] else [0] + Tail(zeros - 1)
  }

  lemma AdvanceZero(c: bv32, d: bv32, zeros: nat)
    requires Shifts(c, 8) == d && zeros > 0
    ensures Divide(c, BitsOf(Tail(zeros))) == Divide(d, BitsOf(Tail(zeros - 1)))
  {
    hide Divide, BitsOf, Shifts, Xor, ToBits;
    FedZero(c);
    Advance(c, 0, Tail(zeros - 1));
  }

  lemma DivideTail()
    ensures Divide(0x5AFA20E4, BitsOf(Tail(7))) == Divide(0x56772008, BitsOf([83]))
  {
    hide Divide, BitsOf, Shifts, Tail;
    Register1(); AdvanceZero(0x5AFA20E4, 0xA73DDC41, 7);
    Register2(); AdvanceZero(0xA73DDC41, 0x017C4CDA, 6);
    Register3(); AdvanceZero(0x017C4CDA, 0x66074786, 5);
    Register4(); AdvanceZero(0x66074786, 0x04BD2152, 4);
    Register5(); AdvanceZero(0x04BD2152, 0x85618DF9, 3);
    Register6(); AdvanceZero(0x85618DF9, 0xC4E42B35, 2);
    Register7(); AdvanceZero(0xC4E42B35, 0x56772008, 1);
    assert Tail(0) == [83] by { EmptyTail(); }
  }

  lemma EmptyTail()
    ensures Tail(0) == [83]
  {}

  lemma BodyOfS()
    ensures Body(S_TOPIC) == [1] + Tail(7)
  {
    ShortLengths();
    LongTail();
    hide LengthBytes, Tail;
  }

  lemma ShortLengths()
    ensures LengthBytes(1) == [1, 0, 0, 0] && LengthBytes(0) == [0, 0, 0, 0]
  {}

  lemma LongTail()
    ensures Tail(7) == [0, 0, 0, 0, 0, 0, 0, 83]
  {
    assert Tail(3) == [0, 0, 0, 83];
    assert Tail(7) == [0, 0, 0, 0] + Tail(3);
  }

  lemma ChecksumOfS()
    ensures Checksum(Body(S_TOPIC)) == 0x031000A3
  {
    hide Divide, BitsOf, Shifts, Tail, Body, Xor, ToBits;
    BodyOfS();
    FedBytes();
    Register0();
    Advance(ALL_ONES, 1, Tail(7));
    DivideTail();
    Register8();
    assert [83] + [] == [83];
    Advance(0x56772008, 83, []);
    NoBits(0xFCEFFF5C);
    Complement();
  }

  lemma Complement() ensures Xor(0xFCEFFF5C, ALL_ONES) == 0x031000A3 {}

  lemma LastByteOfS()
    ensures WordBytes(0x031000A3)[3] == 3
  {
    hide FromBits;
    assert Byte3(0x031000A3) == 3;
    assert FromBits(3) == 3 by { ThreeFromBits(); }
  }

  lemma ThreeFromBits() ensures FromBits(3) == 3 {}

  /** The frame of the one-byte topic "S" ends in 3, as every frame with a three-byte topic begins. */
  lemma OverlapOfS(m: Message)
    requires Sendable(m) && |m.topic| == 3
    ensures Overlap(S_TOPIC, m)
  {
    hide WordBytes, Checksum, Body, LengthBytes;
    ChecksumOfS();
    LastByteOfS();
    assert Frame(S_TOPIC)[|Frame(S_TOPIC)| - 1] == WordBytes(Checksum(Body(S_TOPIC)))[3];
    FirstByte(m);
  }

  lemma FirstByte(m: Message)
    requires Sendable(m)
    ensures Frame(m)[0] as nat == |m.topic|
  {
    hide WordBytes, Checksum;
    assert Frame(m)[0] == LengthBytes(|m.topic|)[0];
  }
}
