/**
 The C codec of lib/c/qdp.c: messages written into and read from one flat buffer, and
 qdp_process, which reads every message of a received buffer and calls the matching callbacks.
 */
module CBuffer {
  import opened Bytes
  import opened Crc32
  import opened CrcDetection
  import opened CrcTable
  import opened Codec
  import opened Encoder
  import opened Topics
  import opened Subscriptions

  const MAX_TOPIC_LENGTH: nat := 256
  const MAX_PAYLOAD_SIZE: nat := 512

  /** The message struct holds no more than this. */
  predicate InStruct(m: Message) { |m.topic| <= MAX_TOPIC_LENGTH && |m.payload| <= MAX_PAYLOAD_SIZE }

  /** OutOfBounds: memory outside the buffer or outside the topic field is touched. */
  datatype ReadOutcome = Got(message: Message) | Refused | OutOfBounds

  datatype ReadResult = ReadResult(outcome: ReadOutcome, position: nat)

  /** qdp_message_read on the whole backing memory, the fill size and the read position. */
  function ReadAt(data: seq<byte>, size: nat, position: nat): ReadResult
    requires size <= |data|
  {
    if position + 8 > size then ReadResult(Refused, position) else
    var w := data[position..];
    var topicLen, payloadLen := TopicLength(w), PayloadLength(w);
    if topicLen > MAX_TOPIC_LENGTH || payloadLen > MAX_PAYLOAD_SIZE then ReadResult(Refused, position + 8) else
    var total := 8 + topicLen + payloadLen + 4;
    if size < total then ReadResult(Refused, position + 8)
    else if topicLen == MAX_TOPIC_LENGTH || |w| < total then ReadResult(OutOfBounds, position + 8)
    else if !ChecksumHolds(w[..total]) then ReadResult(Refused, position + total)
    else ReadResult(Got(Message(w[8..8 + topicLen], w[8 + topicLen..total - 4])), position + total)
  }

  /** Four appended pieces are one, and four dropped lengths are one. */
  lemma Pieces(x: seq<byte>, tail: seq<byte>, a: seq<byte>, b: seq<byte>, c: seq<byte>, d: seq<byte>)
    requires |a| + |b| + |c| + |d| <= |tail|
    ensures x + a + b + c + d == x + (a + b + c + d)
    ensures tail[|a|..][|b|..][|c|..][|d|..] == tail[|a + b + c + d|..]
  {}

  /** The parts of a frame within memory, by their place in memory, behind its start and in the frame. */
  lemma FrameParts(data: seq<byte>, start: nat, topicLen: nat, payloadLen: nat)
    requires start + 12 + topicLen + payloadLen <= |data|
    ensures var n, t, w := 12 + topicLen + payloadLen, 8 + topicLen, data[start..];
            var f := data[start..start + n];
            && f == w[..n] && f[8..t] == w[8..t] && f[t..n - 4] == w[t..n - 4]
            && f[8..t] == data[start + 8..start + t] && f[t..n - 4] == data[start + t..start + n - 4]
            && f[n - 4..] == data[start + n - 4..start + n] && f[..n - 4] == data[start..start + n - 4]
  {
    var n, t, w := 12 + topicLen + payloadLen, 8 + topicLen, data[start..];
    var f := data[start..start + n];
    SliceOfSlice(data, start, start + n, n - 4, n);
    SliceOfSlice(data, start, start + n, 0, n - 4);
    SliceOfSlice(data, start, start + n, 8, t);
    SliceOfSlice(data, start, start + n, t, n - 4);
    assert f == w[..n] && f[n - 4..] == f[n - 4..n] && f[..n - 4] == f[0..n - 4];
    assert w[8..t] == f[8..t] && w[t..n - 4] == f[t..n - 4];
  }

  class Buffer {
    const data: array<byte>
    var size: nat
    var position: nat

    ghost predicate Valid()
      reads this, data
    {
      size <= data.Length
    }

    ghost function Contents(): seq<byte>
      requires Valid()
      reads this, data
    {
      data[..size]
    }

    /** The memory behind the contents. */
    ghost function Tail(): seq<byte>
      requires Valid()
      reads this, data
    {
      data[size..]
    }

    lemma ContentsFrom(start: nat)
      requires Valid() && start <= size
      ensures data[start..size] == Contents()[start..] && |Contents()| == size && |Tail()| == data.Length - size
    {}

    constructor (capacity: nat)
      ensures Valid() && fresh(data) && data.Length == capacity && size == position == 0
    {
      data := new byte[capacity];
      size, position := 0, 0;
    }

    /** A store at the fill position: memcpy, or write_uint32_le of four bytes. */
    method Append(bytes: seq<byte>)
      requires Valid() && size + |bytes| <= data.Length
      modifies this`size, data
      ensures Valid() && Contents() == old(Contents()) + bytes
      ensures Tail() == old(Tail())[|bytes|..]
    {
      Put(data, size, bytes);
      size := size + |bytes|;
    }

    /** Everything of a frame but its checksum. */
    method AppendBody(m: Message)
      requires Valid() && InStruct(m) && size + |Body(m)| <= data.Length
      modifies this`size, data
      ensures Valid() && Contents() == old(Contents()) + Body(m)
      ensures Tail() == old(Tail())[|Body(m)|..]
    {
      hide LengthBytes;
      ContentsFrom(size);
      Pieces(Contents(), Tail(), LengthBytes(|m.topic|), LengthBytes(|m.payload|), m.topic, m.payload);
      hide Contents, Tail;
      Append(LengthBytes(|m.topic|));
      Append(LengthBytes(|m.payload|));
      Append(m.topic);
      Append(m.payload);
    }

    /** qdp_message_write: append the frame, or refuse without touching anything. */
    method Write(table: seq<bv32>, m: Message) returns (ok: bool)
      requires Valid() && IsTable(table) && |m.topic| <= 256 && |m.payload| <= 512
      modifies this`size, data
      ensures Valid() && ok == (old(size) + |Frame(m)| <= data.Length)
      ensures ok ==> Contents() == old(Contents()) + Frame(m) && Tail() == old(Tail())[|Frame(m)|..]
      ensures !ok ==> size == old(size) && data[..] == old(data[..])
    {
      hide IsTable, Checksum, WordBytes;
      var total := 8 + |m.topic| + |m.payload| + 4;
      if size + total > data.Length {
        return false;
      }
      var start := size;
      ghost var before := Contents();
      ContentsFrom(start);
      hide Contents, Tail, Body;
      AppendBody(m);
      ContentsFrom(start);
      assert (before + Body(m))[|before|..] == Body(m);
      var crc := CalculateC(table, data[start..size]);
      Append(WordBytes(crc));
      ok := true;
    }

    /** The part of qdp_message_read behind the length checks. */
    method ReadBody(table: seq<bv32>, start: nat, topicLen: nat, payloadLen: nat) returns (r: ReadOutcome)
      requires IsTable(table) && position == start + 8 && position + topicLen + payloadLen + 4 <= data.Length
      modifies this`position
      ensures var total := 12 + topicLen + payloadLen;
              var w := data[start..start + total];
              && position == start + total
              && r == if ChecksumHolds(w) then Got(Message(w[8..8 + topicLen], w[8 + topicLen..total - 4])) else Refused
    {
      hide IsTable, Checksum, ReadWord;
      var topic := data[position..position + topicLen];
      position := position + topicLen;
      var payload := data[position..position + payloadLen];
      position := position + payloadLen;
      var checksum := ReadWord(data[position..position + 4]);
      position := position + 4;
      var crc := CalculateC(table, data[start..position - 4]);
      FrameParts(data[..], start, topicLen, payloadLen);
      if checksum != crc {
        return Refused;
      }
      r := Got(Message(topic, payload));
    }

    /** qdp_message_read. */
    method Read(table: seq<bv32>) returns (r: ReadOutcome)
      requires Valid() && IsTable(table)
      modifies this`position
      ensures ReadAt(data[..], size, old(position)) == ReadResult(r, position)
    {
      hide IsTable, ChecksumHolds, TopicLength, PayloadLength;
      var start := position;
      if position + 8 > size {
        return Refused;
      }
      ghost var w := data[..][start..];
      assert w == data[start..];
      var topicLen, payloadLen := TopicLength(data[start..]), PayloadLength(data[start..]);
      position := position + 8;
      if topicLen > MAX_TOPIC_LENGTH || payloadLen > MAX_PAYLOAD_SIZE {
        return Refused;
      }
      var total := 8 + topicLen + payloadLen + 4;
      if size < total {
        return Refused;
      }
      if topicLen == MAX_TOPIC_LENGTH || start + total > data.Length {
        return OutOfBounds;
      }
      FrameParts(data[..], start, topicLen, payloadLen);
      r := ReadBody(table, start, topicLen, payloadLen);
    }
  }

  // ---------- Round trips ----------

  /** A topic that leaves room for its terminator. */
  predicate Storable(m: Message) { |m.topic| < MAX_TOPIC_LENGTH && |m.payload| <= MAX_PAYLOAD_SIZE }

  lemma ReadFrame(data: seq<byte>, size: nat, position: nat, m: Message)
    requires Storable(m) && position + |Frame(m)| <= size <= |data|
    requires data[position..position + |Frame(m)|] == Frame(m)
    ensures ReadAt(data, size, position) == ReadResult(Got(m), position + |Frame(m)|)
  {
    FrameAccepted(data, size, position, m);
  }

  lemma FrameAccepted(data: seq<byte>, size: nat, position: nat, m: Message)
    requires Storable(m) && position + 8 <= size && |Frame(m)| <= size <= |data| && position + |Frame(m)| <= |data|
    requires data[position..position + |Frame(m)|] == Frame(m)
    ensures ReadAt(data, size, position) == ReadResult(Got(m), position + |Frame(m)|)
  {
    hide ChecksumHolds, TopicLength, PayloadLength, Frame;
    var w, n := data[position..], |Frame(m)|;
    assert w[..n] == Frame(m);
    HeaderPrefix(w, n);
    FrameHeader(m);
    FrameChecksum(m);
    assert w[8..8 + |m.topic|] == Frame(m)[8..8 + |m.topic|];
    assert w[8 + |m.topic|..n - 4] == Frame(m)[8 + |m.topic|..n - 4];
  }

  /** Whatever a read accepts is the frame of the message it returns, and the position is behind it. */
  lemma AcceptedIsFrame(data: seq<byte>, size: nat, position: nat, m: Message)
    requires size <= |data| && ReadAt(data, size, position).outcome == Got(m)
    ensures Storable(m)
    ensures var next := ReadAt(data, size, position).position;
            next == position + |Frame(m)| <= |data| && data[position..next] == Frame(m)
  {
    hide ChecksumHolds, TopicLength, PayloadLength, Frame;
    var w := data[position..];
    var n := 12 + TopicLength(w) + PayloadLength(w);
    HeaderPrefix(w, n);
    FrameOfParts(w[..n]);
    assert w[..n][8..8 + |m.topic|] == m.topic && w[..n][8 + |m.topic|..n - 4] == m.payload;
    assert data[position..position + n] == w[..n];
  }

  /** A read succeeds exactly on a frame within the limits; that it ends before the fill size is not checked. */
  lemma GotIff(data: seq<byte>, size: nat, position: nat, m: Message)
    requires size <= |data|
    ensures ReadAt(data, size, position).outcome == Got(m) <==>
              && |m.topic| <= 255 && |m.payload| <= 512 && position + 8 <= size && |Frame(m)| <= size
              && position + |Frame(m)| <= |data| && data[position..position + |Frame(m)|] == Frame(m)
  {
    hide ChecksumHolds, TopicLength, PayloadLength, Frame;
    if ReadAt(data, size, position).outcome == Got(m) {
      AcceptedIsFrame(data, size, position, m);
    }
    if && |m.topic| <= 255 && |m.payload| <= 512 && position + 8 <= size && |Frame(m)| <= size
       && position + |Frame(m)| <= |data| && data[position..position + |Frame(m)|] == Frame(m) {
      FrameAccepted(data, size, position, m);
    }
  }

  /** Memory outside the buffer or the topic field is touched exactly in these cases. */
  lemma OutOfBoundsIff(data: seq<byte>, size: nat, position: nat)
    requires size <= |data|
    ensures ReadAt(data, size, position).outcome == OutOfBounds <==>
              && position + 8 <= size
              && var t, p := TopicLength(data[position..]), PayloadLength(data[position..]);
                 && t <= 256 && p <= 512 && 12 + t + p <= size
                 && (t == 256 || position + 12 + t + p > |data|)
  {
    hide ChecksumHolds, TopicLength, PayloadLength;
  }

  ghost predicate AllStorable(ms: seq<Message>) {
    AllFit(ms) && forall i :: 0 <= i < |ms| ==> Storable(ms[i])
  }

  lemma PrefixFits(ms: seq<Message>, k: nat)
    requires AllFit(ms) && k <= |ms|
    ensures AllFit(ms[..k]) && AllFit(ms[k..])
  {}

  lemma {:induction false} FramesSplit(ms: seq<Message>, k: nat)
    requires AllFit(ms) && k <= |ms|
    ensures AllFit(ms[..k]) && AllFit(ms[k..]) && Frames(ms) == Frames(ms[..k]) + Frames(ms[k..])
    decreases k
  {
    hide Frame;
    if k == 0 {
      assert ms[..0] == [] && ms[0..] == ms;
    } else {
      PrefixFits(ms, k);
      FramesSplit(ms[1..], k - 1);
      assert ms[..k][1..] == ms[1..][..k - 1] && ms[1..][k - 1..] == ms[k..];
    }
  }

  /** Write every message until one does not fit. */
  method WriteAll(buf: Buffer, table: seq<bv32>, ms: seq<Message>) returns (written: nat)
    requires buf.Valid() && IsTable(table) && AllStorable(ms)
    modifies buf`size, buf.data
    ensures buf.Valid() && written <= |ms|
    ensures AllFit(ms[..written]) && buf.Contents() == old(buf.Contents()) + Frames(ms[..written])
    ensures written < |ms| ==> buf.data.Length < buf.size + |Frame(ms[written])|
  {
    hide IsTable, Frame;
    written := 0;
    assert ms[..0] == [];
    while written < |ms|
      invariant buf.Valid() && written <= |ms|
      invariant AllFit(ms[..written]) && buf.Contents() == old(buf.Contents()) + Frames(ms[..written])
    {
      assert ms[..written] + [ms[written]] == ms[..written + 1];
      FramesLast(ms[..written], ms[written]);
      var ok := buf.Write(table, ms[written]);
      if !ok {
        return;
      }
      written := written + 1;
    }
    assert ms[..|ms|] == ms;
  }

  /** As many reads as there are frames give back the messages in order and end at the fill size. */
  method ReadAll(buf: Buffer, table: seq<bv32>, n: nat, ghost ms: seq<Message>) returns (got: seq<Message>)
    requires buf.Valid() && buf.position == 0 && IsTable(table) && AllStorable(ms)
    requires n == |ms| && buf.Contents() == Frames(ms)
    modifies buf`position
    ensures got == ms && buf.position == buf.size
  {
    hide IsTable, Frame, ReadAt;
    got := [];
    assert ms[..0] == [];
    for k := 0 to n
      invariant AllFit(ms[..k]) && buf.position == |Frames(ms[..k])| && got == ms[..k]
    {
      NextFrame(ms, k);
      FrameInMemory(buf, Frame(ms[k]));
      ReadFrame(buf.data[..], buf.size, buf.position, ms[k]);
      var r := buf.Read(table);
      got := got + [r.message];
    }
    assert ms[..|ms|] == ms;
  }

  lemma FrameInMemory(buf: Buffer, frame: seq<byte>)
    requires buf.Valid() && buf.position + |frame| <= buf.size
    requires buf.Contents()[buf.position..buf.position + |frame|] == frame
    ensures buf.data[..][buf.position..buf.position + |frame|] == frame
  {
    assert buf.data[..][buf.position..buf.position + |frame|] == buf.Contents()[buf.position..buf.position + |frame|];
  }

  /** Writing messages that fit in all and reading them back. */
  method WriteThenRead(table: seq<bv32>, capacity: nat, ms: seq<Message>)
    returns (got: seq<Message>, position: nat, size: nat)
    requires IsTable(table) && AllStorable(ms) && |Frames(ms)| <= capacity
    ensures got == ms && position == size == |Frames(ms)|
  {
    hide IsTable, Frame, Frames;
    var buf := new Buffer(capacity);
    var written := WriteAll(buf, table, ms);
    if written < |ms| {
      RoomLeft(ms, written);
      assert false;
    }
    assert ms[..|ms|] == ms && buf.Contents() == Frames(ms);
    got := ReadAll(buf, table, |ms|, ms);
    return got, buf.position, buf.size;
  }

  lemma RoomLeft(ms: seq<Message>, k: nat)
    requires AllFit(ms) && k < |ms|
    ensures AllFit(ms[..k]) && |Frames(ms[..k])| + |Frame(ms[k])| <= |Frames(ms)|
  {
    hide Frame;
    FramesSplit(ms, k);
    assert ms[k..][0] == ms[k];
  }

  lemma NextFrame(ms: seq<Message>, k: nat)
    requires AllFit(ms) && k < |ms|
    ensures AllFit(ms[..k]) && AllFit(ms[..k + 1])
    ensures var p := |Frames(ms[..k])|;
            && |Frames(ms[..k + 1])| == p + |Frame(ms[k])| <= |Frames(ms)|
            && Frames(ms)[p..p + |Frame(ms[k])|] == Frame(ms[k])
  {
    hide Frame;
    FramesSplit(ms, k);
    assert ms[k..][0] == ms[k];
    assert ms[..k] + [ms[k]] == ms[..k + 1];
    PrefixFits(ms, k + 1);
    FramesLast(ms[..k], ms[k]);
  }

  // ---------- Processing a received buffer ----------

  /** A call of a registered callback with a message. */
  datatype Call = Call(callback: nat, message: Message)

  /** The bytes before the first NUL, which is all that the string functions see. */
  function CString(s: Text): Text {
    if s == [] || s[0] == 0 then [] else [s[0]] + CString(s[1..])
  }

  function Calls(subs: seq<Subscription>, m: Message): seq<Call> {
    if subs == [] then []
    else (if Walk(subs[0].pattern, CString(m.topic)) then [Call(subs[0].handler, m)] else []) + Calls(subs[1..], m)
  }

  function AllCalls(subs: seq<Subscription>, ms: seq<Message>): seq<Call> {
    if ms == [] then [] else Calls(subs, ms[0]) + AllCalls(subs, ms[1..])
  }

  /** The messages qdp_stream_next_message yields until it first returns false. */
  ghost function Stream(data: seq<byte>, size: nat, position: nat): seq<Message>
    requires size <= |data|
    decreases |data| - position
  {
    if position >= size then [] else
    var r := ReadAt(data, size, position);
    if r.outcome.Got? then [r.outcome.message] + Stream(data, size, r.position) else []
  }

  /** A received buffer of complete frames yields exactly their messages. */
  lemma {:induction false} StreamOfFrames(data: seq<byte>, size: nat, position: nat, ms: seq<Message>)
    requires size <= |data| && position <= size && AllStorable(ms) && data[position..size] == Frames(ms)
    ensures Stream(data, size, position) == ms
    decreases |ms|
  {
    hide Frame, ReadAt;
    if ms != [] {
      var n := |Frame(ms[0])|;
      assert data[position..size][..n] == data[position..position + n] == Frame(ms[0]);
      ReadFrame(data, size, position, ms[0]);
      assert data[position + n..size] == data[position..size][n..];
      StreamOfFrames(data, size, position + n, ms[1..]);
    }
  }

  /** Frames at the front are read first, whatever is behind them. */
  lemma {:induction false} StreamOfMore(data: seq<byte>, size: nat, position: nat, ms: seq<Message>)
    requires size <= |data| && AllStorable(ms) && position + |Frames(ms)| <= size
    requires data[position..position + |Frames(ms)|] == Frames(ms)
    ensures Stream(data, size, position) == ms + Stream(data, size, position + |Frames(ms)|)
    decreases |ms|
  {
    hide Frame, ReadAt;
    if ms != [] {
      var n, all := |Frame(ms[0])|, |Frames(ms)|;
      assert data[position..position + all][..n] == data[position..position + n] == Frame(ms[0]);
      ReadFrame(data, size, position, ms[0]);
      assert data[position + n..position + all] == data[position..position + all][n..] == Frames(ms[1..]);
      StreamOfMore(data, size, position + n, ms[1..]);
    }
  }

  /** Nothing behind the first read that does not succeed is looked at, be it a good frame. */
  lemma StreamEnds(data: seq<byte>, size: nat, position: nat, ms: seq<Message>)
    requires size <= |data| && AllStorable(ms) && position + |Frames(ms)| <= size
    requires data[position..position + |Frames(ms)|] == Frames(ms)
    requires !ReadAt(data, size, position + |Frames(ms)|).outcome.Got?
    ensures Stream(data, size, position) == ms
  {
    hide Frame, Frames, ReadAt;
    StreamOfMore(data, size, position, ms);
  }

  /** A frame changed behind its header within 32 bits is refused, and the position moves behind it. */
  lemma DamagedRefused(data: seq<byte>, size: nat, position: nat, m: Message, damaged: seq<byte>)
    requires Storable(m) && DifferInBurst(Frame(m), damaged) && position + |damaged| <= size <= |data|
    requires |damaged| >= 8 && damaged[..8] == Frame(m)[..8]
    requires data[position..position + |damaged|] == damaged
    ensures ReadAt(data, size, position) == ReadResult(Refused, position + |Frame(m)|)
  {
    hide ChecksumHolds, TopicLength, PayloadLength, Frame, DifferInBurst, Checksum;
    DifferSameLength(Frame(m), damaged);
    var w, n := data[position..], |Frame(m)|;
    assert w[..n] == damaged;
    HeaderPrefix(w, n);
    HeaderPrefix(damaged, 8);
    HeaderPrefix(Frame(m), 8);
    FrameHeader(m);
    FrameResidue(m);
    BurstChangesChecksum(Frame(m), damaged);
    ChecksumHoldsIffResidue(damaged);
  }

  /** Good frames, a damaged one, and anything, good frames too: the messages before the damage, no others. */
  lemma DamageStops(data: seq<byte>, size: nat, ms: seq<Message>, m: Message, damaged: seq<byte>, more: seq<byte>)
    requires size <= |data| && AllStorable(ms) && Storable(m)
    requires DifferInBurst(Frame(m), damaged) && |damaged| >= 8 && damaged[..8] == Frame(m)[..8]
    requires data[..size] == Frames(ms) + damaged + more
    ensures Stream(data, size, 0) == ms
  {
    hide Frame, Frames, ReadAt, DifferInBurst;
    var p := |Frames(ms)|;
    assert data[0..p] == data[..size][0..p] == Frames(ms);
    assert data[p..p + |damaged|] == data[..size][p..p + |damaged|] == damaged;
    DamagedRefused(data, size, p, m, damaged);
    StreamEnds(data, size, 0, ms);
  }

  lemma {:induction false} CStringIs(s: Text)
    ensures var n := |CString(s)|;
            n <= |s| && CString(s) == s[..n] && 0 !in s[..n] && (n < |s| ==> s[n] == 0)
  {
    if s != [] && s[0] != 0 {
      CStringIs(s[1..]);
      var n := |CString(s[1..])|;
      assert s[..n + 1] == [s[0]] + s[1..][..n];
    }
  }

  /** Which table entries have a pattern that matches the topic up to its first NUL. */
  ghost function Matching(subs: seq<Subscription>, m: Message): seq<bool> {
    seq(|subs|, i requires 0 <= i < |subs| => Walk(subs[i].pattern, CString(m.topic)))
  }

  lemma MatchingAt(subs: seq<Subscription>, m: Message, i: nat)
    requires i < |subs|
    ensures |Matching(subs, m)| == |subs| && Matching(subs, m)[i] == Walk(subs[i].pattern, CString(m.topic))
  {
    hide Walk, CString;
  }

  ghost predicate CallsAt(subs: seq<Subscription>, m: Message, at: seq<nat>, calls: seq<Call>) {
    |calls| == |at| && forall k :: 0 <= k < |at| ==> at[k] < |subs| && calls[k] == Call(subs[at[k]].handler, m)
  }

  /** The callbacks that are called are those at exactly the positions whose pattern matches, in order. */
  lemma {:induction false} Called(subs: seq<Subscription>, m: Message, start: nat) returns (at: seq<nat>)
    requires start <= |subs|
    ensures Selects(at, Matching(subs, m), start) && CallsAt(subs, m, at, Calls(subs[start..], m))
    decreases |subs| - start
  {
    if start == |subs| {
      assert subs[start..] == [];
      at := [];
    } else {
      CallsStep(subs, start, m);
      MatchingAt(subs, m, start);
      hide Walk, CString, Calls, Matching;
      at := Called(subs, m, start + 1);
      SelectsNext(at, Matching(subs, m), start);
      hide Selects;
      if Matching(subs, m)[start] {
        CallFirst(subs, m, start, at, Calls(subs[start + 1..], m));
        at := [start] + at;
      } else {
        assert Calls(subs[start..], m) == Calls(subs[start + 1..], m);
      }
    }
  }

  lemma CallFirst(subs: seq<Subscription>, m: Message, start: nat, at: seq<nat>, calls: seq<Call>)
    requires start < |subs| && CallsAt(subs, m, at, calls)
    ensures CallsAt(subs, m, [start] + at, [Call(subs[start].handler, m)] + calls)
  {}

  /** The calls for messages that follow each other follow each other. */
  lemma {:induction false} AllCallsConcat(subs: seq<Subscription>, a: seq<Message>, b: seq<Message>)
    ensures AllCalls(subs, a + b) == AllCalls(subs, a) + AllCalls(subs, b)
    ensures |a| == 1 ==> AllCalls(subs, a) == Calls(subs, a[0])
    decreases |a|
  {
    hide Calls;
    if a == [] {
      assert a + b == b;
    } else {
      assert (a + b)[0] == a[0] && (a + b)[1..] == a[1..] + b;
      AllCallsConcat(subs, a[1..], b);
    }
  }

  lemma CallsStep(subs: seq<Subscription>, i: nat, m: Message)
    requires i < |subs|
    ensures Calls(subs[i..], m)
            == (if Walk(subs[i].pattern, CString(m.topic)) then [Call(subs[i].handler, m)] else [])
               + Calls(subs[i + 1..], m)
  {
    hide Walk, CString;
    assert subs[i..][0] == subs[i] && subs[i..][1..] == subs[i + 1..];
  }

  /** The loop over the subscription table for one message. */
  method Dispatch(subs: Table, m: Message) returns (calls: seq<Call>)
    requires subs.Valid()
    ensures calls == Calls(subs.List(), m)
  {
    hide Walk, CString, Calls;
    calls := [];
    ghost var all := subs.List();
    assert all[0..] == all;
    for i := 0 to subs.subCount
      invariant Calls(all, m) == calls + Calls(all[i..], m)
    {
      CallsStep(all, i, m);
      var matches := TopicMatches(subs.subs[i].pattern, CString(m.topic));
      if matches {
        calls := calls + [Call(subs.subs[i].handler, m)];
      }
    }
    assert all[|all|..] == [];
    NoCalls(m);
  }

  lemma NoCalls(m: Message)
    ensures Calls([], m) == []
  {}

  /** What the transport's receive callback did. */
  datatype Receive = NoHandler | ReceiveError(code: int) | Filled(bytes: seq<byte>)

  /** Received bytes in a larger memory: complete frames, or frames up to a read that does not succeed. */
  ghost predicate Received(memory: seq<byte>, bytes: seq<byte>, ms: seq<Message>)
    requires |bytes| <= |memory|
  {
    && AllStorable(ms)
    && (bytes == Frames(ms) || (Frames(ms) <= bytes && !ReadAt(memory, |bytes|, |Frames(ms)|).outcome.Got?))
  }

  lemma StreamIs(memory: seq<byte>, bytes: seq<byte>, ms: seq<Message>)
    requires |bytes| <= |memory| && memory[..|bytes|] == bytes && Received(memory, bytes, ms)
    ensures Stream(memory, |bytes|, 0) == ms
  {
    hide Frames, ReadAt, Stream;
    var n := |Frames(ms)|;
    assert memory[0..n] == memory[..|bytes|][..n];
    if n == |bytes| {
      StreamOfFrames(memory, |bytes|, 0, ms);
    } else {
      StreamEnds(memory, |bytes|, 0, ms);
    }
  }

  /** qdp_process. */
  method Process(rx: Buffer, subs: Table, table: seq<bv32>, receive: Receive) returns (code: int, calls: seq<Call>)
    requires rx.Valid() && subs.Valid() && IsTable(table)
    requires receive.Filled? ==> |receive.bytes| <= rx.data.Length
    requires receive.ReceiveError? ==> receive.code != 0
    modifies rx, rx.data
    ensures rx.Valid()
    ensures receive == NoHandler ==> code == 0 && calls == []
    ensures receive.ReceiveError? ==> code == receive.code && calls == []
    ensures receive.Filled? ==>
              && code == 0 && rx.Contents() == receive.bytes
              && calls == AllCalls(subs.List(), Stream(rx.data[..], rx.size, 0))
    ensures forall ms :: receive.Filled? && Received(rx.data[..], receive.bytes, ms) ==>
              calls == AllCalls(subs.List(), ms)
  {
    hide IsTable, Frame, ReadAt, Calls;
    calls, code := [], 0;
    if receive == NoHandler {
      return;
    }
    rx.size, rx.position := 0, 0;
    if receive.ReceiveError? {
      return receive.code, [];
    }
    forall i | 0 <= i < |receive.bytes| {
      rx.data[i] := receive.bytes[i];
    }
    rx.size := |receive.bytes|;
    ghost var memory, list := rx.data[..], subs.List();
    while rx.position < rx.size
      invariant rx.Valid() && rx.data[..] == memory && rx.size == |receive.bytes| && subs.Valid() && subs.List() == list
      invariant AllCalls(list, Stream(memory, rx.size, 0))
                == calls + AllCalls(list, Stream(memory, rx.size, rx.position))
      decreases |memory| - rx.position
    {
      ghost var at := rx.position;
      var r := rx.Read(table);
      if !r.Got? {
        break;
      }
      AcceptedIsFrame(memory, rx.size, at, r.message);
      var more := Dispatch(subs, r.message);
      calls := calls + more;
    }
    assert memory[..|receive.bytes|] == receive.bytes;
    hide Stream, Received, AllCalls;
    forall ms | Received(memory, receive.bytes, ms) ensures calls == AllCalls(list, ms) {
      StreamIs(memory, receive.bytes, ms);
    }
  }
}
