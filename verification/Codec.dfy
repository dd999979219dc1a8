/**
 The wire format: two little-endian lengths, the topic, the payload, and the checksum of all
 of them. Encode, Decode and writeMessage of lib/go/qdp.go.
 */
module Codec {
  import opened Bytes
  import opened Crc32
  import opened CrcDetection

  datatype Message = Message(topic: seq<byte>, payload: seq<byte>)

  /** The outcome of a call that may report ErrInvalidMessage or ErrCRCMismatch, or panic. */
  datatype Outcome<T> = Ok(value: T) | InvalidMessage | ChecksumMismatch | Panic

  // ---------- Length fields ----------

  /** PutUint32 of a length: four base-256 digits, lowest first. */
  function LengthBytes(n: nat): (s: seq<byte>)
    requires n < TWO_32
    ensures |s| == 4
  {
    var n1 := n / 256;
    var n2 := n1 / 256;
    var n3 := n2 / 256;
    [(n % 256) as byte, (n1 % 256) as byte, (n2 % 256) as byte, n3 as byte]
  }

  /** Uint32 as a length. */
  function ReadLength(s: seq<byte>): (n: nat)
    requires |s| >= 4
    ensures n < TWO_32
  {
    s[0] as nat + 256 * (s[1] as nat + 256 * (s[2] as nat + 256 * s[3] as nat))
  }

  lemma Digit(low: nat, high: nat)
    requires low < 256
    ensures (low + 256 * high) % 256 == low && (low + 256 * high) / 256 == high
  {}

  lemma ReadLengthBytes(n: nat, rest: seq<byte>)
    requires n < TWO_32
    ensures ReadLength(LengthBytes(n) + rest) == n
  {}

  /** Little-endian: the bytes are the base-256 digits, lowest first, written and read. */
  lemma LengthDigits(n: nat, s: seq<byte>)
    requires n < 0x1_0000_0000
    ensures s == LengthBytes(n) <==>
              && |s| == 4
              && n == s[0] as nat + 0x100 * s[1] as nat + 0x1_0000 * s[2] as nat + 0x100_0000 * s[3] as nat
    ensures |s| >= 4 ==>
              ReadLength(s) == s[0] as nat + 0x100 * s[1] as nat + 0x1_0000 * s[2] as nat + 0x100_0000 * s[3] as nat
  {
    var t := LengthBytes(n);
    assert t[0] as nat + 0x100 * t[1] as nat + 0x1_0000 * t[2] as nat + 0x100_0000 * t[3] as nat == n by {
      ReadLengthBytes(n, []);
      assert t + [] == t;
    }
    if |s| == 4 && ReadLength(s) == n {
      LengthBytesRead(s);
      assert s[..4] == s;
    }
  }

  lemma LengthBytesRead(s: seq<byte>)
    requires |s| >= 4
    ensures LengthBytes(ReadLength(s)) == s[..4]
  {
    var n2 := s[2] as nat + 256 * s[3] as nat;
    var n1 := s[1] as nat + 256 * n2;
    Digit(s[2] as nat, s[3] as nat);
    Digit(s[1] as nat, n2);
    Digit(s[0] as nat, n1);
  }

  // ---------- Frames ----------

  /** The total size still fits in the uint32 that the length arithmetic uses. */
  predicate Fits(m: Message) { 12 + |m.topic| + |m.payload| < TWO_32 }

  function Body(m: Message): (s: seq<byte>)
    requires Fits(m)
    ensures |s| == 8 + |m.topic| + |m.payload|
  {
    LengthBytes(|m.topic|) + LengthBytes(|m.payload|) + m.topic + m.payload
  }

  /** The frame of a message: what a reader of the protocol description would write down. */
  function Frame(m: Message): (s: seq<byte>)
    requires Fits(m)
    ensures |s| == 12 + |m.topic| + |m.payload|
  {
    Body(m) + WordBytes(Checksum(Body(m)))
  }

  predicate AllFit(ms: seq<Message>) { forall i :: 0 <= i < |ms| ==> Fits(ms[i]) }

  /** Frames one after another. */
  function Frames(ms: seq<Message>): seq<byte>
    requires AllFit(ms)
  {
    if ms == [] then [] else Frame(ms[0]) + Frames(ms[1..])
  }

  lemma {:induction false} FramesLast(ms: seq<Message>, m: Message)
    requires AllFit(ms + [m])
    ensures AllFit(ms) && Fits(m) && Frames(ms + [m]) == Frames(ms) + Frame(m)
  {
    hide Frame;
    assert forall i :: 0 <= i < |ms| ==> ms[i] == (ms + [m])[i];
    assert (ms + [m])[|ms|] == m;
    if ms == [] {
      assert ms + [m] == [m] && [m][1..] == [];
      assert Frames([m]) == Frame(m) + [];
    } else {
      assert (ms + [m])[1..] == ms[1..] + [m];
      FramesLast(ms[1..], m);
    }
  }

  function TopicLength(data: seq<byte>): nat
    requires |data| >= 8
  {
    ReadLength(data)
  }

  function PayloadLength(data: seq<byte>): nat
    requires |data| >= 8
  {
    ReadLength(data[4..])
  }

  lemma HeaderPrefix(w: seq<byte>, n: nat)
    requires 8 <= n <= |w|
    ensures TopicLength(w[..n]) == TopicLength(w) && PayloadLength(w[..n]) == PayloadLength(w)
  {}

  /** The last four bytes hold the checksum of everything before them. */
  predicate ChecksumHolds(data: seq<byte>)
    requires |data| >= 4
  {
    ReadWord(data[|data| - 4..]) == Checksum(data[..|data| - 4])
  }

  /** What the first 8 bytes say, digit by digit. */
  lemma HeaderDigits(w: seq<byte>)
    requires |w| >= 8
    ensures TopicLength(w) == w[0] as nat + 0x100 * w[1] as nat + 0x1_0000 * w[2] as nat + 0x100_0000 * w[3] as nat
    ensures PayloadLength(w) == w[4] as nat + 0x100 * w[5] as nat + 0x1_0000 * w[6] as nat + 0x100_0000 * w[7] as nat
  {}

  /** Decode, with the uint32 wrap-around of the total and of the slice bounds. */
  function Decode(data: seq<byte>): Outcome<Message>
    requires |data| < TWO_32
  {
    if |data| < 12 then InvalidMessage else
    var topicLen, payloadLen := TopicLength(data), PayloadLength(data);
    var totalLen := (8 + topicLen + payloadLen + 4) % TWO_32;
    if |data| != totalLen then InvalidMessage
    else if !ChecksumHolds(data) then ChecksumMismatch
    else
      var split := (8 + topicLen) % TWO_32;
      if split < 8 || split > totalLen - 4 then Panic
      else Ok(Message(data[8..split], data[split..totalLen - 4]))
  }

  lemma FrameHeader(m: Message)
    requires Fits(m)
    ensures TopicLength(Frame(m)) == |m.topic| && PayloadLength(Frame(m)) == |m.payload|
    ensures Frame(m)[8..8 + |m.topic|] == m.topic
    ensures Frame(m)[8 + |m.topic|..|Frame(m)| - 4] == m.payload
  {
    hide Checksum, WordBytes, LengthBytes, ReadLength;
    var tail := WordBytes(Checksum(Body(m)));
    var a, b := LengthBytes(|m.topic|), LengthBytes(|m.payload|);
    assert Frame(m) == a + (b + m.topic + m.payload + tail);
    ReadLengthBytes(|m.topic|, b + m.topic + m.payload + tail);
    assert Frame(m)[4..] == b + (m.topic + m.payload + tail);
    ReadLengthBytes(|m.payload|, m.topic + m.payload + tail);
  }

  lemma FrameChecksum(m: Message)
    requires Fits(m)
    ensures ChecksumHolds(Frame(m))
  {
    hide Checksum, WordBytes, ReadWord, Body;
    var tail := WordBytes(Checksum(Body(m)));
    assert Frame(m)[..|Frame(m)| - 4] == Body(m);
    assert Frame(m)[|Frame(m)| - 4..] == tail;
    ReadWordBytes(Checksum(Body(m)));
  }

  /** Bytes whose lengths add up and whose checksum holds are the frame of what they spell. */
  lemma FrameOfParts(data: seq<byte>)
    requires |data| >= 12
    requires |data| == 12 + TopicLength(data) + PayloadLength(data) < TWO_32
    requires ChecksumHolds(data)
    ensures var t := TopicLength(data);
            data == Frame(Message(data[8..8 + t], data[8 + t..|data| - 4]))
  {
    hide Checksum, WordBytes, ReadWord, LengthBytes, ReadLength;
    var t, n := TopicLength(data), |data|;
    var m := Message(data[8..8 + t], data[8 + t..n - 4]);
    LengthBytesRead(data);
    LengthBytesRead(data[4..]);
    assert data[4..][..4] == data[4..8];
    assert data[..n - 4] == data[..4] + data[4..8] + data[8..8 + t] + data[8 + t..n - 4];
    assert data[..n - 4] == Body(m);
    WordBytesRead(data[n - 4..]);
    assert data == data[..n - 4] + data[n - 4..];
  }

  lemma DecodeFrame(m: Message)
    requires Fits(m)
    ensures Decode(Frame(m)) == Ok(m)
  {
    hide ChecksumHolds, TopicLength, PayloadLength, Frame;
    FrameHeader(m);
    FrameChecksum(m);
    var t, p := |m.topic|, |m.payload|;
    assert (8 + t + p + 4) % TWO_32 == 12 + t + p && (8 + t) % TWO_32 == 8 + t;
  }

  lemma FrameDecode(data: seq<byte>)
    requires |data| < TWO_32 && Decode(data).Ok?
    ensures Fits(Decode(data).value) && data == Frame(Decode(data).value)
  {
    hide ChecksumHolds, ReadLength, Frame;
    var t, p := TopicLength(data), PayloadLength(data);
    assert 8 + t + p + 4 < TWO_32;
    FrameOfParts(data);
  }

  /** Decode accepts exactly the frames, and returns the message each is the frame of. */
  lemma DecodeOkIff(data: seq<byte>, m: Message)
    requires |data| < TWO_32
    ensures Decode(data) == Ok(m) <==> Fits(m) && data == Frame(m)
  {
    hide Decode, Frame;
    if Fits(m) && data == Frame(m) {
      DecodeFrame(m);
    }
    if Decode(data) == Ok(m) {
      FrameDecode(data);
    }
  }

  /** What the source calls the declared size: the header's two lengths and 12, as a uint32. */
  function Declared(data: seq<byte>): nat
    requires |data| >= 12
  {
    (12 + TopicLength(data) + PayloadLength(data)) % 0x1_0000_0000
  }

  /** ErrInvalidMessage exactly for data that is too short or not as long as declared, whatever its checksum. */
  lemma DecodeInvalidIff(data: seq<byte>)
    requires |data| < 0x1_0000_0000
    ensures Decode(data) == InvalidMessage <==> |data| < 12 || |data| != Declared(data)
  {
    hide ChecksumHolds, ReadLength;
  }

  /** ErrCRCMismatch exactly for data of the declared size whose last four bytes are not its checksum. */
  lemma DecodeMismatchIff(data: seq<byte>)
    requires |data| < 0x1_0000_0000
    ensures Decode(data) == ChecksumMismatch <==> |data| >= 12 && |data| == Declared(data) && !ChecksumHolds(data)
  {
    hide ChecksumHolds, ReadLength;
  }

  /** Decode panics exactly when the lengths wrap around 2^32 and the checksum still holds. */
  lemma DecodePanicIff(data: seq<byte>)
    requires |data| < TWO_32
    ensures Decode(data).Panic? <==>
              && |data| >= 12
              && TWO_32 <= 12 + TopicLength(data) + PayloadLength(data)
              && |data| == (12 + TopicLength(data) + PayloadLength(data)) % TWO_32
              && ChecksumHolds(data)
  {
    hide ChecksumHolds, ReadLength;
    if |data| >= 12 {
      var t, p := ReadLength(data), ReadLength(data[4..]);
      assert t < TWO_32 && p < TWO_32;
    }
  }

  /** Any two lengths that wrap around 2^32, the bytes the wrapped total leaves room for, and their checksum. */
  function Wrapping(topicLen: nat, payloadLen: nat, rest: seq<byte>): (data: seq<byte>)
    requires topicLen < TWO_32 && payloadLen < TWO_32
    ensures |data| == 12 + |rest|
  {
    var body := LengthBytes(topicLen) + LengthBytes(payloadLen) + rest;
    body + WordBytes(Checksum(body))
  }

  /** Every such message crashes Decode. */
  lemma WrappingPanics(topicLen: nat, payloadLen: nat, rest: seq<byte>)
    requires topicLen < TWO_32 && payloadLen < TWO_32
    requires topicLen + payloadLen == TWO_32 + |rest| && 12 + |rest| < TWO_32
    ensures Decode(Wrapping(topicLen, payloadLen, rest)).Panic?
  {
    hide Decode, Checksum, LengthBytes, ReadLength, ReadWord, WordBytes;
    var data := Wrapping(topicLen, payloadLen, rest);
    var body := LengthBytes(topicLen) + LengthBytes(payloadLen) + rest;
    var field := WordBytes(Checksum(body));
    assert data[..|body|] == body && data[|body|..] == field;
    ReadWordBytes(Checksum(body));
    assert data == LengthBytes(topicLen) + (LengthBytes(payloadLen) + rest + field);
    ReadLengthBytes(topicLen, LengthBytes(payloadLen) + rest + field);
    assert data[4..] == LengthBytes(payloadLen) + (rest + field);
    ReadLengthBytes(payloadLen, rest + field);
    DecodePanicIff(data);
  }

  /** The whole frame, checksum included, leaves the constant residue; nothing else is accepted. */
  lemma ChecksumHoldsIffResidue(data: seq<byte>)
    requires |data| >= 4
    ensures ChecksumHolds(data) <==> Checksum(data) == RESIDUE
  {
    hide Checksum, ReadWord;
    var n := |data| - 4;
    assert data == data[..n] + data[n..];
    ResidueIff(data[..n], data[n..]);
  }

  lemma FrameResidue(m: Message)
    requires Fits(m)
    ensures Checksum(Frame(m)) == RESIDUE
  {
    hide Checksum, Frame;
    FrameChecksum(m);
    ChecksumHoldsIffResidue(Frame(m));
  }

  /**
   A frame changed within any 32 consecutive bits, lengths and checksum included, is refused: as
   invalid if its lengths no longer add up to its size, and otherwise, in particular if it was
   changed behind its header only, for its checksum.
   */
  lemma BurstDetected(m: Message, damaged: seq<byte>)
    requires Fits(m) && DifferInBurst(Frame(m), damaged)
    ensures |damaged| == |Frame(m)|
    ensures Decode(damaged) == if |damaged| == Declared(damaged) then ChecksumMismatch else InvalidMessage
    ensures damaged[..8] == Frame(m)[..8] ==> Decode(damaged) == ChecksumMismatch
  {
    hide Checksum, DifferInBurst, Frame;
    if |damaged| == |Frame(m)| && damaged[..8] == Frame(m)[..8] {
      HeaderPrefix(damaged, 8);
      HeaderPrefix(Frame(m), 8);
      FrameHeader(m);
    }
    assert |damaged| == |Frame(m)| by { DifferSameLength(Frame(m), damaged); }
    FrameChecksum(m);
    ChecksumHoldsIffResidue(Frame(m));
    BurstChangesChecksum(Frame(m), damaged);
    ChecksumHoldsIffResidue(damaged);
  }

  lemma DifferSameLength(a: seq<byte>, b: seq<byte>)
    requires DifferInBurst(a, b)
    ensures |a| == |b|
  {}

  /** The frame byte by byte: two little-endian lengths, the topic, the payload, four bytes of checksum. */
  lemma FrameLayout(m: Message)
    requires Fits(m)
    ensures var f, t, p := Frame(m), |m.topic|, |m.payload|;
            && |f| == 12 + t + p
            && t == f[0] as nat + 0x100 * f[1] as nat + 0x1_0000 * f[2] as nat + 0x100_0000 * f[3] as nat
            && p == f[4] as nat + 0x100 * f[5] as nat + 0x1_0000 * f[6] as nat + 0x100_0000 * f[7] as nat
            && f[8..8 + t] == m.topic && f[8 + t..8 + t + p] == m.payload
            && f[8 + t + p..] == WordBytes(Checksum(f[..8 + t + p]))
  {
    hide LengthBytes, Checksum, WordBytes;
    var t, p := |m.topic|, |m.payload|;
    LengthDigits(t, LengthBytes(t));
    LengthDigits(p, LengthBytes(p));
    var f := Frame(m);
    assert f[..4] == LengthBytes(t) && f[4..8] == LengthBytes(p);
    assert f[..8 + t + p] == Body(m);
  }
}
