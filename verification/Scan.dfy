/**
 The stream as a pure function: what a reader that looks at one position after another, from
 the left, finds in a sequence of bytes.
 */
module Scan {
  import opened Bytes
  import opened Crc32
  import opened Codec

  const MAX_TOPIC: nat := 64
  const MAX_PAYLOAD: nat := 1024

  /** What the bytes from some position on say about a frame starting there. */
  datatype Verdict =
    | NeedHeader                              // fewer than 8 bytes
    | BadSize                                 // a length over its limit
    | Incomplete(size: nat)                   // plausible lengths, frame not complete yet
    | BadChecksum
    | Found(length: nat, message: Message)

  function Judge(w: seq<byte>): (v: Verdict)
    ensures v.Incomplete? ==> |w| < v.size
    ensures v.Found? ==> 12 <= v.length <= |w|
  {
    if |w| < 8 then NeedHeader else
    var topicLen, payloadLen := TopicLength(w), PayloadLength(w);
    if topicLen > MAX_TOPIC || payloadLen > MAX_PAYLOAD then BadSize else
    var totalLen := 8 + topicLen + payloadLen + 4;
    if |w| < totalLen then Incomplete(totalLen)
    else if !ChecksumHolds(w[..totalLen]) then BadChecksum
    else Found(totalLen, Message(w[8..8 + topicLen], w[8 + topicLen..totalLen - 4]))
  }

  /** The leftmost scan: skip a byte where no frame can start, jump over a frame, stop at a frame still to come. */
  function Messages(s: seq<byte>): seq<Message>
    decreases |s|
  {
    match Judge(s)
    case NeedHeader => []
    case Incomplete(_) => []
    case BadSize => Messages(s[1..])
    case BadChecksum => Messages(s[1..])
    case Found(n, m) => [m] + Messages(s[n..])
  }

  /** A message the reader's size limits allow. */
  predicate Sendable(m: Message) { |m.topic| <= MAX_TOPIC && |m.payload| <= MAX_PAYLOAD }

  /** A judgement other than "not enough bytes" does not change when more bytes arrive. */
  lemma JudgeStable(w: seq<byte>, more: seq<byte>)
    requires !Judge(w).NeedHeader? && !Judge(w).Incomplete?
    ensures Judge(w + more) == Judge(w)
  {
    hide ChecksumHolds, TopicLength, PayloadLength;
    HeaderPrefix(w + more, |w|);
    assert (w + more)[..|w|] == w;
    if !Judge(w).BadSize? {
      var n := 8 + TopicLength(w) + PayloadLength(w) + 4;
      assert (w + more)[..n] == w[..n];
    }
  }

  lemma FrameIsFound(w: seq<byte>, m: Message)
    requires Sendable(m) && |Frame(m)| <= |w| && w[..|Frame(m)|] == Frame(m)
    ensures Judge(w) == Found(|Frame(m)|, m)
  {
    hide ChecksumHolds, TopicLength, PayloadLength, Frame;
    var n, t := |Frame(m)|, |m.topic|;
    HeaderPrefix(w, n);
    FrameHeader(m);
    FrameChecksum(m);
    SliceOfPrefix(w, n, 8, 8 + t);
    SliceOfPrefix(w, n, 8 + t, n - 4);
  }

  lemma FoundIsFrame(w: seq<byte>)
    requires Judge(w).Found?
    ensures var v := Judge(w);
            Sendable(v.message) && v.length == |Frame(v.message)| && w[..v.length] == Frame(v.message)
  {
    hide ChecksumHolds, TopicLength, PayloadLength, Frame;
    var n, t := Judge(w).length, TopicLength(w);
    HeaderPrefix(w, n);
    FrameOfParts(w[..n]);
    SliceOfPrefix(w, n, 8, 8 + t);
    SliceOfPrefix(w, n, 8 + t, n - 4);
  }

  /** A frame is found exactly where there is that of a topic of up to 64 and a payload of up to 1024 bytes. */
  lemma FoundIff(w: seq<byte>, n: nat, m: Message)
    ensures Judge(w) == Found(n, m) <==>
              && |m.topic| <= 64 && |m.payload| <= 1024
              && n == 12 + |m.topic| + |m.payload| <= |w| && w[..n] == Frame(m)
  {
    hide Judge, Frame;
    if Sendable(m) && n == 12 + |m.topic| + |m.payload| <= |w| && w[..n] == Frame(m) {
      FrameIsFound(w, m);
    }
    if Judge(w) == Found(n, m) {
      FoundIsFrame(w);
    }
  }

  /** Whatever is found leaves the constant residue of the checksum, wherever it is found. */
  lemma FoundResidue(w: seq<byte>)
    requires Judge(w).Found?
    ensures Checksum(w[..Judge(w).length]) == RESIDUE
  {
    hide Judge, Frame, Checksum;
    FoundIsFrame(w);
    FrameResidue(Judge(w).message);
  }

  /** The beginning of a frame, header included, is recognised as a frame still to come. */
  lemma PartialFrame(m: Message, cut: nat)
    requires Sendable(m) && 8 <= cut < |Frame(m)|
    ensures Judge(Frame(m)[..cut]) == Incomplete(|Frame(m)|)
  {
    hide ChecksumHolds, TopicLength, PayloadLength, Frame;
    FrameHeader(m);
    HeaderPrefix(Frame(m), cut);
  }

  predicate AllSendable(ms: seq<Message>)
    ensures AllSendable(ms) ==> AllFit(ms)
  {
    forall i :: 0 <= i < |ms| ==> Sendable(ms[i])
  }

  lemma MessagesAfterFrame(m: Message, rest: seq<byte>)
    requires Sendable(m)
    ensures Messages(Frame(m) + rest) == [m] + Messages(rest)
  {
    hide Frame, Judge;
    var s, n := Frame(m) + rest, |Frame(m)|;
    assert s[..n] == Frame(m) && s[n..] == rest;
    FoundIff(s, n, m);
  }

  /** Scanning what was encoded gives back exactly the messages, in order. */
  lemma {:induction false} MessagesOfFrames(ms: seq<Message>)
    requires AllSendable(ms)
    ensures Messages(Frames(ms)) == ms
  {
    hide Frame, Judge;
    if ms == [] {
      assert Judge([]) == NeedHeader by { JudgeEmpty(); }
    } else {
      MessagesAfterFrame(ms[0], Frames(ms[1..]));
      MessagesOfFrames(ms[1..]);
    }
  }

  lemma JudgeEmpty()
    ensures Judge([]) == NeedHeader
  {}

  /** Resynchronisation: bytes at none of whose positions a frame is recognised or awaited are skipped. */
  lemma {:induction false} GarbageSkipped(garbage: seq<byte>, rest: seq<byte>)
    requires forall i :: 0 <= i < |garbage| ==>
               Judge((garbage + rest)[i..]).BadSize? || Judge((garbage + rest)[i..]).BadChecksum?
    ensures Messages(garbage + rest) == Messages(rest)
    decreases |garbage|
  {
    hide Judge;
    var s := garbage + rest;
    if garbage == [] {
      assert s == rest;
    } else {
      assert s[0..] == s;
      assert s[1..] == garbage[1..] + rest;
      forall i | 0 <= i < |garbage[1..]|
        ensures Judge((garbage[1..] + rest)[i..]).BadSize? || Judge((garbage[1..] + rest)[i..]).BadChecksum?
      {
        assert (garbage[1..] + rest)[i..] == s[i + 1..];
      }
      GarbageSkipped(garbage[1..], rest);
    }
  }
}
