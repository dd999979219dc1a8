/**
 The leftmost scan with positions: which frames lie where in a stream of bytes, and what a log
 of returned frames keeps.
 */
module Positions {
  import opened Bytes
  import opened Codec
  import opened Scan

  /** One returned message and the stretch of the received stream it was decoded from. */
  datatype Delivery = Delivery(start: nat, length: nat, message: Message) {
    function End(): nat { start + length }
  }

  ghost predicate Genuine(d: Delivery, stream: seq<byte>) {
    && Sendable(d.message)
    && d.length == 12 + |d.message.topic| + |d.message.payload|
    && d.End() <= |stream|
    && stream[d.start..d.End()] == Frame(d.message)
  }

  /** No message that is too long for the reader is ever found. */
  lemma GenuineLimits(d: Delivery, stream: seq<byte>)
    requires Genuine(d, stream)
    ensures |d.message.topic| <= 64 && |d.message.payload| <= 1024
  {
    hide Frame;
  }

  lemma GenuineExtends(d: Delivery, stream: seq<byte>, known: nat)
    requires known <= |stream| && Genuine(d, stream[..known])
    ensures Genuine(d, stream)
  {
    hide Frame;
    SliceOfPrefix(stream, known, d.start, d.End());
  }

  ghost predicate AllGenuine(log: seq<Delivery>, stream: seq<byte>) {
    forall i :: 0 <= i < |log| ==> Genuine(log[i], stream)
  }

  lemma AllGenuineExtends(log: seq<Delivery>, stream: seq<byte>, more: seq<byte>)
    requires AllGenuine(log, stream)
    ensures AllGenuine(log, stream + more)
  {
    hide Frame;
    forall i | 0 <= i < |log| ensures Genuine(log[i], stream + more) {
      assert (stream + more)[log[i].start..log[i].End()] == stream[log[i].start..log[i].End()];
    }
  }

  ghost predicate Ordered(log: seq<Delivery>) {
    forall i :: 0 <= i < |log| - 1 ==> log[i].End() <= log[i + 1].start + 8
  }

  // ---------- Positions of the stream that have been judged ----------

  /** The frames the leftmost scan finds from a position on, and where it finds them. */
  ghost function FramesFrom(stream: seq<byte>, at: nat): seq<Delivery>
    decreases |stream| - at
  {
    if at > |stream| then [] else
    match Judge(stream[at..])
    case NeedHeader => []
    case Incomplete(_) => []
    case BadSize => FramesFrom(stream, at + 1)
    case BadChecksum => FramesFrom(stream, at + 1)
    case Found(n, m) => [Delivery(at, n, m)] + FramesFrom(stream, at + n)
  }

  function LogMessages(log: seq<Delivery>): (ms: seq<Message>)
    ensures |ms| == |log|
  {
    seq(|log|, i requires 0 <= i < |log| => log[i].message)
  }

  /** Without the positions, these are the messages of the pure scan. */
  lemma {:induction false} FramesFromMessages(stream: seq<byte>, at: nat)
    requires at <= |stream|
    ensures LogMessages(FramesFrom(stream, at)) == Messages(stream[at..])
    decreases |stream| - at
  {
    hide Judge;
    var s := stream[at..];
    match Judge(s)
    case NeedHeader =>
    case Incomplete(_) =>
    case Found(n, m) =>
      FramesFromMessages(stream, at + n);
      assert s[n..] == stream[at + n..];
    case BadSize =>
      JudgeEmpty();
      FramesFromMessages(stream, at + 1);
      assert s[1..] == stream[at + 1..];
    case BadChecksum =>
      JudgeEmpty();
      FramesFromMessages(stream, at + 1);
      assert s[1..] == stream[at + 1..];
  }

  lemma JudgeParts(w: seq<byte>)
    requires |w| >= 8
    ensures var t, p := TopicLength(w), PayloadLength(w);
            var n := 12 + t + p;
            Judge(w) == if t > MAX_TOPIC || p > MAX_PAYLOAD then BadSize
                        else if |w| < n then Incomplete(n)
                        else if !ChecksumHolds(w[..n]) then BadChecksum
                        else Found(n, Message(w[8..8 + t], w[8 + t..n - 4]))
  {
    hide ChecksumHolds, TopicLength, PayloadLength;
  }

  lemma JudgedEarly(stream: seq<byte>, known: nat, at: nat)
    requires at <= known <= |stream|
    requires var v := Judge(stream[at..known]); !v.NeedHeader? && !v.Incomplete?
    ensures Judge(stream[at..]) == Judge(stream[at..known])
  {
    hide Judge;
    JudgeStable(stream[at..known], stream[known..]);
    assert stream[at..] == stream[at..known] + stream[known..];
  }

  lemma SkipByte(stream: seq<byte>, known: nat, at: nat)
    requires at < known <= |stream|
    requires var v := Judge(stream[at..known]); v.BadSize? || v.BadChecksum?
    ensures FramesFrom(stream, at) == FramesFrom(stream, at + 1)
  {
    hide Judge;
    JudgedEarly(stream, known, at);
  }

  lemma TakeFrame(stream: seq<byte>, known: nat, at: nat)
    requires at <= known <= |stream| && Judge(stream[at..known]).Found?
    ensures var v := Judge(stream[at..known]);
            && FramesFrom(stream, at) == [Delivery(at, v.length, v.message)] + FramesFrom(stream, at + v.length)
            && Genuine(Delivery(at, v.length, v.message), stream[..known])
  {
    hide Judge, Frame;
    var v := Judge(stream[at..known]);
    JudgedEarly(stream, known, at);
    FoundIff(stream[at..known], v.length, v.message);
    assert stream[at..known][..v.length] == stream[..known][at..at + v.length];
  }

  lemma FramesFromAligned(stream: seq<byte>, at: nat, m: Message, rest: seq<byte>)
    requires Sendable(m) && at <= |stream| && stream[at..] == Frame(m) + rest
    ensures FramesFrom(stream, at) == [Delivery(at, |Frame(m)|, m)] + FramesFrom(stream, at + |Frame(m)|)
  {
    hide Frame, Judge;
    assert stream[at..][..|Frame(m)|] == Frame(m);
    FoundIff(stream[at..], |Frame(m)|, m);
  }

  lemma NothingLeft(stream: seq<byte>, at: nat)
    requires at <= |stream|
    requires |stream| - at < 8 || Judge(stream[at..]).Incomplete?
    ensures FramesFrom(stream, at) == []
  {
    hide ChecksumHolds, TopicLength, PayloadLength;
  }

  /** A frame is at least 12 bytes long. */
  lemma {:induction false} TooShort(stream: seq<byte>, at: nat)
    requires at <= |stream| < at + 12
    ensures FramesFrom(stream, at) == []
    decreases |stream| - at
  {
    hide ChecksumHolds, TopicLength, PayloadLength;
    if at + 8 > |stream| || Judge(stream[at..]).Incomplete? {
      NothingLeft(stream, at);
    } else {
      TooShort(stream, at + 1);
    }
  }

  lemma LogEnds(log: seq<Delivery>, stream: seq<byte>)
    requires AllGenuine(log, stream) && log != []
    ensures log[|log| - 1].End() <= |stream|
  {
    hide Frame;
    assert Genuine(log[|log| - 1], stream);
  }

  lemma LogGrows(log: seq<Delivery>, d: Delivery, stream: seq<byte>)
    requires AllGenuine(log, stream) && Ordered(log) && Genuine(d, stream)
    requires log != [] ==> log[|log| - 1].End() <= d.start + 8
    ensures AllGenuine(log + [d], stream) && Ordered(log + [d])
  {
    hide Genuine;
  }

  /** Returned frames start at ever later positions: none is returned twice. */
  lemma {:induction false} StartsIncrease(log: seq<Delivery>, stream: seq<byte>, i: nat, j: nat)
    requires AllGenuine(log, stream) && Ordered(log) && i < j < |log|
    ensures log[i].start < log[j].start
    decreases j
  {
    hide Frame;
    assert Genuine(log[j - 1], stream);
    assert log[j - 1].End() <= log[j - 1 + 1].start + 8;
    if i < j - 1 {
      StartsIncrease(log, stream, i, j - 1);
    }
  }

  lemma {:induction false} FirstOf(stream: seq<byte>, at: nat)
    requires FramesFrom(stream, at) != []
    ensures var d := FramesFrom(stream, at)[0];
            d.start >= at && FramesFrom(stream, at) == [d] + FramesFrom(stream, d.End())
    decreases |stream| - at
  {
    hide Judge;
    match Judge(stream[at..])
    case BadSize => FirstOf(stream, at + 1);
    case BadChecksum => FirstOf(stream, at + 1);
    case Found(n, m) =>
  }

  /** Two scans that find the same frame first find the same frames. */
  lemma SameFirst(stream: seq<byte>, a: nat, b: nat)
    requires FramesFrom(stream, a) != [] && FramesFrom(stream, b) != []
    requires FramesFrom(stream, a)[0] == FramesFrom(stream, b)[0]
    ensures FramesFrom(stream, a) == FramesFrom(stream, b)
  {
    hide FramesFrom;
    FirstOf(stream, a);
    FirstOf(stream, b);
  }

  lemma {:induction false} FramesStartLater(stream: seq<byte>, at: nat)
    ensures forall i :: 0 <= i < |FramesFrom(stream, at)| ==> FramesFrom(stream, at)[i].start >= at
    decreases |stream| - at
  {
    hide Judge;
    if at <= |stream| {
      match Judge(stream[at..])
      case NeedHeader =>
      case Incomplete(_) =>
      case Found(n, m) => FramesStartLater(stream, at + n);
      case BadSize => FramesStartLater(stream, at + 1);
      case BadChecksum => FramesStartLater(stream, at + 1);
    }
  }
}
