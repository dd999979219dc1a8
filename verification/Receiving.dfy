/**
 Whole runs of a MessageReader: calls repeated until the source is at its end.
 */
module Receiving {
  import opened Bytes
  import opened CrcTable
  import opened Codec
  import opened Scan
  import opened IoReader
  import opened Endpoint
  import opened Positions
  import opened Course
  import opened Runs
  import opened Carrying
  import opened MessageReader

  lemma LogMessagesGain(ds: seq<Delivery>, more: seq<Delivery>)
    ensures LogMessages(ds + more) == LogMessages(ds) + LogMessages(more)
  {}

  lemma NoMessages()
    ensures LogMessages([]) == []
  {}

  lemma RestUnfolds(r: MessageReader)
    requires r.Valid()
    ensures var s, g, t := r.Stream(), r.Here(), r.Next();
            && Holds(s, g) && g.Position() <= |s| && Proper(s, g, t) && Holds(s, t.end)
            && r.Rest() == (if Last(t) then t else Then(t, Running(s, t.end)))
  {
    hide MessageReader.Valid, Running, Turning, Tracks, Stays, Weight, Pending, HasError, Genuine, Harmless;
    r.HereHolds();
    RunningUnfolds(r.Stream(), r.Here());
  }

  lemma FoundMessages(s: seq<byte>, t: Result)
    requires Holds(s, t.end) && Finds(s, t)
    ensures LogMessages(t.got) == if t.answer.Delivered? then [t.answer.message] else []
  {}

  /** One call of a run, and the run after it. */
  method CallOnce(r: MessageReader) returns (last: Answer, ghost t: Result)
    requires r.Valid()
    modifies r, r.buffer, r.source.repr
    ensures r.Valid() && r.Stream() == old(r.Stream()) && r.Position() <= |r.Stream()|
    ensures t == old(r.Next()) && last == t.answer && r.Here() == t.end && r.log == old(r.log) + t.got
    ensures r.skips == old(r.skips) + |t.jumps| && r.rewinds == old(r.rewinds) + t.rewinds
    ensures LogMessages(t.got) == if last.Delivered? then [last.message] else []
    ensures old(r.Rest()) == if Last(t) then t else Then(t, r.Rest())
    ensures !Last(t) ==>
              || Weight(r.script) < old(Weight(r.script))
              || (Weight(r.script) == old(Weight(r.script)) && r.Position() > old(r.Position()))
  {
    hide MessageReader.Valid, MessageReader.Stream, MessageReader.Next, MessageReader.Rest;
    hide FramesFrom, LogMessages, Weight, Running, Harmless, Onward, Interrupted, Pending, Genuine, Holds;
    RestUnfolds(r);
    ghost var stream, here := r.Stream(), r.Here();
    t := r.Next();
    if !Last(t) {
      RunGoesOn(stream, here, t);
    }
    FoundMessages(stream, t);
    HoldsSane(stream, t.end);
    last := r.ReadMessage();
    RestIs(r);
  }

  /**
   Call ReadMessage until it fails with the source at its end, going on after every earlier
   error. The run takes the course foretold by where the reader stands at its start. If it does
   not jump and comes to the end, it returns exactly what the scan of the whole stream finds if
   and only if every call starts where the scan is as good, and so in any run without rewinds,
   however the bytes were cut into reads and wherever errors came between.
   */
  method Drain(r: MessageReader) returns (ms: seq<Message>, last: Answer)
    requires r.Valid()
    modifies r, r.buffer, r.source.repr
    ensures r.Valid() && r.Stream() == old(r.Stream())
    ensures var run := old(r.Rest());
            && ms == LogMessages(run.got) && last == run.answer && r.Here() == run.end && r.log == old(r.log) + run.got
            && r.skips == old(r.skips) + |run.jumps| && r.rewinds == old(r.rewinds) + run.rewinds
    ensures last.Spins? || (last.Failed? && r.script == [])
    ensures forall i :: 0 <= i < |ms| ==> |ms[i].topic| <= 64 && |ms[i].payload| <= 1024
    ensures last.Failed? && r.skips == old(r.skips) ==>
              (old(r.Rest()).got == FramesFrom(r.Stream(), old(r.Position())) <==> old(r.Straight()))
    ensures r.rewinds == old(r.rewinds) ==> old(r.Straight())
  {
    hide MessageReader.Valid, MessageReader.Stream, MessageReader.Next, MessageReader.Rest, MessageReader.Straight;
    hide FramesFrom, LogMessages, Weight, Running, Harmless;
    RestIs(r);
    RunIs(r.Stream(), r.Here(), r.Rest());
    ghost var stream, done := r.Stream(), Ends(Spins, r.Here());
    ThenFrom(Spins, r.Here(), r.Rest());
    NoMessages();
    ms := [];
    while true
      invariant r.Valid() && r.Stream() == stream && ms == LogMessages(done.got)
      invariant r.log == old(r.log) + done.got
      invariant r.skips == old(r.skips) + |done.jumps| && r.rewinds == old(r.rewinds) + done.rewinds
      invariant old(r.Rest()) == Then(done, r.Rest())
      decreases Weight(r.script), |stream| - r.Position()
    {
      ghost var t;
      last, t := CallOnce(r);
      LogMessagesGain(done.got, t.got);
      ThenSum(done, t, r.Rest());
      assert (old(r.log) + done.got) + t.got == old(r.log) + (done.got + t.got);
      assert ms + [] == ms;
      done := Then(done, t);
      var end := r.AtSourceEnd();
      if last.Delivered? {
        ms := ms + [last.message];
      } else if last.Spins? || end {
        return;
      }
    }
  }

  lemma RestIs(r: MessageReader)
    requires r.Valid()
    ensures Holds(r.Stream(), r.Here()) && r.Rest() == Running(r.Stream(), r.Here())
    ensures r.Straight() == Harmless(r.Stream(), r.Here())
  {
    hide MessageReader.Valid, Running, Harmless, Holds;
    r.HereHolds();
  }

  lemma RunIs(s: seq<byte>, g: Stage, run: Result)
    requires Holds(s, g) && run == Running(s, g)
    ensures run.answer.Failed? && run.jumps == [] ==> (run.got == FramesFrom(s, g.Position()) <==> Harmless(s, g))
    ensures run.rewinds == 0 ==> Harmless(s, g)
    ensures forall i :: 0 <= i < |run.got| ==>
              |LogMessages(run.got)[i].topic| <= 64 && |LogMessages(run.got)[i].payload| <= 1024
  {
    hide Holds, Running, Harmless, FramesFrom, Genuine;
    RunGenuine(s, g);
    forall i | 0 <= i < |run.got| ensures |run.got[i].message.topic| <= 64 && |run.got[i].message.payload| <= 1024 {
      GenuineLimits(run.got[i], s);
    }
    if run.answer.Failed? && run.jumps == [] {
      HarmlessIff(s, g);
    }
    if run.rewinds == 0 {
      NoRewindHarmless(s, g);
    }
  }

  /**
   Reads of at least 8 bytes and a stream of at most 1024 bytes: the result is the leftmost scan
   of the stream, so it does not depend on where the stream was cut.
   */
  method ReceiveChunks(table: seq<bv32>, script: seq<Event>) returns (ms: seq<Message>)
    requires IsTable(table)
    requires |Pending(script)| <= 1024 && Chunky(script)
    ensures ms == Messages(Pending(script))
  {
    hide Messages, Pending, Chunky, Running, Harmless, FramesFrom, LogMessages, MessageReader.Valid;
    var source := new Source.Connection(script);
    var r := new MessageReader(table, source);
    assert r.Stream() == Pending(script);
    RestIs(r);
    SmallRun(r.Stream(), r.Here());
    var last;
    ms, last := Drain(r);
    FramesFromMessages(r.Stream(), 0);
    assert r.Stream()[0..] == r.Stream();
  }

  /**
   Frames cut into reads, each in a group of reads of its own: those that find room are returned
   in order. When all do, exactly they are returned and then the end of the source; when one
   does not, the reader never returns it.
   */
  method ReceiveCarried(r: MessageReader, ghost groups: seq<seq<Event>>, ghost ms: seq<Message>)
    returns (got: seq<Message>, last: Answer)
    requires AllCarried(groups, ms) && r.Valid() && r.pos == r.count && r.script == Concat(groups)
    modifies r, r.buffer, r.source.repr
    ensures r.Valid() && r.Stream() == old(r.Stream())
    ensures got == LogMessages(old(r.Rest()).got) && last == old(r.Rest()).answer && r.log == old(r.log + r.Rest().got)
    ensures var k, all := Arriving(old(r.count), groups), FramesFrom(r.Stream(), old(r.Position()));
            && LogMessages(all) == ms && ms[..k] <= got
            && (if k == |ms| then got == ms && last == Failed(EOF) && r.skips == old(r.skips)
                else r.skips > old(r.skips) && (Ample(groups) ==> all[k] !in old(r.Rest()).got))
  {
    hide Pending, FramesFrom, Running, Harmless, MessageReader.Valid, MessageReader.Stream, Concat, Frame;
    hide AllCarried, Arriving, LogMessages, Ample;
    RestIs(r);
    ghost var s, g, k := r.Stream(), r.Here(), Arriving(r.count, groups);
    FramesArrive(s, g, groups, ms);
    ghost var run, all := r.Rest(), FramesFrom(s, g.Position());
    got, last := Drain(r);
    LogMessagesPart(run.got, k);
    LogMessagesPart(all, k);
  }

  lemma LogMessagesPart(ds: seq<Delivery>, k: nat)
    requires k <= |ds|
    ensures LogMessages(ds)[..k] == LogMessages(ds[..k])
  {}

  /** Each frame in a read of its own. */
  function OneRead(ms: seq<Message>): (groups: seq<seq<Event>>)
    requires AllSendable(ms)
    ensures |groups| == |ms|
  {
    seq(|ms|, i requires 0 <= i < |ms| => [Data(Frame(ms[i]))])
  }

  lemma OneReadCarries(m: Message)
    requires Sendable(m)
    ensures Carries([Data(Frame(m))], Frame(m)) && Carried([Data(Frame(m))], 0) == 0
  {
    hide Frame;
    OnePending(Data(Frame(m)));
  }

  lemma {:induction false} OneReadArrives(count: nat, ms: seq<Message>)
    requires AllSendable(ms) && forall i :: 0 <= i < |ms| ==> |Frame(ms[i])| <= 1024
    ensures AllCarried(OneRead(ms), ms) && Arriving(count, OneRead(ms)) == |ms|
    decreases |ms|
  {
    hide Frame, Pending, Carries;
    forall i | 0 <= i < |ms| ensures Carries(OneRead(ms)[i], Frame(ms[i])) {
      OneReadCarries(ms[i]);
    }
    if ms != [] {
      OneReadCarries(ms[0]);
      CarriedZero([Data(Frame(ms[0]))]);
      OnePending(Data(Frame(ms[0])));
      assert OneRead(ms)[1..] == OneRead(ms[1..]);
      OneReadArrives(Packed(count) + |Frame(ms[0])|, ms[1..]);
    }
  }

  /** Any number of frames of at most 1024 bytes, each delivered by a read of its own, all arrive. */
  method ReceiveFrames(r: MessageReader, ghost ms: seq<Message>) returns (got: seq<Message>, last: Answer)
    requires forall i :: 0 <= i < |ms| ==> |ms[i].topic| <= 64 && 12 + |ms[i].topic| + |ms[i].payload| <= 1024
    requires r.Valid() && r.pos == r.count && r.script == Concat(OneRead(ms))
    modifies r, r.buffer, r.source.repr
    ensures got == ms && last == Failed(EOF)
  {
    hide MessageReader.Valid, Frame, FramesFrom, LogMessages, Concat, OneRead, Arriving, AllCarried;
    OneReadArrives(r.count, ms);
    got, last := ReceiveCarried(r, OneRead(ms), ms);
  }
}
