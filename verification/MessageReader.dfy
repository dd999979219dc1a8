/**
 MessageReader of lib/go/qdp.go: a 2048-byte buffer that is compacted in place, fed by short
 reads, and hunted byte by byte for a frame whose checksum holds.
 */
module MessageReader {
  import opened Bytes
  import opened Crc32
  import opened CrcDetection
  import opened CrcTable
  import opened Codec
  import opened Scan
  import opened IoReader
  import opened Endpoint
  import opened Positions
  import opened Course
  import opened Runs

  class MessageReader {
    const table: seq<bv32>
    const source: Source
    const buffer: array<byte>
    var pos: nat
    var count: nat
    ghost var script: seq<Event>  // what the source will still answer
    // History: every byte read so far, where buffer[0] lies in it, what was returned, and how
    // often the scan position was moved forwards or backwards by other than judging a byte.
    ghost var received: seq<byte>
    ghost var base: nat
    ghost var log: seq<Delivery>
    ghost var skips: nat
    ghost var rewinds: nat

    /** NewMessageReader. */
    constructor (table: seq<bv32>, source: Source)
      requires IsTable(table) && source.Valid()
      ensures Valid() && fresh(buffer) && buffer.Length == 2048
      ensures pos == count == base == skips == rewinds == 0 && received == [] && log == []
      ensures script == source.Script() && this.source == source && this.table == table
    {
      this.table, this.source := table, source;
      buffer := new byte[BUFFER_SIZE];
      pos, count := 0, 0;
      script := source.Script();
      received, base, log, skips, rewinds := [], 0, [], 0, 0;
    }

    /** The cursors are in range and the buffer holds the end of the received stream. */
    ghost predicate Window()
      reads this`pos, this`count, this`base, this`received, buffer
    {
      && buffer.Length == BUFFER_SIZE
      && pos <= count <= BUFFER_SIZE
      && base + count == |received|
      && buffer[..count] == received[base..]
    }

    /** Every message returned so far is genuine, and the returned frames start later and later. */
    ghost predicate History()
      reads this`pos, this`base, this`received, this`log
    {
      && AllGenuine(log, received)
      && Ordered(log)
      && (log != [] ==> log[|log| - 1].End() <= base + pos + 8)
    }

    /** The source stands where the script says, and is no part of the reader. */
    ghost predicate Attached()
      reads this`script, source, source.repr
      ensures Attached() ==> this !in source.repr && buffer !in source.repr
    {
      this !in source.repr && buffer !in source.repr && source.Valid() && source.Script() == script
    }

    ghost predicate Valid()
      reads this`pos, this`count, this`base, this`received, this`log, this`script, buffer, source, source.repr
      ensures Valid() ==> buffer.Length == BUFFER_SIZE && pos <= count <= BUFFER_SIZE && base + count == |received|
      ensures Valid() ==> this !in source.repr && buffer !in source.repr
    {
      IsTable(table) && Window() && History() && Attached()
    }

    ghost function Here(): Stage
      reads this`base, this`pos, this`count, this`script
    {
      Stage(base, pos, count, script)
    }

    ghost function Position(): nat
      reads this`base, this`pos
    {
      base + pos
    }

    /** Everything the source has delivered and will deliver. */
    ghost function Stream(): seq<byte>
      reads this`received, this`script
    {
      received + Pending(script)
    }

    lemma HereHolds()
      requires Valid()
      ensures Holds(Stream(), Here())
    {
      hide IsTable, Attached, History, Pending;
    }

    /** The course of the inner loop from a slot on. */
    ghost function Ahead(at: nat): Result
      reads this`base, this`pos, this`count, this`script, this`received
    {
      if Holds(Stream(), Here()) then Hunting(Stream(), Here(), at) else Ends(Spins, Here())
    }

    /** The course of the next call. */
    ghost function Next(): Result
      reads this`base, this`pos, this`count, this`script, this`received
    {
      if Holds(Stream(), Here()) then Turning(Stream(), Here()) else Ends(Spins, Here())
    }

    /** The course of all calls from here on. */
    ghost function Rest(): Result
      reads this`base, this`pos, this`count, this`script, this`received
    {
      if Holds(Stream(), Here()) then Running(Stream(), Here()) else Ends(Spins, Here())
    }

    /** No call from here on starts where the scan would find something else. */
    ghost predicate Straight()
      reads this`base, this`pos, this`count, this`script, this`received
    {
      Holds(Stream(), Here()) && Harmless(Stream(), Here())
    }

    ghost function Tail(): Result
      reads this`base, this`pos, this`count, this`script, this`received
    {
      if Holds(Stream(), Here()) then Tailing(Stream(), Here()) else Ends(Spins, Here())
    }

    /** The received bytes from a slot on are what the buffer holds there. */
    lemma Views(at: nat)
      requires Valid() && at <= count
      ensures Holds(Stream(), Here()) && View(Stream(), Here(), at) == buffer[at..count]
    {
      hide IsTable, Attached, History, Pending;
      assert buffer[at..count] == buffer[..count][at..] == received[base..][at..];
    }

    method Compact()
      requires Valid()
      modifies this`pos, this`count, this`base, buffer
      ensures Valid() && pos == 0 && base == old(base + pos)
    {
      hide IsTable, Attached, AllGenuine, Ordered;
      forall i | 0 <= i < count - pos {
        buffer[i] := buffer[pos + i];
      }
      base := base + pos;
      count := count - pos;
      pos := 0;
    }

    /** What Read copied into the free end of the buffer. */
    method Append(bytes: seq<byte>)
      requires Valid() && count + |bytes| <= BUFFER_SIZE
      modifies this`count, this`received, buffer
      ensures Valid() && received == old(received) + bytes
    {
      hide IsTable, Attached, AllGenuine, Ordered;
      AllGenuineExtends(log, received, bytes);
      forall i | 0 <= i < |bytes| {
        buffer[count + i] := bytes[i];
      }
      assert buffer[..count + |bytes|] == received[base..] + bytes == (received + bytes)[base..];
      received := received + bytes;
      count := count + |bytes|;
    }

    method Fill() returns (err: Option<nat>)
      requires Valid()
      modifies this`count, this`script, this`received, buffer, source.repr
      ensures Valid()
      ensures var r := Read(old(script), BUFFER_SIZE - old(count));
              received == old(received) + r.bytes && script == r.rest && err == r.error
      ensures Stream() == old(Stream())
    {
      hide IsTable, Window, History, Read, Pending, Weight, Source.Valid, Source.Script;
      var bytes;
      bytes, err := source.Read(buffer.Length - count);
      script := source.Script();
      Append(bytes);
      return if |bytes| > 0 then None else err;
    }

    method ReadMore() returns (err: Option<nat>)
      requires Valid()
      modifies this`pos, this`count, this`script, this`received, this`base, buffer, source.repr
      ensures Valid() && Stream() == old(Stream())
      ensures Here() == old(Here().Fetched()) && err == old(Here().Coming().error)
      ensures received == old(received + Here().Coming().bytes)
    {
      hide IsTable, Attached, AllGenuine, Ordered, Read, Pending, Weight;
      if count > buffer.Length / 2 {
        Compact();
      }
      err := Fill();
    }

    /** tryParseMessage: succeeds exactly when a frame is found at start, with the frame's message. */
    method TryParse(start: nat, totalLen: nat) returns (r: Outcome<Message>)
      requires Valid() && start + 8 <= count
      requires totalLen == 12 + TopicLength(buffer[start..count]) + PayloadLength(buffer[start..count])
      ensures r.Ok? <==> Judge(buffer[start..count]).Found?
      ensures r.Ok? ==> Judge(buffer[start..count]) == Found(totalLen, r.value)
    {
      hide Judge, Checksum, ReadWord, IsTable, AllGenuine, Ordered, TopicLength, PayloadLength;
      ghost var w := buffer[start..count];
      JudgeParts(w);
      if start + totalLen > count {
        return InvalidMessage;
      }
      var data := buffer[start..start + totalLen];
      assert data == w[..totalLen];
      var receivedCrc := ReadWord(data[totalLen - 4..]);
      var calculatedCrc := CalculateGo(table, data[..totalLen - 4]);
      if receivedCrc != calculatedCrc {
        return ChecksumMismatch;
      }
      var topicLen, payloadLen := TopicLength(data), PayloadLength(data);
      HeaderPrefix(w, totalLen);
      if topicLen > MAX_TOPIC || payloadLen > MAX_PAYLOAD {
        return InvalidMessage;
      }
      SliceOfPrefix(w, totalLen, 8, 8 + topicLen);
      SliceOfPrefix(w, totalLen, 8 + topicLen, totalLen - 4);
      r := Ok(Message(data[8..8 + topicLen], data[8 + topicLen..totalLen - 4]));
    }

    /** A frame found at startPos: log it and step over it. */
    method Accept(startPos: nat, length: nat, m: Message)
      requires Valid() && pos <= startPos <= count
      requires Judge(buffer[startPos..count]) == Found(length, m)
      modifies this`log, this`pos
      ensures Valid() && pos == startPos + length
      ensures log == old(log) + [Delivery(base + startPos, length, m)]
    {
      hide IsTable, AllGenuine, Genuine, Ordered, Judge, FramesFrom, Pending;
      ghost var d := Delivery(base + startPos, length, m);
      assert buffer[startPos..count] == Stream()[base + startPos..|received|];
      TakeFrame(Stream(), |received|, base + startPos);
      assert Stream()[..|received|] == received;
      LogGrows(log, d, received);
      pos := startPos + length;
      log := log + [d];
    }

    /** Lines 468-474: a plausible frame at startPos is not complete yet; read more or give up. */
    method Await(startPos: nat, totalLen: nat) returns (r: Option<Answer>)
      requires Valid() && pos <= startPos <= count
      requires Judge(buffer[startPos..count]) == Incomplete(totalLen)
      modifies this, buffer, source.repr
      ensures Valid() && Stream() == old(Stream())
      ensures log == old(log) && rewinds == old(rewinds) && pos <= startPos
      ensures r == Some(Spins) <==> old(Here().Full())
      ensures r == Some(Spins) ==> Here() == old(Here())
      ensures r != Some(Spins) ==>
                && Here() == old(Here().Fetched())
                && r == match old(Here().Coming().error) case Some(code) => Some(Failed(code)) case None => None
      ensures skips == old(skips) + if r.None? && old(pos > 0 && count > 1024) then 1 else 0
    {
      hide IsTable, Attached, AllGenuine, Ordered, Judge, Pending, Read;
      ghost var moves := pos > 0 && count > HALF;
      var full := count == buffer.Length && pos == 0;
      var err := ReadMore();
      if err.Some? {
        if startPos + totalLen > count {
          return Some(Failed(err.value));
        }
      }
      if full {
        // Read was given an empty slice; the next iteration finds the same bytes, and so on.
        return Some(Spins);
      }
      if moves {
        skips := skips + 1;
      }
      return None;
    }

    /** Lines 452-461: what the header, and for a complete frame the checksum, say about startPos. */
    method Classify(startPos: nat) returns (v: Verdict)
      requires Valid() && startPos + 8 <= count
      ensures v == Judge(buffer[startPos..count]) && !v.NeedHeader?
    {
      hide Valid, Judge, TopicLength, PayloadLength, ChecksumHolds;
      JudgeParts(buffer[startPos..count]);
      var topicLen, payloadLen := TopicLength(buffer[startPos..count]), PayloadLength(buffer[startPos..count]);
      if topicLen <= MAX_TOPIC && payloadLen <= MAX_PAYLOAD {
        var totalLen := 8 + topicLen + payloadLen + 4;
        if startPos + totalLen <= count {
          var msg := TryParse(startPos, totalLen);
          v := if msg.Ok? then Found(totalLen, msg.value) else BadChecksum;
        } else {
          v := Incomplete(totalLen);
        }
      } else {
        v := BadSize;
      }
    }

    /** What the course from a slot on is, by what the bytes there say. */
    lemma AheadStep(at: nat)
      requires Valid() && at + 8 <= count
      ensures match Judge(buffer[at..count])
              case Found(n, m) =>
                Ahead(at) == Result(Delivered(m), [Delivery(base + at, n, m)], Here().(pos := at + n), [], 0)
              case Incomplete(_) => Ahead(at) == Waiting(Stream(), Here(), at)
              case _ => Ahead(at) == Ahead(at + 1)
    {
      hide Valid, Judge, Waiting, Tailing, Stream;
      Views(at);
    }

    /** One iteration of the inner loop: judge the bytes at startPos. */
    method Examine(startPos: nat)
      returns (r: Option<Answer>, next: nat, ghost jumps: seq<nat>, ghost got: seq<Delivery>)
      requires Valid() && pos <= startPos && startPos + 8 <= count
      modifies this, buffer, source.repr
      ensures Valid() && Stream() == old(Stream())
      ensures log == old(log) + got && rewinds == old(rewinds) && skips == old(skips) + |jumps|
      ensures r.Some? ==> old(Ahead(startPos)) == Result(r.value, got, Here(), [], 0) && jumps == []
      ensures r.None? ==> got == [] && old(Ahead(startPos)) == After(jumps, 0, Ahead(next)) && pos <= next
      ensures r.None? ==>
                || Weight(script) < old(Weight(script))
                || (next == startPos + 1 && count == old(count) && script == old(script))
      ensures Weight(script) <= old(Weight(script))
    {
      hide Valid, Judge, Weight, Read, Stream, Hunting, Holds;
      HereHolds();
      AheadStep(startPos);
      FetchedLater(Here());
      AfterNothing(Ahead(startPos));
      ghost var here := Here();
      next, jumps, got := startPos, [], [];
      var v := Classify(startPos);
      if v.Found? {
        Accept(startPos, v.length, v.message);
        got := [Delivery(base + startPos, v.length, v.message)];
        r := Some(Delivered(v.message));
      } else if v.Incomplete? {
        r := Await(startPos, v.size);
        HereHolds();
        if r.None? {
          jumps := Jump(here, Here(), startPos);
        }
      } else {
        r, next := None, startPos + 1;
      }
    }

    /** The inner loop. None means the buffer was exhausted without a message. */
    method Hunt() returns (r: Option<Answer>, ghost jumps: seq<nat>, ghost got: seq<Delivery>)
      requires Valid()
      modifies this, buffer, source.repr
      ensures Valid() && Stream() == old(Stream())
      ensures log == old(log) + got && rewinds == old(rewinds) && skips == old(skips) + |jumps|
      ensures r.Some? ==> old(Ahead(pos)) == Result(r.value, got, Here(), jumps, 0)
      ensures r.None? ==> got == [] && old(Ahead(pos)) == After(jumps, 0, Tail())
      ensures Weight(script) <= old(Weight(script))
    {
      hide Valid, Weight, Stream, Ahead, Tail;
      ghost var stream := Stream();
      var startPos := pos;
      jumps, got := [], [];
      AfterNothing(Ahead(pos));
      while startPos + 8 <= count
        invariant Valid() && Stream() == stream && got == [] && log == old(log) && pos <= startPos
        invariant rewinds == old(rewinds) && skips == old(skips) + |jumps|
        invariant old(Ahead(pos)) == After(jumps, 0, Ahead(startPos))
        invariant Weight(script) <= old(Weight(script))
        decreases Weight(script), if startPos <= count then count - startPos else 0
      {
        ghost var more;
        r, startPos, more, got := Examine(startPos);
        AfterSum(jumps, more, 0, 0, Ahead(startPos));
        jumps := jumps + more;
        if r.Some? {
          return;
        }
      }
      Exhausted(startPos);
      return None, jumps, [];
    }

    lemma Exhausted(at: nat)
      requires at + 8 > count
      ensures Ahead(at) == Tail()
    {
      hide Pending, Weight;
    }

    /** Lines 441-447: have at least a header's worth of unread bytes, if one read can get them. */
    method EnsureHeader() returns (err: Option<nat>)
      requires Valid()
      modifies this`pos, this`count, this`script, this`received, this`base, buffer, source.repr
      ensures Valid() && Stream() == old(Stream())
      ensures if old(count - pos) >= 8 then Here() == old(Here()) && err == None
              else Here() == old(Here().Fetched()) && err == old(Here().Coming().error)
    {
      hide Valid, Stream, Read;
      err := None;
      if count - pos < 8 {
        err := ReadMore();
        if err.Some? {
          if count - pos < 8 { // Still not enough data after read
            return;
          }
          err := None;
        }
      }
    }

    /** Line 482: nothing found; keep the last 8 bytes. */
    method KeepTail()
      requires Valid()
      modifies this`pos, this`rewinds
      ensures Valid() && pos == KeptFrom(count) && rewinds == old(rewinds + Back(Here()))
      ensures pos < old(pos) <==> old(pos > 0 && count - pos < 8)
    {
      hide IsTable, AllGenuine, Ordered;
      if pos > 0 && count - pos < 8 {
        rewinds := rewinds + 1;
      }
      if log != [] {
        LogEnds(log, received);
      }
      pos := KeptFrom(count);
    }

    /** Lines 481-485: keep the last 8 bytes and read on. */
    method Retreat() returns (err: Option<nat>)
      requires Valid()
      modifies this`pos, this`count, this`script, this`received, this`base, this`rewinds, buffer, source.repr
      ensures Valid() && Stream() == old(Stream()) && rewinds == old(rewinds + Back(Here()))
      ensures var kept := old(Here().(pos := KeptFrom(count)));
              Here() == kept.Fetched() && err == kept.Coming().error
    {
      hide Valid, Stream, Read;
      KeepTail();
      err := ReadMore();
    }

    /** What the course of a call is, by what the header check finds. */
    lemma NextStep()
      requires Valid()
      ensures if count - pos >= 8 then Next() == Ahead(pos)
              else match Here().Coming().error
                case Some(code) => Next() == Ends(Failed(code), Here().Fetched())
                case None =>
                  && Holds(Stream(), Here().Fetched())
                  && Next() == Hunting(Stream(), Here().Fetched(), Here().Fetched().pos)
    {
      hide Valid, Hunting, Stream, Read, Holds;
      HereHolds();
      FetchedHolds(Stream(), Here());
    }

    lemma TailStep()
      requires Valid()
      ensures var kept := Here().(pos := KeptFrom(count));
              && Holds(Stream(), kept.Fetched())
              && Tail() == After([], Back(Here()),
                                 match kept.Coming().error
                                 case Some(code) => Ends(Failed(code), kept.Fetched())
                                 case None => Turning(Stream(), kept.Fetched()))
    {
      hide Valid, Turning, Stream, Read, Pending;
      HereHolds();
      FetchedHolds(Stream(), Here().(pos := KeptFrom(count)));
    }

    /** One iteration of the outer loop. None means that more bytes were read and it goes round again. */
    method Turn() returns (r: Option<Answer>, ghost jumps: seq<nat>, ghost back: nat, ghost got: seq<Delivery>)
      requires Valid()
      modifies this, buffer, source.repr
      ensures Valid() && Stream() == old(Stream())
      ensures log == old(log) + got && skips == old(skips) + |jumps| && rewinds == old(rewinds) + back
      ensures r.Some? ==> old(Next()) == Result(r.value, got, Here(), jumps, back)
      ensures r.None? ==> got == [] && old(Next()) == After(jumps, back, Next())
      ensures r.None? ==> Weight(script) < old(Weight(script))
    {
      hide Valid, Stream, Read, Weight, Holds, Hunting, Turning, Tailing;
      NextStep();
      FetchedLater(Here());
      var err := EnsureHeader();
      jumps, back, got := [], 0, [];
      if err.Some? {
        return Some(Failed(err.value)), [], 0, [];
      }
      HereHolds();
      r, jumps, got := Hunt();
      if r.Some? {
        return;
      }
      TailStep();
      back := Back(Here());
      ghost var kept := Here().(pos := KeptFrom(count));
      FetchedLater(kept);
      err := Retreat();
      HereHolds();
      if err.Some? {
        AfterEnd(jumps, back, Failed(err.value), Here());
        return Some(Failed(err.value)), jumps, back, [];
      }
      AfterSum(jumps, [], 0, back, Next());
      assert jumps + [] == jumps;
    }

    /** Where the scan of the next call last sets out: Origin, unless it jumps. */
    ghost function Landing(): nat
      requires pos <= count <= BUFFER_SIZE
      reads this`base, this`pos, this`count, this`script, this`received
    {
      LastOr(Next().jumps, Origin(Here()))
    }

    /** The loop of one call: iterations until one has an answer. */
    method Turns() returns (r: Answer)
      requires Valid()
      modifies this, buffer, source.repr
      ensures Valid() && Stream() == old(Stream())
      ensures r == old(Next().answer) && Here() == old(Next().end) && log == old(log + Next().got)
      ensures skips == old(skips + |Next().jumps|) && rewinds == old(rewinds + Next().rewinds)
    {
      hide Valid, Weight, Stream, Next;
      ghost var jumps, back := [], 0;
      AfterNothing(Next());
      while true
        invariant Valid() && Stream() == old(Stream()) && log == old(log)
        invariant skips == old(skips) + |jumps| && rewinds == old(rewinds) + back
        invariant old(Next()) == After(jumps, back, Next())
        decreases Weight(script)
      {
        var stop;
        ghost var more, again, got;
        stop, more, again, got := Turn();
        AfterSum(jumps, more, back, again, Next());
        jumps, back := jumps + more, back + again;
        if stop.Some? {
          return stop.value;
        }
      }
    }

    /**
     One call takes the course that the state before it foretells. Whatever that is, the stream is
     neither altered nor forgotten, a returned message is logged as genuine, and the call does what
     the leftmost scan does from Landing on.
     */
    method ReadMessage() returns (r: Answer)
      requires Valid()
      modifies this, buffer, source.repr
      ensures Valid() && Stream() == old(Stream())
      ensures r == old(Next().answer) && Here() == old(Next().end) && log == old(log + Next().got)
      ensures skips == old(skips + |Next().jumps|) && rewinds == old(rewinds + Next().rewinds)
      ensures Finds(Stream(), old(Next()))
      ensures |old(received)| <= |received| && old(base) <= base && Onward(old(script), script)
      ensures r.Failed? ==> Interrupted(old(script), script)
      ensures r.Delivered? ==> |r.message.topic| <= 64 && |r.message.payload| <= 1024
      ensures r.Spins? <==> pos == 0 && count == 2048
      ensures rewinds == old(rewinds) + if old(WillRewind(Here())) then 1 else 0
      ensures skips > old(skips) ==> |received| > old(base) + 1024
      ensures Holds(Stream(), old(Here())) && Foretold(Stream(), old(Here()), old(Next()))
      ensures old(Origin(Here())) <= old(Landing()) && (skips == old(skips) ==> old(Landing() == Origin(Here())))
      ensures r.Delivered? ==>
                FramesFrom(Stream(), old(Landing())) == [log[|log| - 1]] + FramesFrom(Stream(), Position())
      ensures r.Delivered? ==>
                (FramesFrom(Stream(), old(Position())) == [log[|log| - 1]] + FramesFrom(Stream(), Position()) <==>
                 FramesFrom(Stream(), old(Position())) == FramesFrom(Stream(), old(Landing())))
      ensures !r.Delivered? && skips == old(skips) ==>
                FramesFrom(Stream(), old(Landing())) == FramesFrom(Stream(), Position())
      ensures r.Failed? && Pending(script) == [] ==> FramesFrom(Stream(), old(Landing())) == []
    {
      hide Valid, Stream, Next, FramesFrom, Pending, Read, HasError, Weight, Genuine, Holds, Foretold;
      CourseIs();
      r := Turns();
    }

    /** Whether only the end of file is left to be read. */
    method AtSourceEnd() returns (end: bool)
      requires Valid()
      ensures end <==> script == []
    {
      hide IsTable, Window, History, Source.Valid, Source.Script;
      end := source.AtEnd();
    }

    lemma LimitsHold()
      requires Holds(Stream(), Here()) && Proper(Stream(), Here(), Next())
      ensures var a := Next().answer; a.Delivered? ==> |a.message.topic| <= 64 && |a.message.payload| <= 1024
    {
      hide Stream, Next, Genuine, Pending, Onward, Interrupted;
      var t := Next();
      if t.answer.Delivered? {
        GenuineLimits(t.got[0], Stream()[..t.end.Received()]);
      }
    }

    /** What holds of every course, here. */
    lemma CourseIs()
      requires Valid()
      ensures var t, from := Next(), Origin(Here());
              && Holds(Stream(), Here()) && Proper(Stream(), Here(), t)
              && Tracks(Stream(), from, t) && Stays(Stream(), from, t)
              && t.rewinds == (if WillRewind(Here()) then 1 else 0) && Foretold(Stream(), Here(), t)
              && (t.answer.Delivered? ==> |t.answer.message.topic| <= 64 && |t.answer.message.payload| <= 1024)
    {
      hide Valid, Proper, Tracks, Stays, Turning, Stream, Holds, Foretold;
      HereHolds();
      TurningProper(Stream(), Here());
      TurningSettled(Stream(), Here());
      TurningForetold(Stream(), Here());
      LimitsHold();
      TurningTracks(Stream(), Here(), Origin(Here()));
    }
  }
}
