/**
 The course of one ReadMessage of lib/go/qdp.go, and of repeated calls, as functions of where the
 reader stands in the stream. MessageReader computes them; what they find is compared with the
 leftmost scan here, where no buffer is in the way.
 */
module Course {
  import opened Bytes
  import opened Codec
  import opened Scan
  import opened IoReader
  import opened Positions

  const BUFFER_SIZE: nat := 2048
  const HALF: nat := BUFFER_SIZE / 2

  /** Spins: the Go loop repeats one iteration forever, because Read is handed an empty slice. */
  datatype Answer = Delivered(message: Message) | Failed(code: nat) | Spins

  /** Line 482: how much of count bytes is given up when nothing was found in them. */
  function KeptFrom(count: nat): nat {
    if count >= 8 then count - 8 else 0
  }

  /** Where a reader stands: the stream position of buffer[0], the cursors, and what the source will still answer. */
  datatype Stage = Stage(base: nat, pos: nat, count: nat, script: seq<Event>) {
    predicate Sane() { pos <= count <= BUFFER_SIZE }

    function Position(): nat { base + pos }

    function Received(): nat { base + count }

    /** The room the next Read is given, after compaction. */
    function Space(): nat
      requires Sane()
    {
      if count > HALF then BUFFER_SIZE - (count - pos) else BUFFER_SIZE - count
    }

    /** What the next Read will answer. */
    function Coming(): Reply
      requires Sane()
    {
      Read(script, Space())
    }

    /** readMore. */
    function Fetched(): (next: Stage)
      requires Sane()
      ensures next.Sane() && next.Position() == Position() && next.Received() == Received() + |Coming().bytes|
      ensures next.script == Coming().rest && base <= next.base
    {
      var r := Coming();
      if count > HALF then Stage(base + pos, 0, count - pos + |r.bytes|, r.rest)
      else Stage(base, pos, count + |r.bytes|, r.rest)
    }

    /** The buffer is full and nothing in it can be given up. */
    predicate Full() { pos == 0 && count == 2048 }

    /** A read now moves the bytes in the buffer. */
    predicate Moves() { pos > 0 && count > 1024 }
  }

  /** What the stream still holds behind the received bytes is what the source will deliver. */
  ghost predicate Holds(s: seq<byte>, g: Stage) {
    g.Sane() && g.Received() <= |s| && s[g.Received()..] == Pending(g.script)
  }

  lemma FetchedHolds(s: seq<byte>, g: Stage)
    requires Holds(s, g)
    ensures Holds(s, g.Fetched())
  {
    hide Read, Pending;
    var bytes, rest := g.Coming().bytes, Pending(g.Coming().rest);
    assert s[g.Received()..] == bytes + rest;
    assert s[g.Fetched().Received()..] == s[g.Received()..][|bytes|..] == rest;
  }

  /** A new reader. */
  function Start(script: seq<Event>): Stage { Stage(0, 0, 0, script) }

  lemma StartHolds(script: seq<Event>)
    ensures Holds(Pending(script), Start(script))
  {
    hide Pending;
    assert Pending(script)[0..] == Pending(script);
  }

  /** The received bytes from a slot of the buffer on. */
  ghost function View(s: seq<byte>, g: Stage, at: nat): seq<byte>
    requires Holds(s, g) && at <= g.count
  {
    s[g.base + at..g.Received()]
  }

  /** What a call returns, what it found where, where it leaves the reader, how it jumped and how often it rewound. */
  datatype Result = Result(answer: Answer, got: seq<Delivery>, end: Stage, jumps: seq<nat>, rewinds: nat)

  function Ends(answer: Answer, end: Stage): Result { Result(answer, [], end, [], 0) }

  function After(jumps: seq<nat>, rewinds: nat, t: Result): Result {
    t.(jumps := jumps + t.jumps, rewinds := rewinds + t.rewinds)
  }

  lemma AfterSum(a: seq<nat>, b: seq<nat>, m: nat, n: nat, t: Result)
    ensures After(a, m, After(b, n, t)) == After(a + b, m + n, t)
  {
    assert a + (b + t.jumps) == (a + b) + t.jumps;
  }

  lemma AfterEnd(jumps: seq<nat>, rewinds: nat, answer: Answer, end: Stage)
    ensures After(jumps, 0, After([], rewinds, Ends(answer, end))) == Result(answer, [], end, jumps, rewinds)
  {
    assert jumps + ([] + []) == jumps;
  }

  lemma AfterNothing(t: Result)
    ensures After([], 0, t) == t
  {
    assert [] + t.jumps == t.jumps;
  }

  /** The slot the inner loop continues at, or the outer loop when less than a header is left there. */
  function Resumes(count: nat, at: nat): nat {
    if at + 8 <= count then at else KeptFrom(count)
  }

  /** A read that moves the bytes but not the loop's cursor lets the scan jump to this position. */
  function Jump(g: Stage, next: Stage, at: nat): seq<nat> {
    if g.Moves() then [next.base + Resumes(next.count, at)] else []
  }

  /** The inner loop from a slot on, and what comes after it. */
  ghost function Hunting(s: seq<byte>, g: Stage, at: nat): Result
    requires Holds(s, g)
    decreases Weight(g.script), 1, if at <= g.count then g.count - at else 0
  {
    if at + 8 > g.count then Tailing(s, g)
    else match Judge(View(s, g, at))
      case Found(n, m) => Result(Delivered(m), [Delivery(g.base + at, n, m)], g.(pos := at + n), [], 0)
      case Incomplete(_) => Waiting(s, g, at)
      case _ => Hunting(s, g, at + 1)
  }

  /** A frame that is not complete: read on. */
  ghost function Waiting(s: seq<byte>, g: Stage, at: nat): Result
    requires Holds(s, g)
    decreases Weight(g.script), 0, 0
  {
    if g.Full() then Ends(Spins, g) else
    var next := g.Fetched();
    FetchedHolds(s, g);
    match g.Coming().error
    case Some(code) => Ends(Failed(code), next)
    case None => After(Jump(g, next, at), 0, Hunting(s, next, at))
  }

  /** The end of the buffer without a frame: keep the last 8 bytes and read on. */
  ghost function Tailing(s: seq<byte>, g: Stage): Result
    requires Holds(s, g)
    decreases Weight(g.script), 0, 0
  {
    var kept := g.(pos := KeptFrom(g.count));
    var next := kept.Fetched();
    FetchedHolds(s, kept);
    match kept.Coming().error
    case Some(code) => After([], Back(g), Ends(Failed(code), next))
    case None => After([], Back(g), Turning(s, next))
  }

  function Back(g: Stage): nat { if g.pos > 0 && g.count < g.pos + 8 then 1 else 0 }

  /** The outer loop. */
  ghost function Turning(s: seq<byte>, g: Stage): Result
    requires Holds(s, g)
    decreases Weight(g.script), 2, 0
  {
    if g.count - g.pos >= 8 then Hunting(s, g, g.pos) else
    var next := g.Fetched();
    FetchedHolds(s, g);
    match g.Coming().error
    case Some(code) => Ends(Failed(code), next)
    case None => Hunting(s, next, next.pos)
  }

  /** A wait for a read that succeeds. */
  lemma WaitsOn(s: seq<byte>, g: Stage, at: nat)
    requires Holds(s, g) && at + 8 <= g.count && Judge(View(s, g, at)).Incomplete?
    requires !g.Full() && g.Coming().error.None?
    ensures var next := g.Fetched();
            Holds(s, next) && Hunting(s, g, at) == After(Jump(g, next, at), 0, Hunting(s, next, at))
  {
    hide Judge, Pending, Weight, Read;
    FetchedHolds(s, g);
  }

  // ---------- What every course keeps ----------

  /** What was found is a genuine frame that ends where the reader stands, or there is nothing. */
  ghost predicate Finds(s: seq<byte>, t: Result)
    requires Holds(s, t.end)
  {
    if t.answer.Delivered? then
      && |t.got| == 1 && t.got[0].message == t.answer.message
      && t.got[0].End() == t.end.Position() && Genuine(t.got[0], s[..t.end.Received()])
    else t.got == []
  }

  /**
   The received bytes and the source only go on; a call spins exactly when it ends with a full
   buffer; one that jumps has had more than half a buffer of bytes; one that returns a message
   has read, or stands further on.
   */
  ghost predicate Proper(s: seq<byte>, g: Stage, t: Result) {
    && Holds(s, t.end) && Finds(s, t)
    && g.Received() <= t.end.Received() && g.base <= t.end.base && Onward(g.script, t.end.script)
    && (t.answer.Failed? ==> Interrupted(g.script, t.end.script) && (t.answer.code == EOF || HasError(g.script)))
    && (t.answer.Spins? <==> t.end.Full())
    && (t.jumps != [] ==> t.end.Received() > g.base + 1024)
    && (t.answer.Delivered? ==> Weight(t.end.script) < Weight(g.script) || t.end.Position() > g.Position())
  }

  /** A later stage on the same course. */
  ghost predicate Later(g: Stage, next: Stage) {
    && g.Received() <= next.Received() && g.base <= next.base
    && Onward(g.script, next.script) && Weight(next.script) < Weight(g.script)
  }

  lemma ProperAfter(s: seq<byte>, g: Stage, next: Stage, jumps: seq<nat>, rewinds: nat, t: Result)
    requires Later(g, next) && Proper(s, next, t) && (jumps != [] ==> g.count > HALF)
    ensures Proper(s, g, After(jumps, rewinds, t))
  {
    hide Weight, HasError, Holds, Genuine, Onward, Interrupted;
    OnwardTrans(g.script, next.script, t.end.script);
    WeighsLess(g.script, next.script, t.end.script);
    ErrorsBefore(g.script, next.script);
  }

  lemma ErrorsBefore(a: seq<Event>, b: seq<Event>)
    requires Onward(a, b)
    ensures HasError(b) ==> HasError(a)
  {
    hide Weight, HasError;
  }

  lemma WeighsLess(a: seq<Event>, b: seq<Event>, c: seq<Event>)
    requires Weight(b) < Weight(a) && Onward(b, c)
    ensures Weight(c) < Weight(a)
  {
    hide Weight, HasError;
  }

  lemma FetchedLater(g: Stage)
    requires g.Sane()
    ensures g.Coming().error.None? && g.Space() > 0 ==> Later(g, g.Fetched())
    ensures g.Coming().error.Some? ==>
              && g.Fetched().Received() == g.Received()
              && Onward(g.script, g.Fetched().script) && Interrupted(g.script, g.Fetched().script)
              && (g.Coming().error.value == EOF || HasError(g.script))
  {
    hide Read, Weight, HasError;
  }

  lemma {:induction false} HuntingProper(s: seq<byte>, g: Stage, at: nat)
    requires Holds(s, g) && g.pos <= at
    ensures Proper(s, g, Hunting(s, g, at))
    decreases Weight(g.script), 1, if at <= g.count then g.count - at else 0
  {
    hide Judge, Weight, HasError, Pending, Genuine, Read;
    if at + 8 > g.count {
      TailingProper(s, g);
    } else {
      match Judge(View(s, g, at))
      case Found(n, m) =>
        TakeFrame(s, g.Received(), g.base + at);
      case Incomplete(_) =>
        WaitingProper(s, g, at);
      case BadSize => HuntingProper(s, g, at + 1);
      case BadChecksum => HuntingProper(s, g, at + 1);
      case NeedHeader => HuntingProper(s, g, at + 1);
    }
  }

  lemma {:induction false} WaitingProper(s: seq<byte>, g: Stage, at: nat)
    requires Holds(s, g) && g.pos <= at
    ensures Proper(s, g, Waiting(s, g, at))
    decreases Weight(g.script), 0, 0
  {
    hide Weight, HasError, Pending, Genuine, Read;
    FetchedHolds(s, g);
    FetchedLater(g);
    if !g.Full() && g.Coming().error.None? {
      var next := g.Fetched();
      HuntingProper(s, next, at);
      ProperAfter(s, g, next, Jump(g, next, at), 0, Hunting(s, next, at));
    }
  }

  lemma {:induction false} TailingProper(s: seq<byte>, g: Stage)
    requires Holds(s, g)
    ensures Proper(s, g, Tailing(s, g))
    decreases Weight(g.script), 0, 0
  {
    hide Weight, HasError, Pending, Genuine, Read;
    var kept := g.(pos := KeptFrom(g.count));
    FetchedHolds(s, kept);
    FetchedLater(kept);
    if kept.Coming().error.None? {
      TurningProper(s, kept.Fetched());
      ProperAfter(s, g, kept.Fetched(), [], Back(g), Turning(s, kept.Fetched()));
    }
  }

  lemma {:induction false} TurningProper(s: seq<byte>, g: Stage)
    requires Holds(s, g)
    ensures Proper(s, g, Turning(s, g))
    decreases Weight(g.script), 2, 0
  {
    hide Weight, HasError, Pending, Genuine, Read;
    if g.count - g.pos >= 8 {
      HuntingProper(s, g, g.pos);
    } else {
      FetchedHolds(s, g);
      FetchedLater(g);
      if g.Coming().error.None? {
        var next := g.Fetched();
        HuntingProper(s, next, next.pos);
        ProperAfter(s, g, next, [], 0, Hunting(s, next, next.pos));
      }
    }
  }

  // ---------- Rewinds ----------

  /** A header's worth is unread, or nothing lies before it: no rewind until a message is returned. */
  predicate Settled(g: Stage) { g.pos == 0 || g.count - g.pos >= 8 }

  /** The header check will leave the reader with too few bytes behind a nonzero pos. */
  predicate WillRewind(g: Stage)
    requires g.Sane()
  {
    && 0 < g.pos && g.count <= 1024 && g.count - g.pos < 8
    && g.Coming().error.None? && g.count - g.pos + |g.Coming().bytes| < 8
  }

  /** Where the call will start to scan: a rewinding one goes back behind its first read. */
  function Origin(g: Stage): nat
    requires g.Sane()
  {
    if WillRewind(g) then g.base + KeptFrom(g.count + |g.Coming().bytes|) else g.Position()
  }

  /** A rewinding call goes back by 1 to 8 bytes; no other call goes back. */
  lemma OriginBound(g: Stage)
    requires g.Sane()
    ensures g.Position() - 8 <= Origin(g) <= g.Position() && (Origin(g) < g.Position() <==> WillRewind(g))
    ensures Settled(g) ==> !WillRewind(g)
  {
    hide Read;
  }

  lemma {:induction false} HuntingSettled(s: seq<byte>, g: Stage, at: nat)
    requires Holds(s, g) && Settled(g)
    ensures var t := Hunting(s, g, at); t.rewinds == 0 && (!t.answer.Delivered? ==> Settled(t.end))
    decreases Weight(g.script), 1, if at <= g.count then g.count - at else 0
  {
    hide Judge, Weight, Pending, Read;
    if at + 8 > g.count {
      TailingSettled(s, g);
    } else {
      match Judge(View(s, g, at))
      case Found(n, m) =>
      case Incomplete(_) =>
        FetchedHolds(s, g);
        FetchedLater(g);
        if !g.Full() && g.Coming().error.None? {
          HuntingSettled(s, g.Fetched(), at);
        }
      case BadSize => HuntingSettled(s, g, at + 1);
      case BadChecksum => HuntingSettled(s, g, at + 1);
      case NeedHeader => HuntingSettled(s, g, at + 1);
    }
  }

  lemma {:induction false} TailingSettled(s: seq<byte>, g: Stage)
    requires Holds(s, g)
    ensures var t := Tailing(s, g); t.rewinds == Back(g) && (!t.answer.Delivered? ==> Settled(t.end))
    decreases Weight(g.script), 0, 0
  {
    hide Weight, Pending, Read;
    var kept := g.(pos := KeptFrom(g.count));
    FetchedHolds(s, kept);
    FetchedLater(kept);
    if kept.Coming().error.None? {
      TurningSettled(s, kept.Fetched());
      OriginBound(kept.Fetched());
    }
  }

  /** A call rewinds at most once, exactly when WillRewind; then no call does before a message is returned. */
  lemma {:induction false} TurningSettled(s: seq<byte>, g: Stage)
    requires Holds(s, g)
    ensures var t := Turning(s, g);
            && t.rewinds == (if WillRewind(g) then 1 else 0)
            && (!t.answer.Delivered? && (Settled(g) || WillRewind(g)) ==> Settled(t.end))
    decreases Weight(g.script), 2, 0
  {
    hide Weight, Pending, Read;
    if g.count - g.pos >= 8 {
      HuntingSettled(s, g, g.pos);
    } else {
      FetchedHolds(s, g);
      FetchedLater(g);
      if g.Coming().error.None? {
        if Settled(g.Fetched()) {
          HuntingSettled(s, g.Fetched(), g.Fetched().pos);
        } else {
          TailingSettled(s, g.Fetched());
        }
      }
    }
  }

  // ---------- The course and the scan ----------

  /** Where the scan of a call that set out from a position last set out: there, or where it last jumped to. */
  function LastOr(jumps: seq<nat>, from: nat): nat {
    if jumps == [] then from else jumps[|jumps| - 1]
  }

  lemma LastOrSum(a: seq<nat>, b: seq<nat>, from: nat)
    ensures LastOr(a + b, from) == LastOr(b, LastOr(a, from))
  {}

  /** What the course finds is what the scan finds first from where it last set out. */
  ghost predicate Tracks(s: seq<byte>, from: nat, t: Result) {
    var land := LastOr(t.jumps, from);
    && from <= land
    && (t.answer.Delivered? ==> FramesFrom(s, land) == t.got + FramesFrom(s, t.end.Position()))
    && (t.answer.Failed? && Pending(t.end.script) == [] ==> FramesFrom(s, land) == [])
  }

  /** A call without a message and without a jump leaves the reader where the scan is as good. */
  ghost predicate Stays(s: seq<byte>, from: nat, t: Result) {
    !t.answer.Delivered? && t.jumps == [] ==> FramesFrom(s, t.end.Position()) == FramesFrom(s, from)
  }

  lemma TracksAfter(s: seq<byte>, from: nat, jumps: seq<nat>, rewinds: nat, t: Result)
    requires Tracks(s, LastOr(jumps, from), t) && from <= LastOr(jumps, from)
    ensures Tracks(s, from, After(jumps, rewinds, t))
  {
    hide FramesFrom, Pending;
    LastOrSum(jumps, t.jumps, from);
  }

  lemma {:induction false} HuntingTracks(s: seq<byte>, g: Stage, at: nat, from: nat)
    requires Holds(s, g) && g.pos <= at && g.count >= 8
    requires from <= g.base + Resumes(g.count, at)
    requires FramesFrom(s, g.base + Resumes(g.count, at)) == FramesFrom(s, from)
    ensures var t := Hunting(s, g, at);
            Tracks(s, from, t) && (FramesFrom(s, g.Position()) == FramesFrom(s, from) ==> Stays(s, from, t))
    decreases Weight(g.script), 1, if at <= g.count then g.count - at else 0
  {
    hide Judge, Weight, Pending, Read, FramesFrom;
    if at + 8 > g.count {
      TailingTracks(s, g, from);
    } else {
      match Judge(View(s, g, at))
      case Found(n, m) =>
        TakeFrame(s, g.Received(), g.base + at);
      case Incomplete(_) =>
        WaitingTracks(s, g, at, from);
      case BadSize =>
        SkipByte(s, g.Received(), g.base + at);
        HuntingTracks(s, g, at + 1, from);
      case BadChecksum =>
        SkipByte(s, g.Received(), g.base + at);
        HuntingTracks(s, g, at + 1, from);
      case NeedHeader => HeaderThere(View(s, g, at));
    }
  }

  lemma HeaderThere(w: seq<byte>)
    requires |w| >= 8
    ensures !Judge(w).NeedHeader?
  {
    hide ChecksumHolds, TopicLength, PayloadLength;
  }

  lemma {:induction false} WaitingTracks(s: seq<byte>, g: Stage, at: nat, from: nat)
    requires Holds(s, g) && g.pos <= at && at + 8 <= g.count && Judge(View(s, g, at)).Incomplete?
    requires from <= g.base + at && FramesFrom(s, g.base + at) == FramesFrom(s, from)
    ensures var t := Waiting(s, g, at);
            Tracks(s, from, t) && (FramesFrom(s, g.Position()) == FramesFrom(s, from) ==> Stays(s, from, t))
    decreases Weight(g.script), 0, 0
  {
    hide Judge, Weight, Pending, Read, FramesFrom;
    FetchedHolds(s, g);
    FetchedLater(g);
    if !g.Full() {
      var next := g.Fetched();
      if g.Coming().error.None? {
        var jump := Jump(g, next, at);
        HuntingTracks(s, next, at, LastOr(jump, from));
        TracksAfter(s, from, jump, 0, Hunting(s, next, at));
      } else if Pending(next.script) == [] {
        assert s[g.base + at..] == View(s, g, at);
        NothingLeft(s, g.base + at);
      }
    }
  }

  lemma {:induction false} TailingTracks(s: seq<byte>, g: Stage, from: nat)
    requires Holds(s, g) && from <= g.base + KeptFrom(g.count)
    requires FramesFrom(s, g.base + KeptFrom(g.count)) == FramesFrom(s, from)
    ensures Tracks(s, from, Tailing(s, g)) && Stays(s, from, Tailing(s, g))
    decreases Weight(g.script), 0, 0
  {
    hide Judge, Weight, Pending, Read, FramesFrom;
    var kept := g.(pos := KeptFrom(g.count));
    var next := kept.Fetched();
    FetchedHolds(s, kept);
    FetchedLater(kept);
    if kept.Coming().error.None? {
      OriginBound(next);
      TurningTracks(s, next, from);
      TracksAfter(s, from, [], Back(g), Turning(s, next));
    } else if Pending(next.script) == [] {
      TooShort(s, kept.Position());
    }
  }

  /** Whatever it jumps over or goes back to, a call finds what the scan finds from where it last set out. */
  lemma {:induction false} TurningTracks(s: seq<byte>, g: Stage, from: nat)
    requires Holds(s, g) && from <= Origin(g) && FramesFrom(s, Origin(g)) == FramesFrom(s, from)
    ensures Tracks(s, from, Turning(s, g)) && Stays(s, from, Turning(s, g))
    decreases Weight(g.script), 2, 0
  {
    hide Judge, Weight, Pending, Read, FramesFrom;
    if g.count - g.pos >= 8 {
      HuntingTracks(s, g, g.pos, from);
    } else {
      FetchedHolds(s, g);
      FetchedLater(g);
      var next := g.Fetched();
      if g.Coming().error.None? {
        if next.count - next.pos >= 8 {
          HuntingTracks(s, next, next.pos, from);
        } else {
          TailingTracks(s, next, from);
        }
      } else if Pending(next.script) == [] {
        TooShort(s, next.Position());
      }
    }
  }

  // ---------- Never far back ----------

  lemma {:induction false} HuntingForward(s: seq<byte>, g: Stage, at: nat)
    requires Holds(s, g) && g.pos <= at && g.count - g.pos >= 8
    ensures Hunting(s, g, at).end.Position() >= g.Position()
    decreases Weight(g.script), 1, if at <= g.count then g.count - at else 0
  {
    hide Judge, Weight, Pending, Read;
    if at + 8 > g.count {
      TailingForward(s, g);
    } else {
      match Judge(View(s, g, at))
      case Found(n, m) =>
      case Incomplete(_) =>
        FetchedHolds(s, g);
        FetchedLater(g);
        if !g.Full() && g.Coming().error.None? {
          HuntingForward(s, g.Fetched(), at);
        }
      case BadSize => HuntingForward(s, g, at + 1);
      case BadChecksum => HuntingForward(s, g, at + 1);
      case NeedHeader => HuntingForward(s, g, at + 1);
    }
  }

  lemma {:induction false} TailingForward(s: seq<byte>, g: Stage)
    requires Holds(s, g)
    ensures Tailing(s, g).end.Position() >= g.base + KeptFrom(g.count)
    decreases Weight(g.script), 0, 0
  {
    hide Weight, Pending, Read;
    var kept := g.(pos := KeptFrom(g.count));
    FetchedHolds(s, kept);
    FetchedLater(kept);
    if kept.Coming().error.None? {
      OriginBound(kept.Fetched());
      TurningForward(s, kept.Fetched());
    }
  }

  /** A call leaves the reader no further back than where it set out. */
  lemma {:induction false} TurningForward(s: seq<byte>, g: Stage)
    requires Holds(s, g)
    ensures Turning(s, g).end.Position() >= Origin(g)
    decreases Weight(g.script), 2, 0
  {
    hide Weight, Pending, Read;
    if g.count - g.pos >= 8 {
      HuntingForward(s, g, g.pos);
    } else {
      FetchedHolds(s, g);
      FetchedLater(g);
      var next := g.Fetched();
      if g.Coming().error.None? {
        if next.count - next.pos >= 8 {
          HuntingForward(s, next, next.pos);
        } else {
          TailingForward(s, next);
        }
      }
    }
  }

  // ---------- When a call jumps ----------

  /** Up to this byte of the stream, nothing complete is found from a position on. */
  ghost predicate Blank(s: seq<byte>, known: nat, at: nat)
    requires known <= |s|
  {
    FramesFrom(s[..known], at) == []
  }

  lemma BlankStep(s: seq<byte>, known: nat, seen: nat, at: nat)
    requires at < seen <= known <= |s|
    requires var v := Judge(s[at..seen]); v.BadSize? || v.BadChecksum?
    ensures Blank(s, known, at) <==> Blank(s, known, at + 1)
  {
    hide Judge, FramesFrom;
    assert s[..known][at..seen] == s[at..seen];
    SkipByte(s[..known], seen, at);
  }

  lemma {:induction false} HuntingJumps(s: seq<byte>, g: Stage, at: nat) returns (known: nat)
    requires Holds(s, g) && g.pos <= at && g.count >= 8 && Hunting(s, g, at).jumps != []
    ensures g.Received() <= known <= Hunting(s, g, at).end.Received() <= |s| && known > g.base + 1024
    ensures Blank(s, known, g.base + Resumes(g.count, at))
    decreases Weight(g.script), 1, if at <= g.count then g.count - at else 0
  {
    hide Judge, Weight, Pending, Read, FramesFrom, Blank, HasError, Genuine;
    HuntingProper(s, g, at);
    if at + 8 > g.count {
      known := TailingJumps(s, g);
    } else {
      HeaderThere(View(s, g, at));
      match Judge(View(s, g, at))
      case Incomplete(_) =>
        known := WaitingJumps(s, g, at);
      case BadSize =>
        known := HuntingJumps(s, g, at + 1);
        BlankStep(s, known, g.Received(), g.base + at);
      case BadChecksum =>
        known := HuntingJumps(s, g, at + 1);
        BlankStep(s, known, g.Received(), g.base + at);
    }
  }

  lemma {:induction false} WaitingJumps(s: seq<byte>, g: Stage, at: nat) returns (known: nat)
    requires Holds(s, g) && g.pos <= at && at + 8 <= g.count && Judge(View(s, g, at)).Incomplete?
    requires Waiting(s, g, at).jumps != []
    ensures g.Received() <= known <= Waiting(s, g, at).end.Received() <= |s| && known > g.base + 1024
    ensures Blank(s, known, g.base + at)
    decreases Weight(g.script), 0, 0
  {
    hide Judge, Weight, Pending, Read, HasError, Genuine;
    FetchedHolds(s, g);
    FetchedLater(g);
    var next := g.Fetched();
    HuntingProper(s, next, at);
    if g.Moves() {
      known := g.Received();
      assert s[..known][g.base + at..] == View(s, g, at);
      NothingLeft(s[..known], g.base + at);
    } else {
      known := HuntingJumps(s, next, at);
    }
  }

  lemma {:induction false} TailingJumps(s: seq<byte>, g: Stage) returns (known: nat)
    requires Holds(s, g) && Tailing(s, g).jumps != []
    ensures g.Received() <= known <= Tailing(s, g).end.Received() <= |s| && known > g.base + 1024
    ensures Blank(s, known, g.base + KeptFrom(g.count))
    decreases Weight(g.script), 0, 0
  {
    hide Judge, Weight, Pending, Read, FramesFrom, Blank, HasError, Genuine;
    var kept := g.(pos := KeptFrom(g.count));
    FetchedHolds(s, kept);
    FetchedLater(kept);
    OriginBound(kept.Fetched());
    known := TurningJumps(s, kept.Fetched());
  }

  /**
   When a call first jumps, more than half a buffer of bytes has come since its buffer began, and
   the scan of all that was received finds no complete frame where the call set out.
   */
  lemma {:induction false} TurningJumps(s: seq<byte>, g: Stage) returns (known: nat)
    requires Holds(s, g) && Turning(s, g).jumps != []
    ensures g.Received() <= known <= Turning(s, g).end.Received() <= |s| && known > g.base + 1024
    ensures Blank(s, known, Origin(g))
    decreases Weight(g.script), 2, 0
  {
    hide Judge, Weight, Pending, Read, FramesFrom, Blank, HasError, Genuine;
    if g.count - g.pos >= 8 {
      known := HuntingJumps(s, g, g.pos);
    } else {
      FetchedHolds(s, g);
      FetchedLater(g);
      var next := g.Fetched();
      if next.count - next.pos >= 8 {
        known := HuntingJumps(s, next, next.pos);
      } else {
        known := TailingJumps(s, next);
      }
    }
  }

  // ---------- The first wait ----------

  /** The scan of these bytes from a slot on meets an incomplete frame before any other. */
  ghost predicate Stalls(w: seq<byte>, from: nat)
    ensures Stalls(w, from) ==> from + 8 <= |w|
    decreases |w| - from
  {
    && from + 8 <= |w|
    && match Judge(w[from..])
       case Incomplete(_) => true
       case Found(_, _) => false
       case _ => Stalls(w, from + 1)
  }

  ghost function Slot(w: seq<byte>, from: nat): (at: nat)
    requires Stalls(w, from)
    ensures from <= at && at + 8 <= |w| && Judge(w[at..]).Incomplete?
    decreases |w| - from
  {
    if Judge(w[from..]).Incomplete? then from else Slot(w, from + 1)
  }

  /** On bytes that stall the inner loop comes to wait; on others it finds a frame or the end of the buffer. */
  lemma {:induction false} FirstWait(s: seq<byte>, g: Stage, at: nat)
    requires Holds(s, g)
    ensures var w, t := View(s, g, 0), Hunting(s, g, at);
            if Stalls(w, at) then t == Waiting(s, g, Slot(w, at))
            else t == Tailing(s, g) || (t.answer.Delivered? && t.jumps == [] && t.end == g.(pos := t.end.pos))
    decreases if at <= g.count then g.count - at else 0
  {
    hide Judge, Waiting, Tailing, Pending, Weight;
    if at + 8 <= g.count {
      assert View(s, g, 0)[at..] == View(s, g, at);
      FirstWait(s, g, at + 1);
    }
  }

  /** Where the header check leaves the reader. */
  function Checked(g: Stage): Stage
    requires g.Sane()
  {
    if g.count - g.pos >= 8 then g else g.Fetched()
  }

  /** The header check succeeds, and then the bytes in the buffer stall. */
  ghost predicate WillWait(s: seq<byte>, g: Stage)
    requires Holds(s, g)
  {
    FetchedHolds(s, g);
    && (g.count - g.pos >= 8 || g.Coming().error.None?)
    && Stalls(View(s, Checked(g), 0), Checked(g).pos)
  }

  /** The first wait is behind old bytes, in a buffer more than half full, and the read succeeds. */
  ghost predicate WillSkip(s: seq<byte>, g: Stage)
    requires Holds(s, g)
  {
    WillWait(s, g) && Checked(g).Moves() && Checked(g).Coming().error.None?
  }

  /** The first wait is in a full buffer without old bytes. */
  ghost predicate WillSpin(s: seq<byte>, g: Stage)
    requires Holds(s, g)
  {
    WillWait(s, g) && Checked(g).Full()
  }

  /** A call that WillSkip jumps from its first wait, by as many bytes as were read before. */
  lemma SkipsAtOnce(s: seq<byte>, g: Stage)
    requires Holds(s, g) && WillSkip(s, g)
    ensures var h, jumps := Checked(g), Turning(s, g).jumps;
            && Holds(s, h) && jumps != []
            && var at := Slot(View(s, h, 0), h.pos);
               jumps[0] == h.Position() + Resumes(h.Fetched().count, at)
  {
    hide Judge, Tailing, Pending, Weight, Read, Stalls, Slot, Hunting;
    FetchedHolds(s, g);
    FirstWait(s, Checked(g), Checked(g).pos);
  }

  // ---------- When a call never returns ----------

  /** A call that spins without a full buffer to begin with has read more bytes than it gave up. */
  lemma {:induction false} SpinReads(s: seq<byte>, g: Stage, at: nat)
    requires Holds(s, g) && g.pos <= at && !g.Full() && Hunting(s, g, at).answer.Spins?
    ensures Hunting(s, g, at).end.Received() > g.Received()
    decreases if at <= g.count then g.count - at else 0
  {
    hide Judge, Pending, Weight, Read, HasError, Genuine;
    if at + 8 > g.count {
      TailingSpin(s, g);
    } else {
      match Judge(View(s, g, at))
      case Found(n, m) =>
      case Incomplete(_) =>
        FetchedHolds(s, g);
        HuntingProper(s, g.Fetched(), at);
      case BadSize => SpinReads(s, g, at + 1);
      case BadChecksum => SpinReads(s, g, at + 1);
      case NeedHeader => SpinReads(s, g, at + 1);
    }
  }

  lemma TailingSpin(s: seq<byte>, g: Stage)
    requires Holds(s, g) && Tailing(s, g).answer.Spins?
    ensures Tailing(s, g).end.Received() > g.Received()
  {
    hide Judge, Pending, Weight, Read, HasError, Genuine;
    var kept := g.(pos := KeptFrom(g.count));
    FetchedHolds(s, kept);
    TurningProper(s, kept.Fetched());
  }

  /** A call spins on what the header check leaves if and only if WillSpin says so. */
  lemma SpinsAtOnce(s: seq<byte>, g: Stage)
    requires Holds(s, g)
    ensures var t := Turning(s, g);
            WillSpin(s, g) <==> t.answer.Spins? && t.end.Received() == Checked(g).Received()
  {
    hide Judge, Tailing, Pending, Weight, Read, Stalls, Slot, Hunting;
    FetchedHolds(s, g);
    var h := Checked(g);
    FirstWait(s, h, h.pos);
    if g.count - g.pos >= 8 || g.Coming().error.None? {
      if !h.Full() && Hunting(s, h, h.pos).answer.Spins? {
        SpinReads(s, h, h.pos);
      }
      if Tailing(s, h).answer.Spins? {
        TailingSpin(s, h);
      }
    }
  }

  /** No slot from pos up to this one can start a frame. */
  ghost predicate Barren(s: seq<byte>, g: Stage, at: nat)
    requires Holds(s, g)
  {
    forall i :: g.pos <= i < at && i + 8 <= g.count ==> Refused(View(s, g, i))
  }

  ghost predicate Refused(w: seq<byte>) { Judge(w).BadSize? || Judge(w).BadChecksum? }

  lemma RefusedStable(w: seq<byte>, more: seq<byte>)
    requires Refused(w)
    ensures Refused(w + more)
  {
    hide Judge;
    JudgeStable(w, more);
  }

  lemma BarrenFetched(s: seq<byte>, g: Stage, at: nat)
    requires Holds(s, g) && Barren(s, g, at) && !g.Moves() && at + 8 <= g.count
    ensures Holds(s, g.Fetched()) && Barren(s, g.Fetched(), at)
  {
    hide Judge, Pending, Read, Refused;
    FetchedHolds(s, g);
    var next := g.Fetched();
    forall i | next.pos <= i < at && i + 8 <= next.count ensures Refused(View(s, next, i)) {
      var more := s[g.Received()..next.Received()];
      SplitSlice(s, g.base + i, g.Received(), next.Received());
      RefusedStable(View(s, g, i), more);
    }
  }

  lemma {:induction false} BarrenStalls(s: seq<byte>, g: Stage, at: nat, from: nat)
    requires Holds(s, g) && g.pos == 0 && Barren(s, g, at) && from <= at && at + 8 <= g.count
    requires Judge(View(s, g, at)).Incomplete?
    ensures Stalls(View(s, g, 0), from)
    decreases at - from
  {
    hide Judge, Pending;
    assert View(s, g, 0)[from..] == View(s, g, from);
    if from < at {
      assert Refused(View(s, g, from));
      BarrenStalls(s, g, at, from + 1);
    }
  }

  lemma {:induction false} HuntingSpins(s: seq<byte>, g: Stage, at: nat)
    requires Holds(s, g) && g.pos <= at && Barren(s, g, at)
    requires Hunting(s, g, at).answer.Spins? && Hunting(s, g, at).jumps == []
    ensures var end := Hunting(s, g, at).end; Holds(s, end) && Stalls(View(s, end, 0), 0)
    decreases Weight(g.script), 1, if at <= g.count then g.count - at else 0
  {
    hide Judge, Pending, Weight, Read, HasError, Stalls, Barren;
    if at + 8 > g.count {
      TailingSpins(s, g);
    } else {
      match Judge(View(s, g, at))
      case Found(n, m) =>
      case Incomplete(_) =>
        if g.Full() {
          BarrenStalls(s, g, at, 0);
        } else {
          FetchedLater(g);
          BarrenFetched(s, g, at);
          HuntingSpins(s, g.Fetched(), at);
        }
      case BadSize =>
        BarrenNext(s, g, at);
        HuntingSpins(s, g, at + 1);
      case BadChecksum =>
        BarrenNext(s, g, at);
        HuntingSpins(s, g, at + 1);
      case NeedHeader => HeaderThere(View(s, g, at));
    }
  }

  lemma BarrenNext(s: seq<byte>, g: Stage, at: nat)
    requires Holds(s, g) && at + 8 <= g.count && Barren(s, g, at) && Refused(View(s, g, at))
    ensures Barren(s, g, at + 1)
  {
    hide Refused, Pending;
  }

  lemma BarrenStart(s: seq<byte>, g: Stage)
    requires Holds(s, g)
    ensures Barren(s, g, g.pos)
  {
    hide Refused, Pending;
  }

  lemma {:induction false} TailingSpins(s: seq<byte>, g: Stage)
    requires Holds(s, g) && Tailing(s, g).answer.Spins? && Tailing(s, g).jumps == []
    ensures var end := Tailing(s, g).end; Holds(s, end) && Stalls(View(s, end, 0), 0)
    decreases Weight(g.script), 0, 0
  {
    hide Judge, Pending, Weight, Read, HasError, Stalls, Barren;
    var kept := g.(pos := KeptFrom(g.count));
    FetchedHolds(s, kept);
    FetchedLater(kept);
    TurningSpins(s, kept.Fetched());
  }

  /** A call that spins without a jump does so on a full buffer whose first plausible frame is incomplete. */
  lemma {:induction false} TurningSpins(s: seq<byte>, g: Stage)
    requires Holds(s, g) && Turning(s, g).answer.Spins? && Turning(s, g).jumps == []
    ensures var end := Turning(s, g).end; Holds(s, end) && Stalls(View(s, end, 0), 0)
    decreases Weight(g.script), 2, 0
  {
    hide Judge, Pending, Weight, Read, HasError, Stalls, Barren;
    BarrenStart(s, g);
    if g.count - g.pos < 8 {
      FetchedHolds(s, g);
      FetchedLater(g);
      BarrenStart(s, g.Fetched());
      HuntingSpins(s, g.Fetched(), g.Fetched().pos);
    } else {
      HuntingSpins(s, g, g.pos);
    }
  }

  // ---------- All of it ----------

  /**
   When a call jumps and when it never returns: at once if it WillSkip or WillSpin; and if it
   jumps later, then after more than half a buffer in which nothing was complete where it set
   out; and if it spins later without a jump, then on bytes that stall from the first one on.
   */
  ghost predicate Foretold(s: seq<byte>, g: Stage, t: Result)
    requires Holds(s, g)
  {
    && (WillSkip(s, g) ==> t.jumps != [])
    && (t.jumps != [] ==> exists known :: BlankUpTo(s, g, t, known))
    && (WillSpin(s, g) <==> t.answer.Spins? && t.end.Received() == Checked(g).Received())
    && (t.answer.Spins? && t.jumps == [] ==> Holds(s, t.end) && Stalls(View(s, t.end, 0), 0))
  }

  ghost predicate BlankUpTo(s: seq<byte>, g: Stage, t: Result, known: nat)
    requires Holds(s, g)
  {
    && g.Received() <= known <= t.end.Received() <= |s| && known > g.base + 1024
    && Blank(s, known, Origin(g))
  }

  lemma TurningForetold(s: seq<byte>, g: Stage)
    requires Holds(s, g)
    ensures Foretold(s, g, Turning(s, g))
  {
    hide Turning, Pending, Weight, Read, Stalls, Slot, Blank, WillWait;
    if WillSkip(s, g) {
      SkipsAtOnce(s, g);
    }
    SpinsAtOnce(s, g);
    var t := Turning(s, g);
    if t.jumps != [] {
      var known := TurningJumps(s, g);
      assert BlankUpTo(s, g, t, known);
    } else if t.answer.Spins? {
      TurningSpins(s, g);
    }
  }
}
