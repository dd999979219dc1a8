/**
 Repeated calls of ReadMessage, until one fails with the source at its end or never returns: what
 a whole run returns, as a function of where the reader stands at its start.
 */
module Runs {
  import opened Bytes
  import opened Codec
  import opened Scan
  import opened IoReader
  import opened Positions
  import opened Course

  /** No call comes after this one. */
  predicate Last(t: Result) { t.answer.Spins? || (t.answer.Failed? && t.end.script == []) }

  /** Two runs, one after the other. */
  function Then(t: Result, u: Result): Result {
    Result(u.answer, t.got + u.got, u.end, t.jumps + u.jumps, t.rewinds + u.rewinds)
  }

  lemma ThenSum(t: Result, u: Result, v: Result)
    ensures Then(Then(t, u), v) == Then(t, Then(u, v))
  {
    assert (t.got + u.got) + v.got == t.got + (u.got + v.got);
    assert (t.jumps + u.jumps) + v.jumps == t.jumps + (u.jumps + v.jumps);
  }

  lemma ThenFrom(answer: Answer, end: Stage, t: Result)
    ensures Then(Ends(answer, end), t) == t
  {
    assert [] + t.got == t.got && [] + t.jumps == t.jumps;
  }

  /** All calls from here on, going on after every earlier error. */
  ghost function Running(s: seq<byte>, g: Stage): Result
    requires Holds(s, g)
    decreases Weight(g.script), |s| - g.Position()
  {
    var t := Turning(s, g);
    TurningProper(s, g);
    if Last(t) then t else Then(t, Running(s, t.end))
  }

  /** Every call starts where the scan is as good as from where the one before it stopped. */
  ghost predicate Harmless(s: seq<byte>, g: Stage)
    requires Holds(s, g)
    decreases Weight(g.script), |s| - g.Position()
  {
    var t := Turning(s, g);
    TurningProper(s, g);
    FramesFrom(s, Origin(g)) == FramesFrom(s, g.Position()) && (Last(t) || Harmless(s, t.end))
  }

  lemma RunningUnfolds(s: seq<byte>, g: Stage)
    requires Holds(s, g)
    ensures var t := Turning(s, g);
            && Proper(s, g, t) && Tracks(s, Origin(g), t) && Stays(s, Origin(g), t)
            && t.rewinds == (if WillRewind(g) then 1 else 0)
            && Running(s, g) == (if Last(t) then t else Then(t, Running(s, t.end)))
            && (Harmless(s, g) <==>
                  FramesFrom(s, Origin(g)) == FramesFrom(s, g.Position()) && (Last(t) || Harmless(s, t.end)))
  {
    hide Turning, FramesFrom, Tracks, Stays, Weight, Pending, HasError, Genuine;
    TurningProper(s, g);
    TurningTracks(s, g, Origin(g));
    TurningSettled(s, g);
  }

  /** A run without rewinds is harmless. */
  lemma {:induction false} NoRewindHarmless(s: seq<byte>, g: Stage)
    requires Holds(s, g) && Running(s, g).rewinds == 0
    ensures Harmless(s, g)
    decreases Weight(g.script), |s| - g.Position()
  {
    hide Running, Harmless, Turning, FramesFrom, Tracks, Stays, Weight, Pending, HasError, Genuine, Holds, Read;
    RunningUnfolds(s, g);
    var t := Turning(s, g);
    assert g.Sane() by { HoldsSane(s, g); }
    if !Last(t) {
      RunGoesOn(s, g, t);
      NoRewindHarmless(s, t.end);
    }
  }

  lemma HoldsSane(s: seq<byte>, g: Stage)
    requires Holds(s, g)
    ensures g.Sane() && g.Position() <= |s|
  {}

  /** The call after one that is not the last has less of the source before it, or stands further on. */
  lemma RunGoesOn(s: seq<byte>, g: Stage, t: Result)
    requires Holds(s, g) && Proper(s, g, t) && !Last(t)
    ensures Weight(t.end.script) <= Weight(g.script)
    ensures Weight(t.end.script) < Weight(g.script) || t.end.Position() > g.Position()
    ensures t.end.Position() <= |s|
  {
    hide Weight, HasError, Pending, Genuine;
  }

  /** Without jumps, a harmless run returns what one scan finds, as far as it comes. */
  lemma {:induction false} HarmlessScan(s: seq<byte>, g: Stage)
    requires Holds(s, g) && Running(s, g).jumps == [] && Harmless(s, g)
    ensures var run := Running(s, g);
            && FramesFrom(s, g.Position()) == run.got + FramesFrom(s, run.end.Position())
            && (run.answer.Failed? ==> FramesFrom(s, run.end.Position()) == [])
    decreases Weight(g.script), |s| - g.Position()
  {
    hide Running, Harmless, Turning, FramesFrom, Weight, HasError, Genuine, Holds, Read, Pending;
    HoldsSane(s, g);
    RunningUnfolds(s, g);
    EmptyPending();
    var t := Turning(s, g);
    if !Last(t) {
      RunGoesOn(s, g, t);
      HarmlessScan(s, t.end);
      var rest := Running(s, t.end);
      assert t.got + (rest.got + FramesFrom(s, rest.end.Position()))
          == (t.got + rest.got) + FramesFrom(s, rest.end.Position());
    }
  }

  // ---------- A harmful rewind shows ----------

  /** From a settled reader the run first returns what the scan first finds. */
  lemma {:induction false} SettledShows(s: seq<byte>, g: Stage)
    requires Holds(s, g) && Settled(g) && Running(s, g).jumps == [] && Running(s, g).answer.Failed?
    ensures var ahead, got := FramesFrom(s, g.Position()), Running(s, g).got;
            (got == [] <==> ahead == []) && (got != [] ==> got[0] == ahead[0])
    decreases Weight(g.script), |s| - g.Position()
  {
    hide Running, Harmless, Turning, FramesFrom, Weight, HasError, Genuine, Holds, Read, Pending;
    HoldsSane(s, g);
    RunningUnfolds(s, g);
    OriginBound(g);
    TurningSettled(s, g);
    EmptyPending();
    var t := Turning(s, g);
    if !Last(t) {
      RunGoesOn(s, g, t);
      if !t.answer.Delivered? {
        SettledShows(s, t.end);
      }
    }
  }

  /** What the run returns when its first call goes back begins with what the scan from there finds. */
  lemma HarmfulShows(s: seq<byte>, g: Stage)
    requires Holds(s, g) && Running(s, g).jumps == [] && Running(s, g).answer.Failed?
    requires FramesFrom(s, Origin(g)) != FramesFrom(s, g.Position())
    ensures Running(s, g).got != FramesFrom(s, g.Position())
  {
    hide Running, Harmless, Turning, FramesFrom, Weight, HasError, Genuine, Holds, Read, Pending;
    HoldsSane(s, g);
    RunningUnfolds(s, g);
    OriginBound(g);
    TurningSettled(s, g);
    EmptyPending();
    var t := Turning(s, g);
    if !Last(t) && !t.answer.Delivered? {
      SettledShows(s, t.end);
    }
    if Running(s, g).got == FramesFrom(s, g.Position()) && Running(s, g).got != [] {
      SameFirst(s, Origin(g), g.Position());
    }
  }

  /** A run without jumps that comes to the end returns what one scan finds if and only if its rewinds are harmless. */
  lemma {:induction false} HarmlessIff(s: seq<byte>, g: Stage)
    requires Holds(s, g) && Running(s, g).jumps == [] && Running(s, g).answer.Failed?
    ensures Running(s, g).got == FramesFrom(s, g.Position()) <==> Harmless(s, g)
    decreases Weight(g.script), |s| - g.Position()
  {
    hide Running, Harmless, Turning, FramesFrom, Weight, HasError, Genuine, Holds, Read, Pending;
    HoldsSane(s, g);
    RunningUnfolds(s, g);
    EmptyPending();
    var t := Turning(s, g);
    if FramesFrom(s, Origin(g)) != FramesFrom(s, g.Position()) {
      HarmfulShows(s, g);
    } else if !Last(t) {
      RunGoesOn(s, g, t);
      HarmlessIff(s, t.end);
      SameRest(t.got, Running(s, t.end).got, FramesFrom(s, t.end.Position()));
    }
  }

  lemma SameRest(a: seq<Delivery>, b: seq<Delivery>, c: seq<Delivery>)
    ensures a + b == a + c <==> b == c
  {
    assert (a + b)[|a|..] == b && (a + c)[|a|..] == c;
  }

  // ---------- Never twice ----------

  /** No message that the run still returns starts before this position. */
  function Horizon(g: Stage): int { if Settled(g) then g.Position() else g.Position() - 8 }

  lemma HorizonGrows(s: seq<byte>, g: Stage)
    requires Holds(s, g)
    ensures var t := Turning(s, g);
            && (t.answer.Delivered? ==> |t.got| == 1 && Horizon(g) <= t.got[0].start < Horizon(t.end))
            && Horizon(t.end) >= Horizon(g)
  {
    hide Turning, FramesFrom, Weight, HasError, Frame, Read, Pending;
    var t := Turning(s, g);
    RunningUnfolds(s, g);
    TurningSettled(s, g);
    TurningForward(s, g);
    OriginBound(g);
    if t.answer.Delivered? {
      FirstOf(s, LastOr(t.jumps, Origin(g)));
      assert Genuine(t.got[0], s[..t.end.Received()]);
    }
  }

  /** The starts increase, from a position on. */
  predicate Rising(got: seq<Delivery>, low: int) {
    forall i :: 0 <= i < |got| ==> got[i].start >= low && (i > 0 ==> got[i].start > got[i - 1].start)
  }

  lemma RisingFirst(d: Delivery, rest: seq<Delivery>, low: int)
    requires low <= d.start && Rising(rest, d.start + 1)
    ensures Rising([d] + rest, low)
  {}

  lemma RisingFrom(got: seq<Delivery>, low: int, lower: int)
    requires Rising(got, low) && lower <= low
    ensures Rising(got, lower)
  {}

  /** A run returns messages at ever later positions, none of them behind the horizon. */
  lemma {:induction false} RunStarts(s: seq<byte>, g: Stage)
    requires Holds(s, g)
    ensures Rising(Running(s, g).got, Horizon(g))
    decreases Weight(g.script), |s| - g.Position()
  {
    hide Turning, Running, Harmless, FramesFrom, Weight, HasError, Genuine, Read, Pending, Horizon, Holds;
    hide Tracks, Stays;
    var t := Turning(s, g);
    RunningUnfolds(s, g);
    HorizonGrows(s, g);
    if !Last(t) {
      RunGoesOn(s, g, t);
      RunStarts(s, t.end);
      var rest := Running(s, t.end).got;
      hide Rising;
      if t.answer.Delivered? {
        RisingFrom(rest, Horizon(t.end), t.got[0].start + 1);
        RisingFirst(t.got[0], rest, Horizon(g));
        assert t.got == [t.got[0]];
      } else {
        RisingFrom(rest, Horizon(t.end), Horizon(g));
        assert t.got + rest == rest;
      }
    }
  }

  // ---------- Short streams ----------

  /** All that is left of the stream fits in half the buffer, so that nothing is ever moved. */
  predicate Small(s: seq<byte>, g: Stage) { |s| <= g.base + 1024 }

  lemma SmallRead(s: seq<byte>, g: Stage)
    requires Holds(s, g) && Small(s, g)
    ensures Small(s, g.Fetched()) && Suffix(g.Fetched().script, g.script)
  {
    hide Pending, Read, Weight, HasError;
    assert |Pending(g.script)| == |s| - g.Received();
    ReadWhole(g.script, g.Space());
  }

  lemma {:induction false} SmallHunting(s: seq<byte>, g: Stage, at: nat)
    requires Holds(s, g) && Small(s, g)
    ensures Suffix(Hunting(s, g, at).end.script, g.script)
    decreases Weight(g.script), 1, if at <= g.count then g.count - at else 0
  {
    hide Judge, Weight, Pending, Read;
    if at + 8 > g.count {
      SmallTailing(s, g);
    } else {
      match Judge(View(s, g, at))
      case Found(n, m) =>
      case Incomplete(_) =>
        FetchedHolds(s, g);
        FetchedLater(g);
        SmallRead(s, g);
        if !g.Full() && g.Coming().error.None? {
          SmallHunting(s, g.Fetched(), at);
          SuffixTrans(Hunting(s, g.Fetched(), at).end.script, g.Fetched().script, g.script);
        }
      case BadSize => SmallHunting(s, g, at + 1);
      case BadChecksum => SmallHunting(s, g, at + 1);
      case NeedHeader => SmallHunting(s, g, at + 1);
    }
  }

  lemma {:induction false} SmallTailing(s: seq<byte>, g: Stage)
    requires Holds(s, g) && Small(s, g)
    ensures Suffix(Tailing(s, g).end.script, g.script)
    decreases Weight(g.script), 0, 0
  {
    hide Weight, Pending, Read;
    var kept := g.(pos := KeptFrom(g.count));
    FetchedHolds(s, kept);
    FetchedLater(kept);
    SmallRead(s, kept);
    if kept.Coming().error.None? {
      SmallTurning(s, kept.Fetched());
      SuffixTrans(Turning(s, kept.Fetched()).end.script, kept.Fetched().script, g.script);
    }
  }

  lemma {:induction false} SmallTurning(s: seq<byte>, g: Stage)
    requires Holds(s, g) && Small(s, g)
    ensures Suffix(Turning(s, g).end.script, g.script)
    decreases Weight(g.script), 2, 0
  {
    hide Weight, Pending, Read;
    if g.count - g.pos >= 8 {
      SmallHunting(s, g, g.pos);
    } else {
      FetchedHolds(s, g);
      FetchedLater(g);
      SmallRead(s, g);
      if g.Coming().error.None? {
        SmallHunting(s, g.Fetched(), g.Fetched().pos);
        SuffixTrans(Turning(s, g).end.script, g.Fetched().script, g.script);
      }
    }
  }

  /** A short stream is read to its end without a jump, and in reads of at least 8 bytes without a rewind. */
  lemma {:induction false} SmallRun(s: seq<byte>, g: Stage)
    requires Holds(s, g) && Small(s, g)
    ensures var run := Running(s, g);
            run.answer.Failed? && run.jumps == [] && (Chunky(g.script) ==> run.rewinds == 0)
    decreases Weight(g.script), |s| - g.Position()
  {
    hide Running, Harmless, Turning, FramesFrom, Tracks, Stays, Weight, Pending, HasError, Genuine, Read;
    hide Suffix, Chunky;
    RunningUnfolds(s, g);
    var t := Turning(s, g);
    SmallTurning(s, g);
    if Chunky(g.script) {
      ChunkyStays(g);
      ChunkySuffix(t.end.script, g.script);
    }
    if !Last(t) {
      RunGoesOn(s, g, t);
      SmallRun(s, t.end);
    }
  }

  lemma ChunkyStays(g: Stage)
    requires g.Sane() && Chunky(g.script)
    ensures !WillRewind(g)
  {
    hide Weight, Pending, HasError;
  }

  /** Without errors in the source a run ends with the end of file. */
  lemma {:induction false} RunCode(s: seq<byte>, g: Stage)
    requires Holds(s, g) && !HasError(g.script) && Running(s, g).answer.Failed?
    ensures Running(s, g).answer == Failed(EOF)
    decreases Weight(g.script), |s| - g.Position()
  {
    hide Running, Harmless, Turning, Tracks, Stays, Weight, Pending, HasError, Genuine, Holds, Read;
    RunningUnfolds(s, g);
    var t := Turning(s, g);
    if !Last(t) {
      RunGoesOn(s, g, t);
      RunCode(s, t.end);
    }
  }

  lemma FoundGenuine(s: seq<byte>, t: Result)
    requires Holds(s, t.end) && Finds(s, t)
    ensures AllGenuine(t.got, s)
  {
    hide Genuine, Pending;
    if t.answer.Delivered? {
      GenuineExtends(t.got[0], s, t.end.Received());
    }
  }

  lemma GenuineSum(a: seq<Delivery>, b: seq<Delivery>, s: seq<byte>)
    requires AllGenuine(a, s) && AllGenuine(b, s)
    ensures AllGenuine(a + b, s)
  {
    hide Genuine;
  }

  /** Everything a run returns lies in the stream, where it was found. */
  lemma {:induction false} RunGenuine(s: seq<byte>, g: Stage)
    requires Holds(s, g)
    ensures AllGenuine(Running(s, g).got, s)
    decreases Weight(g.script), |s| - g.Position()
  {
    hide Running, Harmless, Turning, Tracks, Stays, Weight, Pending, HasError, Genuine, Read, AllGenuine, Finds;
    RunningUnfolds(s, g);
    var t := Turning(s, g);
    FoundGenuine(s, t);
    if !Last(t) {
      RunGoesOn(s, g, t);
      RunGenuine(s, t.end);
      hide Holds, Proper;
      GenuineSum(t.got, Running(s, t.end).got, s);
    }
  }
}
