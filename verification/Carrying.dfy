/**
 Frames cut into reads: which cuttings of a stream of frames arrive complete.
 */
module Carrying {
  import opened Bytes
  import opened Codec
  import opened Scan
  import opened IoReader
  import opened Positions
  import opened Course
  import opened Runs

  /**
   The reads that carry one frame: no errors, a first read of at least a header's worth, and a
   last read that is not empty. Empty reads may come anywhere in between.
   */
  ghost predicate Carries(group: seq<Event>, frame: seq<byte>) {
    && group != []
    && (forall i :: 0 <= i < |group| ==> group[i].Data?)
    && |group[0].bytes| >= 8
    && group[|group| - 1].bytes != []
    && Pending(group) == frame
  }

  ghost predicate AllCarried(groups: seq<seq<Event>>, ms: seq<Message>)
    ensures AllCarried(groups, ms) ==> |groups| == |ms| && AllSendable(ms)
  {
    && |groups| == |ms| && AllSendable(ms)
    && forall i :: 0 <= i < |ms| ==> Carries(groups[i], Frame(ms[i]))
  }

  lemma {:induction false} ConcatPending(groups: seq<seq<Event>>, ms: seq<Message>)
    requires AllCarried(groups, ms)
    ensures Pending(Concat(groups)) == Frames(ms) && !HasError(Concat(groups))
    decreases |groups|
  {
    hide Frame, Pending;
    if groups == [] {
      assert Pending([]) == [] by { EmptyPending(); }
    } else {
      PendingConcat(groups[0], Concat(groups[1..]));
      ConcatPending(groups[1..], ms[1..]);
      assert Carries(groups[0], Frame(ms[0]));
      forall i | 0 <= i < |Concat(groups)| ensures Concat(groups)[i].Data? {
        if i >= |groups[0]| {
          assert Concat(groups)[i] == Concat(groups[1..])[i - |groups[0]|];
        }
      }
    }
  }

  /** How much the first reads of a group carry. */
  ghost function Carried(group: seq<Event>, j: nat): nat
    requires j <= |group|
  {
    |Pending(group[..j])|
  }

  lemma CarriedNext(group: seq<Event>, j: nat)
    requires j < |group| && group[j].Data?
    ensures Carried(group, j + 1) == Carried(group, j) + |group[j].bytes|
  {
    hide Pending;
    assert group[..j + 1] == group[..j] + [group[j]];
    PendingConcat(group[..j], [group[j]]);
    OnePending(group[j]);
  }

  lemma OnePending(e: Event)
    requires e.Data?
    ensures Pending([e]) == e.bytes
  {
    assert [e][1..] == [];
  }

  /** More reads carry more; all of them carry the frame, and the last is needed. */
  lemma CarriedBounds(group: seq<Event>, frame: seq<byte>, j: nat)
    requires Carries(group, frame) && 0 < j <= |group|
    ensures |group[0].bytes| <= Carried(group, j) <= |frame|
    ensures j < |group| ==> Carried(group, j) <= Carried(group, |group| - 1) < |frame|
    ensures j == |group| ==> Carried(group, j) == |frame|
    ensures Carried(group, |group| - 1) == |frame| - |group[|group| - 1].bytes|
  {
    hide Pending;
    var last := |group| - 1;
    CarriedNext(group, last);
    assert group[..|group|] == group;
    CarriedGrows(group, 1, j);
    CarriedNext(group, 0);
    if j < |group| {
      CarriedGrows(group, j, last);
    }
  }

  lemma CarriedGrows(group: seq<Event>, i: nat, j: nat)
    requires i <= j <= |group|
    ensures Carried(group, i) <= Carried(group, j)
  {
    hide Pending;
    assert group[..j] == group[..i] + group[i..j];
    PendingConcat(group[..i], group[i..j]);
  }

  // ---------- One frame ----------

  /** Behind so many old bytes no read of the group moves them, and all of the frame finds room. */
  ghost predicate Spare(before: nat, group: seq<Event>)
    requires group != []
  {
    || before == 0
    || (before + Carried(group, |group| - 1) <= 1024 && before + Carried(group, |group|) <= 2048)
  }

  /** In the middle of a frame: j reads of its group have come, behind the old bytes before pos. */
  ghost predicate InFrame(s: seq<byte>, h: Stage, group: seq<Event>, rest: seq<Event>, m: Message, j: nat) {
    && Holds(s, h) && Sendable(m) && Carries(group, Frame(m)) && 0 < j <= |group|
    && h.script == group[j..] + rest && h.count - h.pos == Carried(group, j)
    && s[h.Position()..] == Frame(m) + Pending(rest)
  }

  lemma SeesPart(s: seq<byte>, h: Stage, group: seq<Event>, rest: seq<Event>, m: Message, j: nat)
    requires InFrame(s, h, group, rest, m, j)
    ensures var u := Carried(group, j);
            u <= |Frame(m)| && View(s, h, h.pos) == Frame(m)[..u] && 8 <= u
  {
    hide Frame, Pending, Carried;
    CarriedBounds(group, Frame(m), j);
    var u := Carried(group, j);
    assert View(s, h, h.pos) == s[h.Position()..][..u] == Frame(m)[..u];
  }

  /** The wait for the next read of the group. */
  lemma PartWaits(s: seq<byte>, h: Stage, group: seq<Event>, rest: seq<Event>, m: Message, j: nat)
    requires InFrame(s, h, group, rest, m, j) && j < |group|
    ensures Hunting(s, h, h.pos) == Waiting(s, h, h.pos)
    ensures h.pos + 8 <= h.count && Judge(View(s, h, h.pos)).Incomplete?
    ensures h.script != [] && h.script[0] == group[j] && group[j].Data?
  {
    hide Frame, Pending, Carried, Judge, Waiting;
    SeesPart(s, h, group, rest, m, j);
    CarriedBounds(group, Frame(m), j);
    PartialFrame(m, Carried(group, j));
  }

  /** A whole read further on, if it finds room and moves nothing. */
  lemma PartReads(s: seq<byte>, h: Stage, group: seq<Event>, rest: seq<Event>, m: Message, j: nat)
    requires InFrame(s, h, group, rest, m, j) && j < |group| && !h.Moves()
    requires h.pos + Carried(group, j + 1) <= BUFFER_SIZE
    ensures var next := h.Fetched();
            && h.Coming().error.None? && !h.Full()
            && next.base == h.base && next.pos == h.pos && InFrame(s, next, group, rest, m, j + 1)
            && Hunting(s, h, h.pos) == After([], 0, Hunting(s, next, h.pos))
  {
    hide Frame, Pending, Carried, Judge, Hunting, Weight;
    PartWaits(s, h, group, rest, m, j);
    SeesPart(s, h, group, rest, m, j);
    CarriedBounds(group, Frame(m), j);
    CarriedNext(group, j);
    FetchedHolds(s, h);
    if h.Full() {
      FullFrame(group, m, j);
    }
    ReadHead(h.script, h.Space());
    assert h.script[1..] == group[j + 1..] + rest;
  }

  /** A frame that is not complete does not fill the buffer. */
  lemma FullFrame(group: seq<Event>, m: Message, j: nat)
    requires Sendable(m) && Carries(group, Frame(m)) && 0 < j <= |group|
    ensures Carried(group, j) <= |Frame(m)| < BUFFER_SIZE
  {
    hide Frame, Carried;
    CarriedBounds(group, Frame(m), j);
  }

  /** Where a frame that found room leaves the reader. */
  function Whole(h: Stage, rest: seq<Event>, m: Message): Result
    requires Sendable(m)
  {
    var n := |Frame(m)|;
    Result(Delivered(m), [Delivery(h.Position(), n, m)], Stage(h.base, h.pos + n, h.pos + n, rest), [], 0)
  }

  lemma {:induction false} PartTaken(s: seq<byte>, h: Stage, group: seq<Event>, rest: seq<Event>, m: Message, j: nat)
    requires InFrame(s, h, group, rest, m, j) && Spare(h.pos, group)
    ensures Hunting(s, h, h.pos) == Whole(h, rest, m)
    decreases |group| - j
  {
    hide Frame, Pending, Carried, Judge;
    SeesPart(s, h, group, rest, m, j);
    CarriedBounds(group, Frame(m), j);
    if j == |group| {
      assert Frame(m)[..|Frame(m)|] == Frame(m);
      FoundIff(Frame(m), |Frame(m)|, m);
      assert group[j..] + rest == rest;
    } else {
      CarriedBounds(group, Frame(m), j + 1);
      FullFrame(group, m, j + 1);
      CarriedBounds(group, Frame(m), |group|);
      PartReads(s, h, group, rest, m, j);
      PartTaken(s, h.Fetched(), group, rest, m, j + 1);
      AfterNothing(Hunting(s, h.Fetched(), h.pos));
    }
  }

  // ---------- A frame that finds no room ----------

  /** The call jumps, and the message it returns, if any, starts behind this position. */
  ghost predicate Astray(at: nat, t: Result) {
    t.jumps != [] && (t.answer.Delivered? ==> |t.got| == 1 && t.got[0].start > at)
  }

  lemma WaitsAstray(s: seq<byte>, h: Stage)
    requires Holds(s, h) && h.Moves() && h.count - h.pos >= 8 && h.Coming().error.None?
    requires Judge(View(s, h, h.pos)).Incomplete?
    ensures Hunting(s, h, h.pos).jumps != []
    ensures h.count - h.pos > 8 ==> Astray(h.Position(), Hunting(s, h, h.pos))
  {
    hide Judge, Pending, Read, FramesFrom, Weight, HasError, Genuine;
    FetchedHolds(s, h);
    FetchedLater(h);
    var next := h.Fetched();
    var jump := Jump(h, next, h.pos);
    HuntingTracks(s, next, h.pos, jump[0]);
    HuntingProper(s, h, h.pos);
    var t := Hunting(s, next, h.pos);
    if t.answer.Delivered? {
      FirstOf(s, LastOr(t.jumps, jump[0]));
    }
  }

  /** The beginning of a frame in the buffer is incomplete. */
  lemma BeginsFrame(s: seq<byte>, h: Stage, m: Message, rest: seq<byte>)
    requires Holds(s, h) && Sendable(m) && s[h.Position()..] == Frame(m) + rest
    requires 8 <= h.count - h.pos < |Frame(m)|
    ensures Judge(View(s, h, h.pos)).Incomplete?
  {
    hide Frame, Pending, Judge;
    var u := h.count - h.pos;
    assert View(s, h, h.pos) == s[h.Position()..][..u] == Frame(m)[..u];
    PartialFrame(m, u);
  }

  /** A full buffer that ends inside a frame, behind old bytes, with more of the frame to come. */
  lemma FullAstray(s: seq<byte>, h: Stage, m: Message, rest: seq<byte>)
    requires Holds(s, h) && Sendable(m) && s[h.Position()..] == Frame(m) + rest
    requires h.count == BUFFER_SIZE && 0 < h.pos <= HALF && h.pos + |Frame(m)| > BUFFER_SIZE
    requires h.script != [] && h.script[0].Data?
    ensures Astray(h.Position(), Hunting(s, h, h.pos))
  {
    hide Frame, Pending, Judge, Hunting, Weight;
    BeginsFrame(s, h, m, rest);
    DataComes(h);
    WaitsAstray(s, h);
  }

  lemma {:induction false} PartAstray(s: seq<byte>, h: Stage, group: seq<Event>, rest: seq<Event>, m: Message, j: nat)
    requires InFrame(s, h, group, rest, m, j) && j < |group| && !Spare(h.pos, group)
    ensures var t := Hunting(s, h, h.pos);
            t.jumps != [] && (|group[0].bytes| > 8 ==> Astray(h.Position(), t))
    decreases |group| - j
  {
    hide Frame, Pending, Carried, Judge, Hunting, Weight;
    PartWaits(s, h, group, rest, m, j);
    CarriedBounds(group, Frame(m), j);
    if h.count > HALF {
      DataComes(h);
      WaitsAstray(s, h);
    } else if h.pos + Carried(group, j + 1) <= BUFFER_SIZE {
      PartReads(s, h, group, rest, m, j);
      AfterNothing(Hunting(s, h.Fetched(), h.pos));
      PartAstray(s, h.Fetched(), group, rest, m, j + 1);
    } else {
      CarriedNext(group, j);
      CarriedBounds(group, Frame(m), j + 1);
      SplitRead(s, h, group[j].bytes);
      FullAstray(s, h.Fetched(), m, Pending(rest));
      AfterNothing(Hunting(s, h.Fetched(), h.pos));
      WaitsOn(s, h, h.pos);
    }
  }

  lemma DataComes(h: Stage)
    requires h.Sane() && h.script != [] && h.script[0].Data?
    ensures h.Coming().error.None?
  {}

  /** A read that does not find room fills the buffer and leaves data behind. */
  lemma SplitRead(s: seq<byte>, h: Stage, bytes: seq<byte>)
    requires Holds(s, h) && h.count <= HALF && h.script != [] && h.script[0] == Data(bytes)
    requires h.count + |bytes| > BUFFER_SIZE
    ensures var next := h.Fetched();
            && Holds(s, next) && h.Coming().error.None?
            && next.base == h.base && next.pos == h.pos && next.count == BUFFER_SIZE
            && next.script != [] && next.script[0].Data?
  {
    hide Pending, Weight, HasError;
    FetchedHolds(s, h);
  }

  // ---------- A frame from its first read on ----------

  /** What is left in front of the next frame once everything before it has been read. */
  function Packed(count: nat): nat { if count > 1024 then 0 else count }

  /** The reads of a frame find room behind what lies in the buffer. */
  ghost predicate Roomy(count: nat, group: seq<Event>)
    requires group != []
  {
    Spare(Packed(count), group)
  }

  /** Everything received has been read, and the source will go on with the reads of a frame. */
  ghost predicate AtFrame(s: seq<byte>, g: Stage, group: seq<Event>, rest: seq<Event>, m: Message) {
    && Holds(s, g) && Sendable(m) && Carries(group, Frame(m))
    && g.pos == g.count && g.script == group + rest && s[g.Position()..] == Frame(m) + Pending(rest)
  }

  lemma AtFrameReads(s: seq<byte>, g: Stage, group: seq<Event>, rest: seq<Event>, m: Message)
    requires AtFrame(s, g, group, rest, m)
    ensures var h, c := g.Fetched(), Packed(g.count);
            && Holds(s, h) && g.Coming().error.None? && h.pos == c && h.Position() == g.Position()
            && (if c + |group[0].bytes| <= BUFFER_SIZE then InFrame(s, h, group, rest, m, 1)
                else h.count == BUFFER_SIZE && h.script != [] && h.script[0].Data?)
            && Turning(s, g) == Hunting(s, h, h.pos)
  {
    hide Frame, Pending, Weight, Hunting, HasError;
    FetchedHolds(s, g);
    assert g.script[0] == group[0];
    if Packed(g.count) + |group[0].bytes| <= BUFFER_SIZE {
      ReadHead(g.script, g.Space());
      assert g.script[1..] == group[1..] + rest;
      CarriedNext(group, 0);
      assert group[..0] == [];
      EmptyPending();
    }
  }

  /** A frame that finds room is returned by one call, which reads exactly its group. */
  lemma FrameTaken(s: seq<byte>, g: Stage, group: seq<Event>, rest: seq<Event>, m: Message)
    requires AtFrame(s, g, group, rest, m) && Roomy(g.count, group)
    ensures var c := Packed(g.count);
            Turning(s, g) == Whole(Stage(g.Received() - c, c, c, []), rest, m)
  {
    hide Frame, Pending, Weight, Hunting, Read, Carried, Turning;
    AtFrameReads(s, g, group, rest, m);
    FullFrame(group, m, 1);
    CarriedBounds(group, Frame(m), |group|);
    CarriedBounds(group, Frame(m), 1);
    PartTaken(s, g.Fetched(), group, rest, m, 1);
  }

  /** One that does not lets the call jump; unless its first read is a bare header, the frame is not returned. */
  lemma FrameAstray(s: seq<byte>, g: Stage, group: seq<Event>, rest: seq<Event>, m: Message)
    requires AtFrame(s, g, group, rest, m) && !Roomy(g.count, group)
    ensures var t := Turning(s, g);
            t.jumps != [] && (|group[0].bytes| > 8 ==> Astray(g.Position(), t))
  {
    hide Frame, Pending, Weight, Hunting, Read, Carried, Turning;
    AtFrameReads(s, g, group, rest, m);
    CarriedBounds(group, Frame(m), |group|);
    CarriedBounds(group, Frame(m), 1);
    var h := g.Fetched();
    if Packed(g.count) + |group[0].bytes| <= BUFFER_SIZE {
      CarriedZero(group);
      PartAstray(s, h, group, rest, m, 1);
    } else {
      FullAstray(s, h, m, Pending(rest));
    }
  }

  lemma CarriedZero(group: seq<Event>)
    requires group != [] && group[0].Data?
    ensures Carried(group, 0) == 0 && Carried(group, 1) == |group[0].bytes|
  {
    CarriedNext(group, 0);
  }

  // ---------- Any number of frames ----------

  /** How many frames find room before one does not. */
  ghost function Arriving(count: nat, groups: seq<seq<Event>>): (k: nat)
    ensures k <= |groups|
    decreases |groups|
  {
    if groups == [] || groups[0] == [] || !Roomy(count, groups[0]) then 0
    else 1 + Arriving(Packed(count) + |Pending(groups[0])|, groups[1..])
  }

  /** Everything received has been read, and the source will deliver the frames of these messages. */
  ghost predicate AtFrames(s: seq<byte>, g: Stage, groups: seq<seq<Event>>, ms: seq<Message>) {
    Holds(s, g) && g.pos == g.count && g.script == Concat(groups) && AllCarried(groups, ms)
  }

  lemma FirstFrame(s: seq<byte>, g: Stage, groups: seq<seq<Event>>, ms: seq<Message>)
    requires AtFrames(s, g, groups, ms) && ms != []
    ensures AtFrame(s, g, groups[0], Concat(groups[1..]), ms[0]) && AllCarried(groups[1..], ms[1..])
    ensures !HasError(g.script)
    ensures var d, at := Delivery(g.Position(), |Frame(ms[0])|, ms[0]), g.Position();
            FramesFrom(s, at) == [d] + FramesFrom(s, d.End())
  {
    hide Frame, Pending, FramesFrom, HasError;
    ConcatPending(groups, ms);
    assert Carries(groups[0], Frame(ms[0]));
    PendingConcat(groups[0], Concat(groups[1..]));
    FramesFromAligned(s, g.Position(), ms[0], Pending(Concat(groups[1..])));
  }

  /** At the end of the source. */
  lemma NoMoreFrames(s: seq<byte>, g: Stage)
    requires Holds(s, g) && g.pos == g.count && g.script == []
    ensures Running(s, g) == Ends(Failed(EOF), g.Fetched()) && FramesFrom(s, g.Position()) == []
  {
    hide FramesFrom, Weight, Pending;
    EmptyPending();
    TooShort(s, g.Position());
    ReadPastEnd(g.Space());
  }

  /** The run after a frame that found room. */
  lemma RunTaken(s: seq<byte>, g: Stage, groups: seq<seq<Event>>, ms: seq<Message>)
    requires AtFrames(s, g, groups, ms) && ms != [] && Roomy(g.count, groups[0])
    ensures var t := Turning(s, g);
            && t.got == [Delivery(g.Position(), |Frame(ms[0])|, ms[0])] && t.jumps == [] && t.rewinds == 0
            && t.end.Position() == t.got[0].End() && t.end.count == Packed(g.count) + |Pending(groups[0])|
            && AtFrames(s, t.end, groups[1..], ms[1..]) && Running(s, g) == Then(t, Running(s, t.end))
  {
    hide Frame, Pending, Turning, Weight, Running, Harmless, HasError, FramesFrom;
    FirstFrame(s, g, groups, ms);
    FrameTaken(s, g, groups[0], Concat(groups[1..]), ms[0]);
    RunningUnfolds(s, g);
  }

  /** The run from a frame that found no room on never returns it. */
  lemma RunAstray(s: seq<byte>, g: Stage, groups: seq<seq<Event>>, ms: seq<Message>)
    requires AtFrames(s, g, groups, ms) && ms != [] && !Roomy(g.count, groups[0])
    ensures Running(s, g).jumps != []
    ensures |groups[0][0].bytes| > 8 ==> Rising(Running(s, g).got, g.Position() + 1)
  {
    hide Frame, Pending, Turning, Weight, Running, Harmless, HasError, FramesFrom, Genuine, Horizon;
    FirstFrame(s, g, groups, ms);
    FrameAstray(s, g, groups[0], Concat(groups[1..]), ms[0]);
    RunningUnfolds(s, g);
    var t := Turning(s, g);
    if t.answer.Delivered? {
      HorizonGrows(s, g);
      RunStarts(s, t.end);
      var rest := Running(s, t.end).got;
      hide Rising;
      RisingFrom(rest, Horizon(t.end), t.got[0].start + 1);
      if |groups[0][0].bytes| > 8 {
        RisingFirst(t.got[0], rest, g.Position() + 1);
        assert t.got == [t.got[0]];
      }
    }
  }

  /** Every first read carries more than a bare header. */
  predicate Ample(groups: seq<seq<Event>>) {
    forall i :: 0 <= i < |groups| && groups[i] != [] && groups[i][0].Data? ==> |groups[i][0].bytes| > 8
  }

  lemma ScanFinds(s: seq<byte>, g: Stage, groups: seq<seq<Event>>, ms: seq<Message>)
    requires AtFrames(s, g, groups, ms)
    ensures LogMessages(FramesFrom(s, g.Position())) == ms
  {
    hide Frame, Pending, FramesFrom, LogMessages, Messages;
    ConcatPending(groups, ms);
    FramesFromMessages(s, g.Position());
    MessagesOfFrames(ms);
  }

  /** What was returned agrees with what there is up to the k-th; that one, if it is gone, is missing. */
  ghost predicate Agrees(got: seq<Delivery>, all: seq<Delivery>, k: nat, gone: bool) {
    && k <= |got| && k <= |all| && got[..k] == all[..k]
    && (k == |all| ==> got == all) && (k < |all| && gone ==> all[k] !in got)
  }

  lemma AgreesFirst(d: Delivery, got: seq<Delivery>, all: seq<Delivery>, k: nat, gone: bool)
    requires Agrees(got, all, k, gone) && d !in all
    ensures Agrees([d] + got, [d] + all, k + 1, gone)
  {
    assert ([d] + got)[..k + 1] == [d] + got[..k] && ([d] + all)[..k + 1] == [d] + all[..k];
  }

  lemma NotAgain(s: seq<byte>, d: Delivery)
    requires d.length > 0
    ensures d !in FramesFrom(s, d.End())
  {
    FramesStartLater(s, d.End());
  }

  /** How a run over frames ends: with the end of the source if all found room, and otherwise after a jump. */
  ghost predicate EndsWell(run: Result, all: bool) {
    if all then run.answer == Failed(EOF) && run.jumps == [] && run.rewinds == 0 else run.jumps != []
  }

  /**
   The frames that find room are returned in order. When all do, that is all the run returns
   before the end of the source; when one does not, the run never returns that frame.
   */
  lemma {:induction false} FramesArrive(s: seq<byte>, g: Stage, groups: seq<seq<Event>>, ms: seq<Message>)
    requires AtFrames(s, g, groups, ms)
    ensures var run, k := Running(s, g), Arriving(g.count, groups);
            && LogMessages(FramesFrom(s, g.Position())) == ms && EndsWell(run, k == |ms|)
            && Agrees(run.got, FramesFrom(s, g.Position()), k, Ample(groups))
    decreases |groups|
  {
    hide Frame, Pending, Turning, Weight, Running, FramesFrom, Roomy, Agrees, LogMessages, HasError, AllCarried;
    ScanFinds(s, g, groups, ms);
    if ms == [] {
      NoMoreFrames(s, g);
      AgreesEmpty(Ample(groups));
    } else {
      FirstFrame(s, g, groups, ms);
      var d := Delivery(g.Position(), |Frame(ms[0])|, ms[0]);
      if Roomy(g.count, groups[0]) {
        RunTaken(s, g, groups, ms);
        var t := Turning(s, g);
        FramesArrive(s, t.end, groups[1..], ms[1..]);
        NotAgain(s, d);
        var k, gone := Arriving(t.end.count, groups[1..]), Ample(groups[1..]);
        AgreesFirst(d, Running(s, t.end).got, FramesFrom(s, d.End()), k, gone);
        AgreesLess(Running(s, g).got, FramesFrom(s, g.Position()), k + 1, gone, Ample(groups));
      } else {
        RunAstray(s, g, groups, ms);
        AgreesNot(d, Running(s, g).got, FramesFrom(s, d.End()), Ample(groups));
      }
    }
  }

  lemma AgreesEmpty(gone: bool)
    ensures Agrees([], [], 0, gone)
  {}

  lemma AgreesLess(got: seq<Delivery>, all: seq<Delivery>, k: nat, gone: bool, less: bool)
    requires Agrees(got, all, k, gone) && (less ==> gone)
    ensures Agrees(got, all, k, less)
  {}

  lemma AgreesNot(d: Delivery, got: seq<Delivery>, rest: seq<Delivery>, gone: bool)
    requires gone ==> Rising(got, d.start + 1)
    ensures Agrees(got, [d] + rest, 0, gone)
  {}

  // ---------- Frames never fill the buffer ----------

  lemma IncompleteSize(w: seq<byte>)
    requires Judge(w).Incomplete?
    ensures |w| < 1100
  {
    hide ChecksumHolds, TopicLength, PayloadLength;
  }

  /** What stalls a buffer lies behind positions at which the scan of the stream finds nothing. */
  lemma {:induction false} StallsSkip(s: seq<byte>, g: Stage, from: nat)
    requires Holds(s, g) && Stalls(View(s, g, 0), from)
    ensures FramesFrom(s, g.base + from) == FramesFrom(s, g.base + Slot(View(s, g, 0), from))
    ensures g.count - Slot(View(s, g, 0), from) < 1100
    decreases g.count - from
  {
    hide Judge, Pending, FramesFrom;
    var w := View(s, g, 0);
    assert w[from..] == View(s, g, from);
    if Judge(w[from..]).Incomplete? {
      IncompleteSize(w[from..]);
    } else {
      HeaderThere(w[from..]);
      SkipByte(s, g.Received(), g.base + from);
      StallsSkip(s, g, from + 1);
    }
  }

  /** The reader is at most 8 bytes before the frames that are still to come, and finds them. */
  ghost predicate Near(s: seq<byte>, g: Stage, at: nat, ms: seq<Message>) {
    && Holds(s, g) && AllSendable(ms) && at <= |s| && s[at..] == Frames(ms)
    && FramesFrom(s, g.Position()) == FramesFrom(s, at) && at <= Horizon(g) + 8
  }

  /** A buffer full of frames does not stall. */
  lemma FramesFlow(s: seq<byte>, end: Stage, at: nat, ms: seq<Message>)
    requires Holds(s, end) && AllSendable(ms) && at <= |s| && s[at..] == Frames(ms)
    requires end.Full() && Stalls(View(s, end, 0), 0) && at <= end.base + 8
    ensures FramesFrom(s, end.base) != FramesFrom(s, at)
  {
    hide Judge, Pending, FramesFrom, Frame, Stalls, Slot;
    StallsSkip(s, end, 0);
    var far := end.base + Slot(View(s, end, 0), 0);
    if ms != [] {
      FramesFromAligned(s, at, ms[0], Frames(ms[1..]));
      FramesStartLater(s, far);
      assert FramesFrom(s, far) != [] ==> FramesFrom(s, far)[0].start >= far;
    }
  }

  lemma NearFrame(s: seq<byte>, at: nat, ms: seq<Message>)
    requires AllSendable(ms) && at <= |s| && s[at..] == Frames(ms) && FramesFrom(s, at) != []
    ensures ms != []
    ensures var d := Delivery(at, |Frame(ms[0])|, ms[0]);
            && FramesFrom(s, at) == [d] + FramesFrom(s, d.End())
            && d.End() <= |s| && s[d.End()..] == Frames(ms[1..])
  {
    hide FramesFrom, Frame;
    if ms == [] {
      TooShort(s, at);
    } else {
      FramesFromAligned(s, at, ms[0], Frames(ms[1..]));
      assert s[at..][|Frame(ms[0])|..] == Frames(ms[1..]);
    }
  }

  lemma NearNext(s: seq<byte>, g: Stage, at: nat, ms: seq<Message>)
    requires Near(s, g, at, ms) && Turning(s, g).jumps == []
    requires FramesFrom(s, Origin(g)) == FramesFrom(s, g.Position())
    ensures var t := Turning(s, g);
            && !t.answer.Spins?
            && if t.answer.Delivered? then ms != [] && Near(s, t.end, at + |Frame(ms[0])|, ms[1..])
               else Near(s, t.end, at, ms)
  {
    hide Judge, Pending, FramesFrom, Frame, Stalls, Turning, Running, Harmless, Weight, HasError, Read, Frames;
    RunningUnfolds(s, g);
    HorizonGrows(s, g);
    TurningForward(s, g);
    OriginBound(g);
    var t := Turning(s, g);
    if t.answer.Spins? {
      TurningSpins(s, g);
      FramesFlow(s, t.end, at, ms);
    }
    if t.answer.Delivered? {
      NearFrame(s, at, ms);
      assert t.got[0] == FramesFrom(s, at)[0];
    }
  }

  /** A harmless run over frames that does not jump comes to the end of the source. */
  lemma {:induction false} FramesEnd(s: seq<byte>, g: Stage, at: nat, ms: seq<Message>)
    requires Near(s, g, at, ms) && Running(s, g).jumps == [] && Harmless(s, g)
    ensures Running(s, g).answer.Failed?
    decreases Weight(g.script), |s| - g.Position()
  {
    hide Near, FramesFrom, Frame, Turning, Running, Harmless, Weight, HasError, Read, Frames, Holds, Pending, Genuine;
    NearHolds(s, g, at, ms);
    RunningUnfolds(s, g);
    NearNext(s, g, at, ms);
    var t := Turning(s, g);
    if !Last(t) {
      RunGoesOn(s, g, t);
      if t.answer.Delivered? {
        FramesEnd(s, t.end, at + |Frame(ms[0])|, ms[1..]);
      } else {
        FramesEnd(s, t.end, at, ms);
      }
    }
  }

  lemma NearHolds(s: seq<byte>, g: Stage, at: nat, ms: seq<Message>)
    requires Near(s, g, at, ms)
    ensures Holds(s, g) && AllSendable(ms)
  {}
}
