/**
 Subscription lists that are edited in place: DefaultSubscriptionManager of lib/go/qdp.go, and
 qdp_subscribe and qdp_unsubscribe of lib/c/qdp.c. Both are compared with the history of calls.
 */
module Subscriptions {
  import opened Bytes
  import opened Topics

  // ---------- Histories ----------

  /** Handlers and callbacks are identities. A Go unsubscription names both, a C one the pattern only. */
  datatype Subscription = Subscription(pattern: Text, handler: nat)

  datatype Change = Add(entry: Subscription) | DropExact(entry: Subscription) | DropPattern(pattern: Text)

  predicate Drops(c: Change, s: Subscription) {
    match c
    case Add(_) => false
    case DropExact(entry) => s == entry
    case DropPattern(pattern) => s.pattern == pattern
  }

  /** The subscriptions of a list that a change leaves, in order. */
  function Keep(subs: seq<Subscription>, c: Change): seq<Subscription> {
    if subs == [] then []
    else (if Drops(c, subs[0]) then [] else [subs[0]]) + Keep(subs[1..], c)
  }

  function Apply(subs: seq<Subscription>, c: Change): seq<Subscription> {
    if c.Add? then subs + [c.entry] else Keep(subs, c)
  }

  function ApplyAll(subs: seq<Subscription>, history: seq<Change>): seq<Subscription>
    decreases |history|
  {
    if history == [] then subs else ApplyAll(Apply(subs, history[0]), history[1..])
  }

  ghost predicate Survives(s: Subscription, later: seq<Change>) {
    forall i :: 0 <= i < |later| ==> !Drops(later[i], s)
  }

  ghost function Survivors(subs: seq<Subscription>, later: seq<Change>): seq<Subscription> {
    if subs == [] then []
    else (if Survives(subs[0], later) then [subs[0]] else []) + Survivors(subs[1..], later)
  }

  /** What is subscribed after a history, told without replaying it: the additions no later change drops. */
  ghost function Live(history: seq<Change>): seq<Subscription> {
    if history == [] then []
    else (if history[0].Add? && Survives(history[0].entry, history[1..]) then [history[0].entry] else [])
         + Live(history[1..])
  }

  lemma SurvivorsUnfold(subs: seq<Subscription>, later: seq<Change>)
    requires subs != []
    ensures Survivors(subs, later) == (if Survives(subs[0], later) then [subs[0]] else []) + Survivors(subs[1..], later)
  {
    hide Survives;
  }

  lemma {:induction false} SurvivorsConcat(a: seq<Subscription>, b: seq<Subscription>, later: seq<Change>)
    ensures Survivors(a + b, later) == Survivors(a, later) + Survivors(b, later)
    decreases |a|
  {
    if a == [] {
      assert a + b == b;
    } else {
      hide Survives, Survivors;
      assert (a + b)[0] == a[0] && (a + b)[1..] == a[1..] + b;
      SurvivorsConcat(a[1..], b, later);
      SurvivorsUnfold(a, later);
      SurvivorsUnfold(a + b, later);
      var head := if Survives(a[0], later) then [a[0]] else [];
      var x, y := Survivors(a[1..], later), Survivors(b, later);
      assert head + (x + y) == (head + x) + y;
    }
  }

  lemma {:induction false} SurvivorsAll(subs: seq<Subscription>)
    ensures Survivors(subs, []) == subs
    decreases |subs|
  {
    if subs != [] {
      SurvivorsAll(subs[1..]);
      assert subs == [subs[0]] + subs[1..];
    }
  }

  lemma SurvivesStep(s: Subscription, later: seq<Change>)
    requires later != []
    ensures Survives(s, later) <==> !Drops(later[0], s) && Survives(s, later[1..])
  {
    if !Drops(later[0], s) && Survives(s, later[1..]) {
      forall i | 0 <= i < |later| ensures !Drops(later[i], s) {
        assert i > 0 ==> later[i] == later[1..][i - 1];
      }
    }
  }

  lemma {:induction false} SurvivorsKeep(subs: seq<Subscription>, later: seq<Change>)
    requires later != [] 
    ensures Survivors(subs, later) == Survivors(Keep(subs, later[0]), later[1..])
    decreases |subs|
  {
    hide Survives, Drops;
    if subs != [] {
      SurvivesStep(subs[0], later);
      SurvivorsKeep(subs[1..], later);
      var kept := if Drops(later[0], subs[0]) then [] else [subs[0]];
      SurvivorsConcat(kept, Keep(subs[1..], later[0]), later[1..]);
      assert [subs[0]][1..] == [];
    }
  }

  lemma KeepAll(subs: seq<Subscription>, c: Change)
    requires c.Add?
    ensures Keep(subs, c) == subs
  {
    if subs != [] {
      assert subs == [subs[0]] + subs[1..];
    }
  }

  /** One change moves between the two sides of the account below without altering it. */
  lemma LiveStep(subs: seq<Subscription>, history: seq<Change>)
    requires history != []
    ensures Survivors(Apply(subs, history[0]), history[1..]) + Live(history[1..])
            == Survivors(subs, history) + Live(history)
  {
    var c, rest := history[0], history[1..];
    LiveUnfolds(history);
    SurvivorsKeep(subs, history);
    hide Survives, Drops, Survivors, Keep, Live;
    if c.Add? {
      KeepAll(subs, c);
      SurvivorsConcat(subs, [c.entry], rest);
      SurvivorsOne(c.entry, rest);
      Associative(Survivors(subs, rest), Survivors([c.entry], rest), Live(rest));
    } else {
      assert [] + Live(rest) == Live(rest);
    }
  }

  lemma Associative<T>(a: seq<T>, b: seq<T>, c: seq<T>)
    ensures (a + b) + c == a + (b + c)
  {}

  lemma LiveUnfolds(history: seq<Change>)
    requires history != []
    ensures var c, rest := history[0], history[1..];
            Live(history) == (if c.Add? && Survives(c.entry, rest) then [c.entry] else []) + Live(rest)
  {
    hide Survives;
  }

  lemma SurvivorsOne(s: Subscription, later: seq<Change>)
    ensures Survivors([s], later) == if Survives(s, later) then [s] else []
  {
    assert [s][1..] == [];
  }

  lemma {:induction false} ApplyAllLive(subs: seq<Subscription>, history: seq<Change>)
    ensures ApplyAll(subs, history) == Survivors(subs, history) + Live(history)
    decreases |history|
  {
    hide Survives, Drops, Apply;
    if history == [] {
      SurvivorsAll(subs);
    } else {
      LiveStep(subs, history);
      hide Survivors, Live;
      ApplyAllLive(Apply(subs, history[0]), history[1..]);
    }
  }

  lemma {:induction false} KeepCount(subs: seq<Subscription>, c: Change, s: Subscription)
    ensures multiset(Keep(subs, c))[s] == if Drops(c, s) then 0 else multiset(subs)[s]
    decreases |subs|
  {
    hide Drops, Keep;
    if subs == [] {
      KeepNone(c);
    } else {
      KeepCount(subs[1..], c, s);
      KeepFirst(subs, c);
      assert subs == [subs[0]] + subs[1..];
      var rest := subs[1..];
      assert multiset(subs)[s] == (if s == subs[0] then 1 else 0) + multiset(rest)[s];
    }
  }

  /** A change leaves no subscription that it drops, and every other one as often as it was. */
  lemma KeepCounts(subs: seq<Subscription>, c: Change)
    ensures forall s :: s in Keep(subs, c) ==> !Drops(c, s)
    ensures forall s :: !Drops(c, s) ==> multiset(Keep(subs, c))[s] == multiset(subs)[s]
  {
    hide Drops, Keep;
    forall s ensures multiset(Keep(subs, c))[s] == if Drops(c, s) then 0 else multiset(subs)[s] {
      KeepCount(subs, c, s);
    }
  }

  /** The pair is gone, and every other subscription is there as often as before. */
  ghost predicate LessPair(before: seq<Subscription>, after: seq<Subscription>, topic: Text, handler: nat) {
    && Subscription(topic, handler) !in after
    && forall s: Subscription ::
         s.pattern != topic || s.handler != handler ==> multiset(after)[s] == multiset(before)[s]
  }

  /** Every subscription of the pattern is gone, and every other one is there as often as before. */
  ghost predicate LessPattern(before: seq<Subscription>, after: seq<Subscription>, pattern: Text) {
    && (forall s :: s in after ==> s.pattern != pattern)
    && forall s: Subscription :: s.pattern != pattern ==> multiset(after)[s] == multiset(before)[s]
  }

  // ---------- Go ----------

  class Manager {
    var subscriptions: seq<Subscription>

    constructor ()
      ensures subscriptions == []
    {
      subscriptions := [];
    }

    method Subscribe(topic: Text, handler: nat)
      modifies this
      ensures subscriptions == Apply(old(subscriptions), Add(Subscription(topic, handler)))
      ensures subscriptions == old(subscriptions) + [Subscription(topic, handler)]
    {
      subscriptions := subscriptions + [Subscription(topic, handler)];
    }

    /** The backward loop that cuts matching entries out of the slice. */
    method Unsubscribe(topic: Text, handler: nat)
      modifies this
      ensures subscriptions == Apply(old(subscriptions), DropExact(Subscription(topic, handler)))
      ensures LessPair(old(subscriptions), subscriptions, topic, handler)
    {
      hide Keep, Drops, LessPair, Cut;
      ghost var c, all := DropExact(Subscription(topic, handler)), subscriptions;
      CutNone(all, c);
      var i := |subscriptions| - 1;
      while i >= 0
        invariant -1 <= i && Cut(all, subscriptions, i, c)
      {
        CutStep(all, subscriptions, i, c);
        var sub := subscriptions[i];
        DropsPair(topic, handler, sub);
        if sub.pattern == topic && sub.handler == handler {
          subscriptions := subscriptions[..i] + subscriptions[i + 1..];
        }
        i := i - 1;
      }
      CutAll(all, subscriptions, c);
      UnsubscribedPair(all, topic, handler);
    }

    /** OnMessageRx: the handlers of the matching subscriptions, in subscription order. */
    method OnMessageRx(topic: Text) returns (called: seq<nat>)
      ensures called == GoHandlers(subscriptions, topic)
    {
      hide GoAnswer, Split, GoHandlers;
      called := [];
      assert subscriptions[0..] == subscriptions;
      for i := 0 to |subscriptions|
        invariant GoHandlers(subscriptions, topic) == called + GoHandlers(subscriptions[i..], topic)
      {
        GoHandlersStep(subscriptions, i, topic);
        var matches := MatchTopic(subscriptions[i].pattern, topic);
        if matches {
          called := called + [subscriptions[i].handler];
        }
      }
      assert subscriptions[|subscriptions|..] == [];
      NoHandlers(topic);
    }
  }

  ghost function GoHandlers(subs: seq<Subscription>, topic: Text): seq<nat> {
    if subs == [] then []
    else (if GoAnswer(Split(subs[0].pattern), Split(topic)) then [subs[0].handler] else [])
         + GoHandlers(subs[1..], topic)
  }

  lemma GoHandlersStep(subs: seq<Subscription>, i: nat, topic: Text)
    requires i < |subs|
    ensures GoHandlers(subs[i..], topic)
            == (if GoAnswer(Split(subs[i].pattern), Split(topic)) then [subs[i].handler] else [])
               + GoHandlers(subs[i + 1..], topic)
  {
    hide GoAnswer, Split;
    assert subs[i..][0] == subs[i] && subs[i..][1..] == subs[i + 1..];
  }

  lemma NoHandlers(topic: Text)
    ensures GoHandlers([], topic) == []
  {}

  /** The positions of exactly the chosen entries from one on, in order. */
  ghost predicate Selects(at: seq<nat>, chosen: seq<bool>, start: nat) {
    && (forall i :: i in at <==> start <= i < |chosen| && chosen[i])
    && (forall j, k :: 0 <= j < k < |at| ==> at[j] < at[k])
  }

  lemma SelectsNext(at: seq<nat>, chosen: seq<bool>, start: nat)
    requires start < |chosen| && Selects(at, chosen, start + 1)
    ensures Selects(if chosen[start] then [start] + at else at, chosen, start)
  {
    assert forall k :: 0 <= k < |at| ==> at[k] in at;
    var all := [start] + at;
    assert forall k :: 0 < k < |all| ==> all[k] == at[k - 1];
  }

  /** Which entries have a pattern that matches. */
  ghost function GoMatching(subs: seq<Subscription>, topic: Text): seq<bool> {
    seq(|subs|, i requires 0 <= i < |subs| => GoAnswer(Split(subs[i].pattern), Split(topic)))
  }

  lemma GoMatchingAt(subs: seq<Subscription>, topic: Text, i: nat)
    requires i < |subs|
    ensures |GoMatching(subs, topic)| == |subs|
    ensures GoMatching(subs, topic)[i] == GoAnswer(Split(subs[i].pattern), Split(topic))
  {
    hide GoAnswer, Split;
  }

  /** The handlers of those entries at some positions. */
  ghost predicate HandlersAt(subs: seq<Subscription>, at: seq<nat>, called: seq<nat>) {
    |called| == |at| && forall k :: 0 <= k < |at| ==> at[k] < |subs| && called[k] == subs[at[k]].handler
  }

  /** The handlers that are called are those at exactly the positions whose pattern matches, in order. */
  lemma {:induction false} GoCalled(subs: seq<Subscription>, topic: Text, start: nat) returns (at: seq<nat>)
    requires start <= |subs|
    ensures Selects(at, GoMatching(subs, topic), start) && HandlersAt(subs, at, GoHandlers(subs[start..], topic))
    decreases |subs| - start
  {
    if start == |subs| {
      assert subs[start..] == [];
      at := [];
    } else {
      GoHandlersStep(subs, start, topic);
      GoMatchingAt(subs, topic, start);
      hide GoAnswer, Split, GoHandlers, GoMatching;
      at := GoCalled(subs, topic, start + 1);
      SelectsNext(at, GoMatching(subs, topic), start);
      hide Selects;
      if GoMatching(subs, topic)[start] {
        HandlerFirst(subs, start, at, GoHandlers(subs[start + 1..], topic));
        at := [start] + at;
      } else {
        assert GoHandlers(subs[start..], topic) == GoHandlers(subs[start + 1..], topic);
      }
    }
  }

  lemma HandlerFirst(subs: seq<Subscription>, start: nat, at: seq<nat>, called: seq<nat>)
    requires start < |subs| && HandlersAt(subs, at, called)
    ensures HandlersAt(subs, [start] + at, [subs[start].handler] + called)
  {}

  method ReplayGo(history: seq<Change>) returns (m: Manager)
    requires forall i :: 0 <= i < |history| ==> !history[i].DropPattern?
    ensures fresh(m) && m.subscriptions == Live(history)
  {
    m := new Manager();
    for k := 0 to |history|
      invariant fresh(m) && ApplyAll([], history) == ApplyAll(m.subscriptions, history[k..])
    {
      assert history[k..][1..] == history[k + 1..];
      match history[k] {
        case Add(s) => m.Subscribe(s.pattern, s.handler);
        case DropExact(s) => m.Unsubscribe(s.pattern, s.handler);
      }
    }
    ApplyAllLive([], history);
  }

  // ---------- C ----------

  const MAX_SUBSCRIPTIONS: nat := 64
  const MAX_STORED: nat := 255

  /** strncpy into a zeroed field of 256 bytes. */
  function Stored(pattern: Text): Text {
    if |pattern| <= MAX_STORED then pattern else pattern[..MAX_STORED]
  }

  /** A subscription is refused when the table is full; otherwise as above, with the pattern as stored. */
  function ApplyBounded(subs: seq<Subscription>, c: Change): seq<Subscription> {
    if !c.Add? then Keep(subs, c)
    else if |subs| >= MAX_SUBSCRIPTIONS then subs
    else subs + [c.entry.(pattern := Stored(c.entry.pattern))]
  }

  class Table {
    const subs: array<Subscription>
    var subCount: nat

    ghost predicate Valid()
      reads this, subs
    {
      subs.Length == MAX_SUBSCRIPTIONS && subCount <= MAX_SUBSCRIPTIONS
    }

    ghost function List(): seq<Subscription>
      requires Valid()
      reads this, subs
    {
      subs[..subCount]
    }

    constructor ()
      ensures Valid() && fresh(subs) && List() == []
    {
      subs := new Subscription[MAX_SUBSCRIPTIONS](_ => Subscription([], 0));
      subCount := 0;
    }

    method Subscribe(pattern: Text, callback: nat) returns (ok: bool)
      requires Valid()
      modifies this, subs
      ensures Valid() && ok == (|old(List())| < 64)
      ensures List() == ApplyBounded(old(List()), Add(Subscription(pattern, callback)))
      ensures ok ==> exists p :: List() == old(List()) + [Subscription(p, callback)] && p <= pattern
                                 && |p| == if |pattern| <= 255 then |pattern| else 255
      ensures !ok ==> List() == old(List())
    {
      if subCount >= MAX_SUBSCRIPTIONS {
        return false;
      }
      subs[subCount] := Subscription(Stored(pattern), callback);
      subCount := subCount + 1;
      return true;
    }

    /** The memmove that closes the gap at slot i. */
    method CloseGap(i: nat)
      requires Valid() && i < subCount
      modifies this`subCount, subs
      ensures Valid() && subCount == old(subCount) - 1
      ensures subs[..i] == old(subs[..i]) && subs[i..subCount] == old(subs[i + 1..subCount])
    {
      if i < subCount - 1 {
        forall k | i <= k < subCount - 1 {
          subs[k] := subs[k + 1];
        }
      }
      subCount := subCount - 1;
    }

    /** The loop body at slot i, where the slots from i on hold rest: the slot is dropped or kept. */
    method VisitSlot(pattern: Text, i: nat, ghost rest: seq<Subscription>) returns (dropped: bool)
      requires Valid() && i < subCount && subs[i..subCount] == rest
      modifies this`subCount, subs
      ensures Valid() && dropped == Drops(DropPattern(pattern), rest[0])
      ensures subs[..i] == old(subs[..i])
      ensures if dropped then subCount == old(subCount) - 1 && subs[i..subCount] == rest[1..]
              else subCount == old(subCount) && subs[i] == rest[0] && subs[i + 1..subCount] == rest[1..]
    {
      assert subs[i] == rest[0] && subs[i + 1..subCount] == rest[1..];
      dropped := subs[i].pattern == pattern;
      if dropped {
        CloseGap(i);
      }
    }

    /** Of all, the first ones have been visited and those to keep of them are in the slots before i. */
    ghost predicate Visited(all: seq<Subscription>, c: Change, seen: nat, i: nat)
      reads this, subs
    {
      && Valid() && i <= subCount && seen <= |all| && subCount - i == |all| - seen
      && subs[..i] == Keep(all[..seen], c) && subs[i..subCount] == all[seen..]
    }

    /** One iteration of the forward loop; the index is a uint32 that wraps when slot 0 is removed. */
    method Advance(pattern: Text, i: nat, ghost all: seq<Subscription>, ghost seen: nat) returns (next: nat)
      requires Visited(all, DropPattern(pattern), seen, i) && i < subCount
      modifies this`subCount, subs
      ensures Visited(all, DropPattern(pattern), seen + 1, next)
    {
      hide Keep, Drops, Wrap32;
      NextSlot(all, seen, DropPattern(pattern));
      WrapAround(i);
      next := i;
      var dropped := VisitSlot(pattern, i, all[seen..]);
      if dropped {
        next := Wrap32(next - 1);
      } else {
        assert subs[..i + 1] == subs[..i] + [subs[i]];
      }
      next := Wrap32(next + 1);
    }

    /** The forward loop over the table. */
    method Unsubscribe(pattern: Text)
      requires Valid()
      modifies this, subs
      ensures Valid() && List() == ApplyBounded(old(List()), DropPattern(pattern))
      ensures LessPattern(old(List()), List(), pattern)
    {
      hide Keep, Drops, LessPattern;
      ghost var c, all, seen: nat := DropPattern(pattern), List(), 0;
      KeepNone(c);
      assert all[..0] == [] && all[0..] == all;
      var i: nat := 0;
      while i < subCount
        invariant Visited(all, c, seen, i)
        decreases |all| - seen
      {
        i := Advance(pattern, i, all, seen);
        seen := seen + 1;
      }
      assert all[..seen] == all && subs[..i] == subs[..subCount];
      Unsubscribed(all, pattern);
    }
  }

  /** uint32 arithmetic. */
  function Wrap32(x: int): nat { x % TWO_32 }

  lemma WrapAround(i: nat)
    requires i < MAX_SUBSCRIPTIONS
    ensures Wrap32(Wrap32(i - 1) + 1) == i && Wrap32(i + 1) == i + 1
  {}

  lemma KeepNone(c: Change)
    ensures Keep([], c) == []
  {}

  lemma {:induction false} KeepLast(subs: seq<Subscription>, s: Subscription, c: Change)
    ensures Keep(subs + [s], c) == Keep(subs, c) + (if Drops(c, s) then [] else [s])
    decreases |subs|
  {
    hide Keep, Drops;
    KeepNone(c);
    var last := if Drops(c, s) then [] else [s];
    if subs == [] {
      assert subs + [s] == [s] && [s][1..] == [] && [] + last == last + [] == last;
      KeepFirst([s], c);
    } else {
      assert (subs + [s])[0] == subs[0] && (subs + [s])[1..] == subs[1..] + [s];
      KeepLast(subs[1..], s, c);
      KeepFirst(subs, c);
      KeepFirst(subs + [s], c);
      Associative(if Drops(c, subs[0]) then [] else [subs[0]], Keep(subs[1..], c), last);
    }
  }

  lemma KeepFirst(subs: seq<Subscription>, c: Change)
    requires subs != []
    ensures Keep(subs, c) == (if Drops(c, subs[0]) then [] else [subs[0]]) + Keep(subs[1..], c)
  {}

  lemma UnsubscribedPair(subs: seq<Subscription>, topic: Text, handler: nat)
    ensures LessPair(subs, Keep(subs, DropExact(Subscription(topic, handler))), topic, handler)
  {
    var c := DropExact(Subscription(topic, handler));
    KeepCounts(subs, c);
    hide Keep;
    assert forall s: Subscription :: s.pattern != topic || s.handler != handler ==> !Drops(c, s);
  }

  lemma Unsubscribed(subs: seq<Subscription>, pattern: Text)
    ensures LessPattern(subs, Keep(subs, DropPattern(pattern)), pattern)
  {
    KeepCounts(subs, DropPattern(pattern));
    hide Keep;
    assert forall s: Subscription :: s.pattern != pattern ==> !Drops(DropPattern(pattern), s);
  }

  lemma DropsPair(topic: Text, handler: nat, s: Subscription)
    ensures Drops(DropExact(Subscription(topic, handler)), s) <==> s.pattern == topic && s.handler == handler
  {}

  /** The entries behind i have been treated, the others not yet. */
  ghost predicate Cut(all: seq<Subscription>, now: seq<Subscription>, i: int, c: Change) {
    -1 <= i < |all| && now == all[..i + 1] + Keep(all[i + 1..], c)
  }

  lemma CutNone(all: seq<Subscription>, c: Change)
    ensures Cut(all, all, |all| - 1, c)
  {
    hide Keep;
    KeepNone(c);
    assert all[..|all|] == all && all[|all|..] == [];
  }

  lemma CutStep(all: seq<Subscription>, now: seq<Subscription>, i: nat, c: Change)
    requires Cut(all, now, i, c)
    ensures i < |now| && Cut(all, if Drops(c, now[i]) then now[..i] + now[i + 1..] else now, i - 1, c)
  {
    hide Keep, Drops;
    assert all[i..][0] == all[i] && all[i..][1..] == all[i + 1..];
    assert all[..i + 1] == all[..i] + [all[i]];
    KeepFirst(all[i..], c);
  }

  lemma CutAll(all: seq<Subscription>, now: seq<Subscription>, c: Change)
    requires Cut(all, now, -1, c)
    ensures now == Keep(all, c)
  {
    hide Keep;
    assert all[0..] == all;
  }

  /** What is kept after one more slot. */
  lemma NextSlot(all: seq<Subscription>, seen: nat, c: Change)
    requires seen < |all|
    ensures Keep(all[..seen + 1], c) == Keep(all[..seen], c) + (if Drops(c, all[seen]) then [] else [all[seen]])
    ensures all[seen..][0] == all[seen] && all[seen..][1..] == all[seen + 1..]
  {
    hide Keep, Drops;
    KeepLast(all[..seen], all[seen], c);
    assert all[..seen] + [all[seen]] == all[..seen + 1];
  }

  /** The history as the table saw it: refused subscriptions left out, patterns as stored. */
  function Accepted(subs: seq<Subscription>, history: seq<Change>): seq<Change>
    decreases |history|
  {
    if history == [] then []
    else
      var c := history[0];
      (if !c.Add? then [c]
       else if |subs| >= MAX_SUBSCRIPTIONS then []
       else [Add(c.entry.(pattern := Stored(c.entry.pattern)))])
      + Accepted(ApplyBounded(subs, c), history[1..])
  }

  function ApplyAllBounded(subs: seq<Subscription>, history: seq<Change>): seq<Subscription>
    decreases |history|
  {
    if history == [] then subs else ApplyAllBounded(ApplyBounded(subs, history[0]), history[1..])
  }

  lemma {:induction false} BoundedIsAccepted(subs: seq<Subscription>, history: seq<Change>)
    ensures ApplyAllBounded(subs, history) == ApplyAll(subs, Accepted(subs, history))
    decreases |history|
  {
    hide Keep, Stored;
    if history != [] {
      var next := ApplyBounded(subs, history[0]);
      BoundedIsAccepted(next, history[1..]);
      var tail := Accepted(next, history[1..]);
      var all := Accepted(subs, history);
      if |all| > |tail| {
        assert all[1..] == tail;
      } else {
        assert all == tail;
      }
    }
  }

  /** With short patterns and never more than 64 subscriptions in the history, nothing is refused or cut. */
  lemma {:induction false} AcceptedAll(subs: seq<Subscription>, history: seq<Change>)
    requires |subs| + |history| <= 64
    requires forall i :: 0 <= i < |history| && history[i].Add? ==> |history[i].entry.pattern| <= 255
    ensures Accepted(subs, history) == history
    decreases |history|
  {
    if history != [] {
      KeepShorter(subs, history[0]);
      AcceptedAll(ApplyBounded(subs, history[0]), history[1..]);
      assert history == [history[0]] + history[1..];
    }
  }

  lemma {:induction false} KeepShorter(subs: seq<Subscription>, c: Change)
    ensures |Keep(subs, c)| <= |subs|
  {
    if subs != [] {
      KeepShorter(subs[1..], c);
    }
  }

  method ReplayC(history: seq<Change>) returns (t: Table)
    requires forall i :: 0 <= i < |history| ==> !history[i].DropExact?
    ensures fresh(t) && fresh(t.subs) && t.Valid() && t.List() == Live(Accepted([], history))
  {
    hide Keep, Live, Accepted, Stored;
    t := new Table();
    for k := 0 to |history|
      invariant fresh(t) && fresh(t.subs) && t.Valid()
      invariant ApplyAllBounded([], history) == ApplyAllBounded(t.List(), history[k..])
    {
      assert history[k..][1..] == history[k + 1..];
      match history[k] {
        case Add(s) => var ok := t.Subscribe(s.pattern, s.handler);
        case DropPattern(pattern) => t.Unsubscribe(pattern);
      }
    }
    BoundedIsAccepted([], history);
    ApplyAllLive([], Accepted([], history));
  }
}
