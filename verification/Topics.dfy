/**
 Topic matching, twice: matchTopic of lib/go/qdp.go splits both strings into levels, and
 qdp_topic_matches of lib/c/qdp.c walks two pointers over the characters.
 */
module Topics {
  import opened Bytes

  const SEPARATOR: byte := 0x2F   // '/'
  const PLUS: byte := 0x2B        // '+'
  const HASH: byte := 0x23        // '#'

  type Text = seq<byte>

  /** strings.Split(s, "/"). */
  function Split(s: Text): (levels: seq<Text>)
    ensures |levels| >= 1
    ensures s != [] && s[0] == SEPARATOR ==> levels[0] == []
  {
    if s == [] then [[]]
    else if s[0] == SEPARATOR then [[]] + Split(s[1..])
    else
      var rest := Split(s[1..]);
      [[s[0]] + rest[0]] + rest[1..]
  }

  // ---------- The relation the documentation of the wildcards describes ----------

  predicate LevelMatches(p: Text, t: Text) { p == [PLUS] || p == t }

  ghost predicate LevelsMatch(ps: seq<Text>, ts: seq<Text>, n: nat)
    requires n <= |ps| && n <= |ts|
  {
    forall i :: 0 <= i < n ==> LevelMatches(ps[i], ts[i])
  }

  function Last(ps: seq<Text>): Text
    requires ps != []
  {
    ps[|ps| - 1]
  }

  /** A trailing # stands for one or more levels, + for exactly one, anything else for itself. */
  ghost predicate Matches(ps: seq<Text>, ts: seq<Text>)
    requires ps != [] && ts != []
  {
    if Last(ps) == [HASH]
    then |ts| >= |ps| && LevelsMatch(ps, ts, |ps| - 1)
    else |ts| == |ps| && LevelsMatch(ps, ts, |ps|)
  }

  predicate Literal(level: Text) { PLUS !in level && HASH !in level }

  /** + and # only as whole levels, # only as the last one. */
  ghost predicate WellFormed(ps: seq<Text>) {
    forall i :: 0 <= i < |ps| ==>
      Literal(ps[i]) || ps[i] == [PLUS] || (ps[i] == [HASH] && i == |ps| - 1)
  }

  // ---------- Go ----------

  ghost predicate NoHash(ps: seq<Text>, n: nat)
    requires n <= |ps|
  {
    forall i :: 0 <= i < n ==> ps[i] != [HASH]
  }

  /** Exactly what matchTopic answers on any pattern, well-formed or not. */
  ghost predicate GoAnswer(ps: seq<Text>, ts: seq<Text>)
    requires ps != [] && ts != []
  {
    || ps == [[HASH]]
    || (&& (|ps| <= |ts| || Last(ps) == [HASH])
        && ((exists k :: 0 <= k < |ps| && k < |ts| && ps[k] == [HASH] && LevelsMatch(ps, ts, k) && NoHash(ps, k))
            || (|ps| == |ts| && LevelsMatch(ps, ts, |ps|) && NoHash(ps, |ps|))))
  }

  /** The answer once levels 0..i are known to match and to hold no #. */
  lemma GoAnswerAt(ps: seq<Text>, ts: seq<Text>, i: nat)
    requires ps != [] && ts != [] && ps != [[HASH]] && i < |ps| && i <= |ts|
    requires |ps| <= |ts| || Last(ps) == [HASH]
    requires LevelsMatch(ps, ts, i) && NoHash(ps, i)
    ensures i == |ts| ==> !GoAnswer(ps, ts)
    ensures i < |ts| && ps[i] == [HASH] ==> GoAnswer(ps, ts)
    ensures i < |ts| && ps[i] != [HASH] && !LevelMatches(ps[i], ts[i]) ==> !GoAnswer(ps, ts)
  {}

  /** matchTopic: split both, then compare level by level. */
  method MatchTopic(pattern: Text, topic: Text) returns (r: bool)
    ensures r == GoAnswer(Split(pattern), Split(topic))
  {
    HashSplit(pattern);
    if pattern == [HASH] {
      return true;
    }
    var ps, ts := Split(pattern), Split(topic);
    hide Split;
    if |ps| > |ts| && ps[|ps| - 1] != [HASH] {
      return false;
    }
    for i := 0 to |ps|
      invariant i <= |ts| && LevelsMatch(ps, ts, i) && NoHash(ps, i)
    {
      GoAnswerAt(ps, ts, i);
      if i >= |ts| {
        return false;
      }
      if ps[i] == [HASH] {
        return true;
      }
      if ps[i] != [PLUS] && ps[i] != ts[i] {
        return false;
      }
    }
    return |ts| == |ps|;
  }

  lemma EmptySplit(s: Text)
    ensures Split(s) == [[]] <==> s == []
  {}

  lemma SplitFirst(s: Text)
    requires s != []
    ensures var rest := Split(s[1..]);
            Split(s) == if s[0] == SEPARATOR then [[]] + rest else [[s[0]] + rest[0]] + rest[1..]
  {}

  lemma OneLevel(rest: seq<Text>, c: byte)
    requires rest != [] && [[c] + rest[0]] + rest[1..] == [[c]]
    ensures rest == [[]]
  {
    assert |[[c] + rest[0]] + rest[1..]| == |rest| == 1;
    assert ([[c] + rest[0]] + rest[1..])[0] == [c] + rest[0];
    assert |[c] + rest[0]| == 1 + |rest[0]|;
  }

  lemma SplitOfHash(s: Text)
    requires s == [HASH]
    ensures Split(s) == [[HASH]]
  {
    hide Split;
    SplitFirst(s);
    EmptySplit(s[1..]);
    var rest := Split(s[1..]);
    assert [s[0]] + rest[0] == [HASH] && rest[1..] == [];
  }

  lemma HashOfSplit(s: Text)
    requires Split(s) == [[HASH]]
    ensures s == [HASH]
  {
    hide Split;
    EmptySplit(s);
    SplitFirst(s);
    EmptySplit(s[1..]);
    assert s[0] == Split(s)[0][0] == HASH;
    OneLevel(Split(s[1..]), HASH);
    assert s == [s[0]] + s[1..];
  }

  lemma HashSplit(s: Text)
    ensures Split(s) == [[HASH]] <==> s == [HASH]
  {
    hide Split;
    if s == [HASH] {
      SplitOfHash(s);
    }
    if Split(s) == [[HASH]] {
      HashOfSplit(s);
    }
  }

  lemma NoEarlyHash(ps: seq<Text>, i: nat)
    requires WellFormed(ps) && i < |ps| - 1
    ensures ps[i] != [HASH]
  {
    assert HASH in [HASH];
  }

  /** On a well-formed pattern the Go matcher decides the documented relation. */
  lemma GoMatches(ps: seq<Text>, ts: seq<Text>)
    requires ps != [] && ts != [] && WellFormed(ps)
    ensures GoAnswer(ps, ts) <==> Matches(ps, ts)
  {
    forall i | 0 <= i < |ps| - 1 ensures ps[i] != [HASH] {
      NoEarlyHash(ps, i);
    }
    if Last(ps) == [HASH] && Matches(ps, ts) {
      assert ps[|ps| - 1] == [HASH];
    }
  }

  // ---------- C ----------

  /** Where strchr finds the separator, or the length of t if it does not. */
  function NextSeparator(t: Text): (k: nat)
    ensures k <= |t| && (k < |t| ==> t[k] == SEPARATOR)
    ensures SEPARATOR !in t[..k]
  {
    if t == [] || t[0] == SEPARATOR then 0
    else
      var k := NextSeparator(t[1..]);
      assert t[..k + 1] == [t[0]] + t[1..][..k];
      k + 1
  }

  /** The pointer walk, on what is left of both strings. */
  function Walk(p: Text, t: Text): bool
    decreases |p| + |t|
  {
    if p == [] || t == [] then (p == [] && t == []) || p == [HASH]
    else if p[0] == HASH then |p| == 1
    else if p[0] == PLUS then
      var k := NextSeparator(t);
      if k == |t| then |p| == 1
      else if |p| > 1 && p[1] == SEPARATOR then Walk(p[2..], t[k + 1..])
      else Walk(p[1..], t[k + 1..])
    else if p[0] == SEPARATOR then t[0] == SEPARATOR && Walk(p[1..], t[1..])
    else p[0] == t[0] && Walk(p[1..], t[1..])
  }

  /** qdp_topic_matches, with the end of a sequence for the terminating NUL. */
  method TopicMatches(pattern: Text, topic: Text) returns (r: bool)
    ensures r == Walk(pattern, topic)
  {
    var p, t := 0, 0;
    while p < |pattern| && t < |topic|
      invariant 0 <= p <= |pattern| && 0 <= t <= |topic|
      invariant Walk(pattern, topic) == Walk(pattern[p..], topic[t..])
      decreases |pattern| - p + |topic| - t
    {
      if pattern[p] == HASH {
        return p + 1 == |pattern|;
      }
      if pattern[p] == PLUS {
        var nextSep := t + NextSeparator(topic[t..]);
        if nextSep == |topic| {
          return p + 1 == |pattern|;
        }
        assert topic[t..][nextSep - t + 1..] == topic[nextSep + 1..];
        assert pattern[p..][1..] == pattern[p + 1..];
        t := nextSep + 1;
        p := p + 1;
        if p < |pattern| && pattern[p] == SEPARATOR {
          assert pattern[p - 1..][2..] == pattern[p + 1..];
          p := p + 1;
        }
        continue;
      }
      assert pattern[p..][1..] == pattern[p + 1..] && topic[t..][1..] == topic[t + 1..];
      if pattern[p] == SEPARATOR {
        if topic[t] != SEPARATOR {
          return false;
        }
        p, t := p + 1, t + 1;
        continue;
      }
      if pattern[p] != topic[t] {
        return false;
      }
      p, t := p + 1, t + 1;
    }
    assert p < |pattern| ==> pattern[p..][0] == pattern[p];
    return (p == |pattern| && t == |topic|) || (p < |pattern| && pattern[p] == HASH && p + 1 == |pattern|);
  }

  /** What the walk decides about levels: it differs from Matches on a trailing + and an empty last topic level. */
  ghost predicate CMatches(ps: seq<Text>, ts: seq<Text>)
    requires ps != [] && ts != []
  {
    if Last(ps) == [PLUS]
    then || (|ts| == |ps| && LevelsMatch(ps, ts, |ps| - 1) && Last(ts) != [])
         || (|ts| == |ps| + 1 && LevelsMatch(ps, ts, |ps| - 1) && Last(ts) == [])
    else Matches(ps, ts)
  }

  lemma LevelsMatchTail(p: Text, ps: seq<Text>, t: Text, ts: seq<Text>, n: nat)
    requires n <= |ps| && n <= |ts|
    ensures LevelsMatch([p] + ps, [t] + ts, n + 1) <==> LevelMatches(p, t) && LevelsMatch(ps, ts, n)
  {
    if LevelsMatch([p] + ps, [t] + ts, n + 1) {
      assert LevelMatches(([p] + ps)[0], ([t] + ts)[0]);
      forall i | 0 <= i < n ensures LevelMatches(ps[i], ts[i]) {
        assert LevelMatches(([p] + ps)[i + 1], ([t] + ts)[i + 1]);
      }
    }
  }

  lemma CMatchesTail(p: Text, ps: seq<Text>, t: Text, ts: seq<Text>)
    requires ps != [] && ts != []
    ensures CMatches([p] + ps, [t] + ts) <==> LevelMatches(p, t) && CMatches(ps, ts)
  {
    hide LevelsMatch, LevelMatches;
    assert Last([p] + ps) == Last(ps) && Last([t] + ts) == Last(ts);
    if |ts| >= |ps| - 1 {
      LevelsMatchTail(p, ps, t, ts, |ps| - 1);
    }
    if |ts| >= |ps| {
      LevelsMatchTail(p, ps, t, ts, |ps|);
    }
  }

  lemma CMatchesTooShort(ps: seq<Text>, ts: seq<Text>)
    requires |ps| > 1 && |ts| == 1
    ensures !CMatches(ps, ts)
  {}

  lemma WellFormedTail(p: Text, ps: seq<Text>)
    requires WellFormed([p] + ps) && ps != []
    ensures WellFormed(ps)
  {
    forall i | 0 <= i < |ps|
      ensures Literal(ps[i]) || ps[i] == [PLUS] || (ps[i] == [HASH] && i == |ps| - 1)
    {
      assert ([p] + ps)[i + 1] == ps[i];
    }
  }

  lemma {:induction false} SplitAtSeparator(t: Text)
    requires NextSeparator(t) < |t|
    ensures Split(t) == [t[..NextSeparator(t)]] + Split(t[NextSeparator(t) + 1..])
  {
    var k := NextSeparator(t);
    if t[0] == SEPARATOR {
      assert t[..0] == [];
    } else {
      var u := t[1..];
      SplitAtSeparator(u);
      assert Split(u)[0] == u[..k - 1] && Split(u)[1..] == Split(u[k..]);
      assert u[k..] == t[k + 1..];
      assert t[..k] == [t[0]] + u[..k - 1];
    }
  }

  lemma {:induction false} SplitWithoutSeparator(t: Text)
    requires NextSeparator(t) == |t|
    ensures Split(t) == [t]
  {
    if t != [] {
      SplitWithoutSeparator(t[1..]);
      assert t == [t[0]] + t[1..];
    }
  }

  /** A pattern that starts with a wildcard has it alone in its first level. */
  lemma FirstLevel(p: Text)
    requires p != [] && (p[0] == PLUS || p[0] == HASH) && WellFormed(Split(p))
    ensures |p| > 1 ==> p[0] == PLUS && p[1] == SEPARATOR && Split(p) == [[PLUS]] + Split(p[2..])
  {
    var ps, rest := Split(p), Split(p[1..]);
    assert ps[0] == [p[0]] + rest[0] && ps[0][0] == p[0];
    assert p[0] in ps[0];
    assert ps[0] == [p[0]];
    assert rest[0] == [];
    if |p| > 1 {
      assert p[1..][0] == p[1] && p[1] == SEPARATOR;
      assert p[1..][1..] == p[2..];
      assert rest == [[]] + Split(p[2..]);
      assert |ps| > 1;
    }
  }

  /** Characters in step: dropping the same literal character from both changes nothing. */
  lemma CMatchesStep(c: byte, a: Text, ps: seq<Text>, b: Text, ts: seq<Text>)
    requires Literal([c] + a)
    ensures CMatches([[c] + a] + ps, [[c] + b] + ts) <==> CMatches([a] + ps, [b] + ts)
  {
    assert c in [c] + a && forall x :: x in a ==> x in [c] + a;
    assert Literal(a);
    assert [PLUS][0] == PLUS && [HASH][0] == HASH;
    assert ([c] + a)[1..] == a && ([c] + b)[1..] == b;
    if ps == [] {
      assert !LevelMatches([c] + a, [c] + b) <==> a != b;
      assert LevelMatches(a, b) <==> a == b;
      LevelsMatchTail([c] + a, ps, [c] + b, ts, 0);
      LevelsMatchTail(a, ps, b, ts, 0);
    } else if ts == [] {
      CMatchesTooShort([[c] + a] + ps, [[c] + b] + ts);
      CMatchesTooShort([a] + ps, [b] + ts);
    } else {
      CMatchesTail([c] + a, ps, [c] + b, ts);
      CMatchesTail(a, ps, b, ts);
    }
  }

  /** The walk on a literal first character. */
  lemma WalkLiteral(p: Text, t: Text)
    requires p != [] && t != [] && WellFormed(Split(p))
    requires p[0] != HASH && p[0] != PLUS && p[0] != SEPARATOR
    requires t[0] == p[0] && WellFormed(Split(p[1..])) ==>
               (Walk(p[1..], t[1..]) <==> CMatches(Split(p[1..]), Split(t[1..])))
    ensures Walk(p, t) <==> CMatches(Split(p), Split(t))
  {
    var ps, ts := Split(p[1..]), Split(t[1..]);
    var level := [p[0]] + ps[0];
    assert Split(p)[0] == level && level[0] == p[0];
    assert Literal(level);
    if t[0] == p[0] {
      CMatchesStep(p[0], ps[0], ps[1..], ts[0], ts[1..]);
      assert [ps[0]] + ps[1..] == ps && [ts[0]] + ts[1..] == ts;
      LiteralTail(p[0], ps[0], ps[1..]);
    } else {
      assert !LevelMatches(level, Split(t)[0]) by {
        if t[0] == SEPARATOR { assert Split(t)[0] == []; } else { assert Split(t)[0][0] == t[0]; }
      }
      FirstDiffers(Split(p), Split(t));
    }
  }

  lemma LiteralTail(c: byte, a: Text, ps: seq<Text>)
    requires WellFormed([[c] + a] + ps) && Literal([c] + a)
    ensures WellFormed([a] + ps)
  {
    assert forall x :: x in a ==> x in [c] + a;
    assert Literal(a);
    forall i | 0 <= i < |[a] + ps|
      ensures var q := ([a] + ps)[i]; Literal(q) || q == [PLUS] || (q == [HASH] && i == |ps|)
    {
      assert i > 0 ==> ([a] + ps)[i] == ([[c] + a] + ps)[i];
    }
  }

  lemma FirstDiffers(ps: seq<Text>, ts: seq<Text>)
    requires ps != [] && ts != [] && Literal(ps[0]) && !LevelMatches(ps[0], ts[0])
    ensures !CMatches(ps, ts)
  {
    assert HASH in [HASH] && PLUS in [PLUS];
    if |ps| == 1 {
      assert ps[0] != [HASH] && ps[0] != [PLUS];
    } else if |ts| == 1 {
      CMatchesTooShort(ps, ts);
    } else {
      assert ps == [ps[0]] + ps[1..] && ts == [ts[0]] + ts[1..];
      CMatchesTail(ps[0], ps[1..], ts[0], ts[1..]);
    }
  }

  lemma WalkAtEnd(p: Text, t: Text)
    requires p == [] || t == []
    ensures Walk(p, t) <==> CMatches(Split(p), Split(t))
  {
    EmptySplit(p);
    EmptySplit(t);
    HashSplit(p);
    if p == [] {
      if CMatches(Split(p), Split(t)) { assert LevelMatches(Split(p)[0], Split(t)[0]); }
    } else {
      if |Split(p)| > 1 {
        CMatchesTooShort(Split(p), Split(t));
      } else {
        assert LevelMatches(Split(p)[0], Split(t)[0]) <==> Split(p)[0] == [PLUS];
      }
    }
  }

  lemma SameLevel(level: Text)
    ensures LevelMatches(level, level)
  {}

  lemma EmptyDiffers(level: Text)
    ensures Literal([]) && (level != [] ==> !LevelMatches([], level))
  {}

  lemma HashMatchesAll(ts: seq<Text>)
    requires ts != []
    ensures CMatches([[HASH]], ts)
  {
    assert [HASH][0] != [PLUS][0];
  }

  lemma SplitPlus(p: Text)
    requires |p| == 1 && p[0] == PLUS
    ensures Split(p) == [[PLUS]]
  {
    EmptySplit(p[1..]);
    assert Split(p) == [[PLUS] + [[]][0]] + [[]][1..];
    assert [PLUS] + [] == [PLUS];
  }

  /** A + at the end of the pattern. */
  lemma WalkLastPlus(p: Text, t: Text)
    requires |p| == 1 && t != [] && p[0] == PLUS
    ensures Walk(p, t) <==> CMatches(Split(p), Split(t))
  {
    SplitPlus(p);
    var k := NextSeparator(t);
    hide Split;
    if k == |t| {
      SplitWithoutSeparator(t);
    } else {
      SplitAtSeparator(t);
      EmptySplit(t[k + 1..]);
      assert Walk(p, t) == Walk(p[1..], t[k + 1..]);
    }
  }

  lemma WalkPlusStep(p: Text, t: Text)
    requires |p| > 1 && t != [] && p[0] == PLUS && p[1] == SEPARATOR
    ensures Walk(p, t) == (NextSeparator(t) < |t| && Walk(p[2..], t[NextSeparator(t) + 1..]))
  {}

  /** A + with more of the pattern behind it. */
  lemma PlusLevel(ps: seq<Text>, tail: seq<Text>, level: Text, ts: seq<Text>)
    requires tail != [] && ts != [] && ps == [[PLUS]] + tail
    ensures CMatches(ps, [level] + ts) <==> CMatches(tail, ts)
    ensures !CMatches(ps, [level])
  {
    hide CMatches;
    CMatchesTail([PLUS], tail, level, ts);
    CMatchesTooShort(ps, [level]);
  }

  /** What the pointer walk decides about levels, for every well-formed pattern and every topic. */
  lemma {:induction false} WalkMatches(p: Text, t: Text)
    requires WellFormed(Split(p))
    ensures Walk(p, t) <==> CMatches(Split(p), Split(t))
    decreases |p| + |t|
  {
    var ps, ts := Split(p), Split(t);
    hide CMatches, LevelMatches;
    if p == [] || t == [] {
      WalkAtEnd(p, t);
    } else if p[0] == HASH {
      FirstLevel(p);
      assert p == [HASH];
      HashSplit(p);
      HashMatchesAll(ts);
    } else if p[0] == PLUS {
      if |p| == 1 {
        WalkLastPlus(p, t);
      } else {
        FirstLevel(p);
        WalkPlusStep(p, t);
        var k := NextSeparator(t);
        if k < |t| {
          SplitAtSeparator(t);
          WellFormedTail([PLUS], Split(p[2..]));
          WalkMatches(p[2..], t[k + 1..]);
          PlusLevel(ps, Split(p[2..]), t[..k], Split(t[k + 1..]));
        } else {
          SplitWithoutSeparator(t);
          PlusLevel(ps, Split(p[2..]), t, ts);
        }
      }
    } else if p[0] == SEPARATOR {
      WellFormedTail([], Split(p[1..]));
      if t[0] == SEPARATOR {
        WalkMatches(p[1..], t[1..]);
        SameLevel([]);
        CMatchesTail([], Split(p[1..]), [], Split(t[1..]));
      } else {
        EmptyDiffers(ts[0]);
        FirstDiffers(ps, ts);
      }
    } else {
      if t[0] == p[0] && WellFormed(Split(p[1..])) {
        WalkMatches(p[1..], t[1..]);
      }
      WalkLiteral(p, t);
    }
  }

  // ---------- Agreement ----------

  /** The pattern ends in +, the topic in an empty level, and all that is left of them is there. */
  ghost predicate Disputed(ps: seq<Text>, ts: seq<Text>)
    requires ps != [] && ts != []
  {
    && Last(ps) == [PLUS] && Last(ts) == []
    && (|ts| == |ps| || |ts| == |ps| + 1) && LevelsMatch(ps, ts, |ps| - 1)
  }

  /** The two matchers agree on a well-formed pattern exactly when the pair is not disputed. */
  lemma AgreeIff(pattern: Text, topic: Text)
    requires WellFormed(Split(pattern))
    ensures (GoAnswer(Split(pattern), Split(topic)) <==> Walk(pattern, topic))
            <==> !Disputed(Split(pattern), Split(topic))
  {
    var ps, ts := Split(pattern), Split(topic);
    GoMatches(ps, ts);
    WalkMatches(pattern, topic);
    hide GoAnswer, Walk, Split, WellFormed;
    assert PLUS != HASH && [PLUS][0] == PLUS && [HASH][0] == HASH;
    if Last(ps) == [PLUS] && |ts| == |ps| {
      assert LevelsMatch(ps, ts, |ps|) <==> LevelsMatch(ps, ts, |ps| - 1) by { LastPlus(ps, ts); }
    }
  }

  lemma LastPlus(ps: seq<Text>, ts: seq<Text>)
    requires ps != [] && |ts| == |ps| && Last(ps) == [PLUS]
    ensures LevelsMatch(ps, ts, |ps|) <==> LevelsMatch(ps, ts, |ps| - 1)
  {}

  /** In particular both decide the documented relation whenever the topic's last level is not empty. */
  lemma BothMatch(pattern: Text, topic: Text)
    requires WellFormed(Split(pattern)) && Last(Split(topic)) != []
    ensures GoAnswer(Split(pattern), Split(topic)) <==> Matches(Split(pattern), Split(topic))
    ensures Walk(pattern, topic) <==> Matches(Split(pattern), Split(topic))
  {
    AgreeIff(pattern, topic);
    GoMatches(Split(pattern), Split(topic));
  }

  function Pluses(n: nat): Text
    requires n >= 1
  {
    if n == 1 then [PLUS] else [PLUS, SEPARATOR] + Pluses(n - 1)
  }

  lemma {:induction false} SplitPluses(n: nat)
    requires n >= 1
    ensures |Split(Pluses(n))| == n && forall i :: 0 <= i < n ==> Split(Pluses(n))[i] == [PLUS]
  {
    hide Split;
    if n == 1 {
      SplitPlus(Pluses(n));
    } else {
      SplitPluses(n - 1);
      var s, rest := Pluses(n), Split(Pluses(n - 1));
      assert s[1..][1..] == Pluses(n - 1) && s[1..][0] == SEPARATOR;
      SplitFirst(s[1..]);
      assert ([[]] + rest)[0] == [] && ([[]] + rest)[1..] == rest && [PLUS] + [] == [PLUS];
      SplitFirst(s);
      assert Split(s) == [[PLUS]] + rest;
    }
  }

  /** A topic on which the matchers agree for every well-formed pattern is one whose last level is not empty. */
  lemma AgreeOnTopicIff(topic: Text)
    ensures (forall pattern :: WellFormed(Split(pattern)) ==>
               (GoAnswer(Split(pattern), Split(topic)) <==> Walk(pattern, topic)))
            <==> Last(Split(topic)) != []
  {
    hide GoAnswer, Walk, Split;
    var ts := Split(topic);
    if Last(ts) == [] {
      var pattern := Pluses(|ts|);
      SplitPluses(|ts|);
      assert Disputed(Split(pattern), ts);
      AgreeIff(pattern, topic);
    }
    forall pattern | WellFormed(Split(pattern)) && Last(ts) != []
      ensures GoAnswer(Split(pattern), Split(topic)) <==> Walk(pattern, topic)
    {
      AgreeIff(pattern, topic);
    }
  }

  // ---------- The characters themselves ----------

  function Join(levels: seq<Text>): Text
    requires levels != []
  {
    if |levels| == 1 then levels[0] else levels[0] + [0x2F] + Join(levels[1..])
  }

  /** Splitting takes out exactly the slashes: no level holds one, and with them in between the text is whole again. */
  lemma {:induction false} SplitJoin(s: Text)
    ensures Join(Split(s)) == s && forall i :: 0 <= i < |Split(s)| ==> 0x2F !in Split(s)[i]
    decreases |s|
  {
    if s != [] {
      hide Split, Join;
      SplitJoin(s[1..]);
      SplitFirst(s);
      JoinFirst(Split(s), Split(s[1..]), s[0]);
      assert s == [s[0]] + s[1..];
    }
  }

  lemma JoinFirst(levels: seq<Text>, rest: seq<Text>, c: byte)
    requires rest != []
    requires levels == if c == 0x2F then [[]] + rest else [[c] + rest[0]] + rest[1..]
    ensures levels != [] && Join(levels) == [c] + Join(rest)
  {
    if c == 0x2F {
      assert levels[1..] == rest;
    } else if |rest| == 1 {
      assert levels == [[c] + rest[0]];
    } else {
      assert levels[1..] == rest[1..];
      assert ([c] + rest[0]) + [0x2F] + Join(rest[1..]) == [c] + (rest[0] + [0x2F] + Join(rest[1..]));
    }
  }

  /** A piece of text between slashes. */
  predicate Level(x: Text) { 0x2F !in x }

  /** A piece without a wildcard. */
  predicate Plain(x: Text) { 0x2F !in x && 0x2B !in x && 0x23 !in x }

  lemma OneOf(x: Text)
    requires Level(x)
    ensures Split(x) == [x]
  {
    assert forall i :: 0 <= i < |x| ==> x[i] in x;
    assert NextSeparator(x) == |x|;
    SplitWithoutSeparator(x);
  }

  lemma FirstOf(x: Text, rest: Text)
    requires Level(x)
    ensures Split(x + [0x2F] + rest) == [x] + Split(rest)
  {
    var t := x + [0x2F] + rest;
    var k := NextSeparator(t);
    assert t[|x|] == SEPARATOR;
    assert forall i :: 0 <= i < |x| ==> t[i] == x[i] && x[i] in x;
    assert k >= |x|;
    assert forall i :: 0 <= i < k ==> t[..k][i] == t[i] && t[i] != SEPARATOR;
    assert t[..k] == x && t[k + 1..] == rest;
    SplitAtSeparator(t);
  }

  lemma LevelsOf(a: Text, x: Text, y: Text)
    requires Level(a) && Level(x) && Level(y)
    ensures Split(a) == [a] && Split(a + [0x2F] + x) == [a, x]
    ensures Split(a + [0x2F] + x + [0x2F] + y) == [a, x, y]
  {
    OneOf(a);
    OneOf(x);
    OneOf(y);
    FirstOf(a, x);
    FirstOf(x, y);
    FirstOf(a, x + [0x2F] + y);
    assert a + [0x2F] + x + [0x2F] + y == a + [0x2F] + (x + [0x2F] + y);
    hide Split;
    assert [a] + ([x] + [y]) == [a, x, y] && [a] + [x] == [a, x];
  }

  lemma WildcardLevels(a: Text)
    requires Plain(a)
    ensures Split(a + [0x2F, 0x2B]) == [a, [0x2B]] && WellFormed([a, [0x2B]])
    ensures Split(a + [0x2F, 0x23]) == [a, [0x23]] && WellFormed([a, [0x23]])
  {
    LevelsOf(a, [0x2B], []);
    LevelsOf(a, [0x23], []);
    assert a + [0x2F] + [0x2B] == a + [0x2F, 0x2B] && a + [0x2F] + [0x23] == a + [0x2F, 0x23];
  }

  /** The documented relation, with the characters written out: + is one level, a last # one or more. */
  lemma MatchesIs(ps: seq<Text>, ts: seq<Text>)
    requires ps != [] && ts != []
    ensures Matches(ps, ts) <==>
              var n := |ps|;
              if ps[n - 1] == [0x23]
              then |ts| >= n && forall i :: 0 <= i < n - 1 ==> ps[i] == [0x2B] || ps[i] == ts[i]
              else |ts| == n && forall i :: 0 <= i < n ==> ps[i] == [0x2B] || ps[i] == ts[i]
  {}

  /** In Go, a/+ is a and one more level, and a/# is a and one or more. */
  lemma GoWildcards(a: Text, x: Text, y: Text)
    requires Plain(a) && Level(x) && Level(y)
    ensures var plus, hash := Split(a + [0x2F, 0x2B]), Split(a + [0x2F, 0x23]);
            var one, two, three := Split(a), Split(a + [0x2F] + x), Split(a + [0x2F] + x + [0x2F] + y);
            && !GoAnswer(plus, one) && GoAnswer(plus, two) && !GoAnswer(plus, three)
            && !GoAnswer(hash, one) && GoAnswer(hash, two) && GoAnswer(hash, three)
  {
    LevelsOf(a, x, y);
    WildcardLevels(a);
    WildcardAnswers(a, x, y);
    hide Split, GoAnswer;
    GoMatches([a, [0x2B]], [a]);
    GoMatches([a, [0x2B]], [a, x]);
    GoMatches([a, [0x2B]], [a, x, y]);
    GoMatches([a, [0x23]], [a]);
    GoMatches([a, [0x23]], [a, x]);
    GoMatches([a, [0x23]], [a, x, y]);
  }

  lemma WildcardAnswers(a: Text, x: Text, y: Text)
    ensures !Matches([a, [0x2B]], [a]) && Matches([a, [0x2B]], [a, x]) && !Matches([a, [0x2B]], [a, x, y])
    ensures !Matches([a, [0x23]], [a]) && Matches([a, [0x23]], [a, x]) && Matches([a, [0x23]], [a, x, y])
  {
    MatchesIs([a, [0x2B]], [a]);
    MatchesIs([a, [0x2B]], [a, x]);
    MatchesIs([a, [0x2B]], [a, x, y]);
    MatchesIs([a, [0x23]], [a]);
    MatchesIs([a, [0x23]], [a, x]);
    MatchesIs([a, [0x23]], [a, x, y]);
    hide Matches;
    assert [0x2B] != [0x23] by { assert [0x2B as byte][0] != [0x23][0]; }
  }

  /** In C the same, except that an empty last level of the topic does not count for +. */
  lemma CWildcards(a: Text, x: Text, y: Text)
    requires Plain(a) && Level(x) && Level(y)
    ensures var plus, hash := a + [0x2F, 0x2B], a + [0x2F, 0x23];
            var one, two, three := a, a + [0x2F] + x, a + [0x2F] + x + [0x2F] + y;
            && !Walk(plus, one) && (Walk(plus, two) <==> x != []) && (Walk(plus, three) <==> y == [])
            && !Walk(hash, one) && Walk(hash, two) && Walk(hash, three)
  {
    LevelsOf(a, x, y);
    WildcardLevels(a);
    WildcardAnswers(a, x, y);
    hide Split, Walk;
    var plus, hash := a + [0x2F, 0x2B], a + [0x2F, 0x23];
    WalkMatches(plus, a);
    WalkMatches(plus, a + [0x2F] + x);
    WalkMatches(plus, a + [0x2F] + x + [0x2F] + y);
    WalkMatches(hash, a);
    WalkMatches(hash, a + [0x2F] + x);
    WalkMatches(hash, a + [0x2F] + x + [0x2F] + y);
    hide WellFormed, Matches;
    PlusAnswers(a, x, y);
    assert [0x2B] != [0x23] by { assert [0x2B as byte][0] != [0x23][0]; }
  }

  lemma PlusAnswers(a: Text, x: Text, y: Text)
    ensures !CMatches([a, [0x2B]], [a])
    ensures CMatches([a, [0x2B]], [a, x]) <==> x != []
    ensures CMatches([a, [0x2B]], [a, x, y]) <==> y == []
  {}
}
