/**
 The io.Reader under a MessageReader: what it will still answer, call by call. A connection
 that has more than the caller's slice holds keeps the rest for the next call; after the last
 event every call reports end of file.
 */
module IoReader {
  import opened Bytes

  datatype Option<T> = None | Some(value: T)

  const EOF: nat := 0

  /** Data([]) is a call that returns neither bytes nor an error. */
  datatype Event = Data(bytes: seq<byte>) | Error(code: nat)

  datatype Reply = Reply(bytes: seq<byte>, error: Option<nat>, rest: seq<Event>)

  /** Read(p) with len(p) == space. An empty slice is answered without touching the source. */
  function Read(script: seq<Event>, space: nat): (r: Reply)
    ensures |r.bytes| <= space
    ensures r.error.Some? ==> r.bytes == []
    ensures Pending(script) == r.bytes + Pending(r.rest)
    ensures space == 0 ==> r == Reply([], None, script)
    ensures Weight(r.rest) <= Weight(script)
    ensures r.error.Some? ==> r.rest == [] || Weight(r.rest) < Weight(script)
    ensures HasError(r.rest) ==> HasError(script)
    ensures r.error.Some? ==> r.rest == [] || HasError(script)
    ensures r.error.Some? ==> r.error.value == EOF || HasError(script)
    ensures space > 0 && r.error.None? ==> Weight(r.rest) < Weight(script)
  {
    if space == 0 then Reply([], None, script)
    else if script == [] then Reply([], Some(EOF), [])
    else match script[0]
      case Error(code) => Reply([], Some(code), script[1..])
      case Data(bytes) =>
        if |bytes| <= space then Reply(bytes, None, script[1..])
        else
          var rest := [Data(bytes[space..])] + script[1..];
          assert rest[1..] == script[1..];
          assert bytes == bytes[..space] + bytes[space..];
          Reply(bytes[..space], None, rest)
  }

  ghost predicate HasError(script: seq<Event>) {
    exists i :: 0 <= i < |script| && script[i].Error?
  }

  /** All bytes the source will still deliver. */
  function Pending(script: seq<Event>): seq<byte> {
    if script == [] then []
    else (if script[0].Data? then script[0].bytes else []) + Pending(script[1..])
  }

  lemma EmptyPending()
    ensures Pending([]) == []
  {}

  function Weight(script: seq<Event>): nat {
    if script == [] then 0
    else 1 + (if script[0].Data? then |script[0].bytes| else 0) + Weight(script[1..])
  }

  /** What is left of the source after some calls. */
  ghost predicate Onward(before: seq<Event>, after: seq<Event>) {
    Weight(after) <= Weight(before) && (HasError(after) ==> HasError(before))
  }

  /** What is left when a call has reported an error: the end, or what comes after the error. */
  ghost predicate Interrupted(before: seq<Event>, after: seq<Event>) {
    after == [] || (Weight(after) < Weight(before) && HasError(before))
  }

  lemma OnwardTrans(a: seq<Event>, b: seq<Event>, c: seq<Event>)
    requires Onward(a, b)
    ensures Onward(b, c) ==> Onward(a, c)
    ensures Interrupted(b, c) ==> Interrupted(a, c)
  {
    hide Weight, HasError;
  }

  lemma {:induction false} PendingConcat(a: seq<Event>, b: seq<Event>)
    ensures Pending(a + b) == Pending(a) + Pending(b)
    decreases |a|
  {
    if a == [] {
      assert a + b == b;
    } else {
      assert (a + b)[1..] == a[1..] + b;
      PendingConcat(a[1..], b);
    }
  }

  /** a is what is left of b after some whole events. */
  ghost predicate Suffix(a: seq<Event>, b: seq<Event>) {
    |a| <= |b| && a == b[|b| - |a|..]
  }

  lemma SuffixTrans(a: seq<Event>, b: seq<Event>, c: seq<Event>)
    requires Suffix(a, b) && Suffix(b, c)
    ensures Suffix(a, c)
  {}

  /** With room for everything still to come, a call consumes one whole event. */
  lemma ReadWhole(script: seq<Event>, space: nat)
    requires |Pending(script)| < space
    ensures Read(script, space).rest == if script == [] then [] else script[1..]
  {}

  lemma ReadHead(script: seq<Event>, space: nat)
    requires script != [] && script[0].Data? && |script[0].bytes| <= space && space > 0
    ensures Read(script, space) == Reply(script[0].bytes, None, script[1..])
  {}

  lemma ReadPastEnd(space: nat)
    ensures space > 0 ==> Read([], space) == Reply([], Some(EOF), [])
  {}

  /** Every read that delivers at all delivers at least a header's worth. */
  predicate Chunky(script: seq<Event>) {
    forall i :: 0 <= i < |script| && script[i].Data? ==> |script[i].bytes| >= 8
  }

  lemma ChunkySuffix(a: seq<Event>, b: seq<Event>)
    requires Suffix(a, b) && Chunky(b)
    ensures Chunky(a)
  {
    forall i | 0 <= i < |a| && a[i].Data? ensures |a[i].bytes| >= 8 {
      assert a[i] == b[|b| - |a| + i];
    }
  }
}
