/**
 Where a MessageReader's bytes come from: a connection, or the endpointReader of
 lib/go/transport_ftdi.go, which takes the two status bytes off every USB packet.
 */
module Endpoint {
  import opened Bytes
  import opened IoReader

  const STATUS_SIZE: nat := 2
  const MAX_PACKET: nat := 64
  const MAX_DATA: nat := 62

  /** What ReadContext answers: a packet, an error that is passed on, or a USB error, reported as end of file. */
  datatype UsbEvent = Packet(bytes: seq<byte>) | Cancelled(code: nat) | UsbError

  ghost predicate PacketsFit(packets: seq<UsbEvent>) {
    forall i :: 0 <= i < |packets| && packets[i].Packet? ==> |packets[i].bytes| <= 64
  }

  function Strip(e: UsbEvent): Event {
    match e
    case Packet(bytes) => Data(if |bytes| > STATUS_SIZE then bytes[STATUS_SIZE..] else [])
    case Cancelled(code) => Error(code)
    case UsbError => Error(EOF)
  }

  function StripAll(packets: seq<UsbEvent>): (script: seq<Event>)
    ensures |script| == |packets|
  {
    seq(|packets|, i requires 0 <= i < |packets| => Strip(packets[i]))
  }

  class EndpointReader {
    const store: array<byte>  // the memory that make hands out for buf
    var buf: array?<byte>
    var pos: nat
    var size: nat
    var packets: seq<UsbEvent>  // the endpoint: what it will still answer

    ghost predicate Valid()
      reads this, store
    {
      && PacketsFit(packets) && store.Length == MAX_PACKET
      && (buf == null ==> pos == size == 0)
      && (buf != null ==> buf == store && pos <= size <= MAX_DATA)
    }

    /** The stripped byte source this reader stands for. */
    ghost function Script(): seq<Event>
      requires Valid()
      reads this, store
    {
      (if pos < size then [Data(buf[STATUS_SIZE + pos..STATUS_SIZE + size])] else []) + StripAll(packets)
    }

    constructor (packets: seq<UsbEvent>)
      requires PacketsFit(packets)
      ensures Valid() && fresh(store) && store.Length == 64 && Script() == StripAll(packets)
    {
      store := new byte[MAX_PACKET];
      buf, pos, size := null, 0, 0;
      this.packets := packets;
    }

    /** Lines 453-460: keep the data of a packet that was read into the buffer. */
    method Store(data: seq<byte>)
      requires Valid() && pos >= size && buf != null && |data| <= MAX_PACKET
      modifies this`pos, this`size, store
      ensures Valid() && pos == 0
      ensures size == if |data| > STATUS_SIZE then |data| - STATUS_SIZE else 0
      ensures Script() == (if |data| > STATUS_SIZE then [Data(data[STATUS_SIZE..])] else []) + StripAll(packets)
    {
      forall i | 0 <= i < |data| {
        buf[i] := data[i];
      }
      assert buf[..|data|] == data;
      pos := 0;
      if |data| > STATUS_SIZE {
        size := |data| - STATUS_SIZE;
        assert buf[STATUS_SIZE + pos..STATUS_SIZE + size] == data[STATUS_SIZE..];
      } else {
        size := 0;
      }
    }

    /** Lines 436-461: fetch a packet. Without data to copy, the call ends here. */
    method Refill() returns (stop: bool, err: Option<nat>)
      requires Valid() && pos >= size
      modifies this, store
      ensures Valid()
      ensures if stop then IoReader.Read(old(Script()), 1) == Reply([], err, Script())
              else pos < size && Script() == old(Script())
      ensures old(packets) == [] ==> stop && err == Some(EOF) && packets == []
      ensures old(packets) != [] ==>
                && packets == old(packets)[1..]
                && match old(packets)[0]
                   case Cancelled(code) => stop && err == Some(code)
                   case UsbError => stop && err == Some(EOF)
                   case Packet(data) =>
                     && stop == (|data| <= 2) && err == None
                     && (!stop ==> Script() == [Data(data[2..])] + StripAll(packets))
    {
      hide Weight, Pending, HasError, IoReader.Read, StripAll;
      ghost var script := StripAll(packets);
      assert Script() == script;
      StripFirst(packets);
      if buf == null {
        buf := store;
      }
      if packets == [] {
        return true, Some(EOF);
      }
      var answer := packets[0];
      packets := packets[1..];
      assert Script() == StripAll(packets);
      match answer {
        case Cancelled(code) =>
          return true, Some(code);
        case UsbError =>
          return true, Some(EOF);
        case Packet(data) =>
          Store(data);
          return size == 0, None;
      }
    }

    /** Lines 464-466: hand over what fits of the buffered data. */
    method CopyOut(space: nat) returns (bytes: seq<byte>)
      requires Valid() && pos < size && space > 0
      modifies this
      ensures Valid()
      ensures IoReader.Read(old(Script()), space) == Reply(bytes, None, Script())
    {
      hide Weight, Pending, HasError;
      ghost var pending, script := buf[STATUS_SIZE + pos..STATUS_SIZE + size], Script();
      assert script[0] == Data(pending) && script[1..] == StripAll(packets);
      var n := if size - pos <= space then size - pos else space;
      bytes := buf[STATUS_SIZE + pos..STATUS_SIZE + pos + n];
      assert bytes == pending[..n];
      pos := pos + n;
      assert pos < size ==> buf[STATUS_SIZE + pos..STATUS_SIZE + size] == pending[n..];
    }

    /** endpointReader.Read: every call answers as the stripped source would, and becomes it. */
    method Read(space: nat) returns (bytes: seq<byte>, err: Option<nat>)
      requires Valid()
      modifies this, store
      ensures Valid()
      ensures IoReader.Read(old(Script()), space) == Reply(bytes, err, Script())
    {
      if space == 0 {
        return [], None;
      }
      hide Valid, Script;
      ghost var script := Script();
      if pos >= size {
        var stop;
        stop, err := Refill();
        if stop {
          EmptyReads(script, space);
          return [], err;
        }
      }
      hide IoReader.Read;
      bytes := CopyOut(space);
      err := None;
    }
  }

  /** A call at the end, or one that takes an answer without data, does not hand over any bytes. */
  lemma StripFirst(packets: seq<UsbEvent>)
    ensures var script := StripAll(packets);
            if packets == [] then IoReader.Read(script, 1) == Reply([], Some(EOF), script)
            else
              var rest := StripAll(packets[1..]);
              match packets[0]
              case Cancelled(code) => IoReader.Read(script, 1) == Reply([], Some(code), rest)
              case UsbError => IoReader.Read(script, 1) == Reply([], Some(EOF), rest)
              case Packet(data) =>
                if |data| > 2 then script == [Data(data[2..])] + rest
                else IoReader.Read(script, 1) == Reply([], None, [] + rest)
  {
    hide Weight, Pending, HasError;
    if packets != [] {
      assert StripAll(packets)[0] == Strip(packets[0]) && StripAll(packets)[1..] == StripAll(packets[1..]);
    }
  }

  lemma EmptyReads(script: seq<Event>, space: nat)
    requires space > 0 && IoReader.Read(script, 1).bytes == []
    ensures IoReader.Read(script, space) == IoReader.Read(script, 1)
  {
    hide Weight, Pending, HasError;
  }

  /** The io.Reader a MessageReader is given: a connection, or an endpointReader. */
  class Source {
    const endpoint: EndpointReader?
    var events: seq<Event>  // the connection: what it will still answer
    ghost const repr: set<object>

    ghost predicate Valid()
      reads this, repr
      ensures Valid() ==> this in repr
    {
      && this in repr
      && (endpoint != null ==> endpoint in repr && endpoint.store in repr && endpoint.Valid())
    }

    /** What this source will still answer. */
    ghost function Script(): seq<Event>
      requires Valid()
      reads this, repr
    {
      if endpoint == null then events else endpoint.Script()
    }

    constructor Connection(events: seq<Event>)
      ensures Valid() && fresh(repr) && Script() == events
    {
      endpoint, this.events := null, events;
      repr := {this};
    }

    constructor Endpoint(endpoint: EndpointReader)
      requires endpoint.Valid()
      ensures Valid() && fresh(repr - {endpoint, endpoint.store}) && Script() == endpoint.Script()
    {
      this.endpoint, events := endpoint, [];
      repr := {this, endpoint, endpoint.store};
    }

    method Read(space: nat) returns (bytes: seq<byte>, err: Option<nat>)
      requires Valid()
      modifies repr
      ensures Valid() && IoReader.Read(old(Script()), space) == Reply(bytes, err, Script())
    {
      if endpoint == null {
        var reply := IoReader.Read(events, space);
        events := reply.rest;
        return reply.bytes, reply.error;
      } else {
        bytes, err := endpoint.Read(space);
      }
    }

    /** Nothing is left to be answered but the end of file. */
    method AtEnd() returns (end: bool)
      requires Valid()
      ensures end <==> Script() == []
    {
      if endpoint == null {
        return events == [];
      }
      return endpoint.pos >= endpoint.size && endpoint.packets == [];
    }
  }
}
