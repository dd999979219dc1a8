/**
 The two Go encoders, which fill one buffer in place: Message.Encode and writeMessage.
 */
module Encoder {
  import opened Bytes
  import opened Crc32
  import opened CrcDetection
  import opened CrcTable
  import opened Codec

  /** copy(buf[offset:], bytes), and the store of PutUint32 when given four bytes. */
  method Put(buf: array<byte>, offset: nat, bytes: seq<byte>)
    requires offset + |bytes| <= buf.Length
    modifies buf
    ensures buf[..offset + |bytes|] == old(buf[..offset]) + bytes
    ensures buf[offset + |bytes|..] == old(buf[offset + |bytes|..])
  {
    forall i | 0 <= i < |bytes| {
      buf[offset + i] := bytes[i];
    }
  }

  /** Message.Encode: refuses exactly the empty topic, and otherwise returns the frame. */
  method Encode(table: seq<bv32>, m: Message) returns (r: Outcome<seq<byte>>)
    requires IsTable(table)
    requires Fits(m)
    ensures r == if m.topic == [] then InvalidMessage else Ok(Frame(m))
  {
    hide IsTable, Checksum, WordBytes, LengthBytes;
    if m.topic == [] {
      return InvalidMessage;
    }
    var topicLen, payloadLen := |m.topic|, |m.payload|;
    var buf := new byte[8 + topicLen + payloadLen + 4];
    var offset := 0;
    Put(buf, offset, LengthBytes(topicLen));
    offset := offset + 4;
    Put(buf, offset, LengthBytes(payloadLen));
    offset := offset + 4;
    Put(buf, offset, m.topic);
    offset := offset + topicLen;
    Put(buf, offset, m.payload);
    offset := offset + payloadLen;
    assert buf[..offset] == Body(m);
    var crc := CalculateGo(table, buf[..offset]);
    Put(buf, offset, WordBytes(crc));
    assert buf[..offset + 4] == buf[..];
    r := Ok(buf[..]);
  }

  /** writeMessage: the bytes handed to the writer are the frame, for an empty topic too. */
  method WriteMessage(table: seq<bv32>, m: Message) returns (written: seq<byte>)
    requires IsTable(table)
    requires Fits(m)
    ensures written == Frame(m)
  {
    hide IsTable, Checksum, WordBytes, LengthBytes;
    var topicLen, payloadLen := |m.topic|, |m.payload|;
    var totalSize := 8 + topicLen + payloadLen + 4;
    var msgData := new byte[totalSize];
    Put(msgData, 0, LengthBytes(topicLen));
    Put(msgData, 4, LengthBytes(payloadLen));
    Put(msgData, 8, m.topic);
    Put(msgData, 8 + topicLen, m.payload);
    assert msgData[..totalSize - 4] == Body(m);
    var crc := CalculateGo(table, msgData[..totalSize - 4]);
    Put(msgData, totalSize - 4, WordBytes(crc));
    assert msgData[..totalSize] == msgData[..];
    written := msgData[..];
  }
}
