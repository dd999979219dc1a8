/**
 The two table-driven implementations, Go and C. Both fill the same table and both compute
 the bit-by-bit checksum.
 */
module CrcTable {
  import opened Bytes
  import opened Crc32

  ghost predicate IsTable(t: seq<bv32>) {
    |t| == 256 && forall i :: 0 <= i < 256 ==> t[i] == EntryAt(i)
  }

  function EntryAt(i: nat): bv32
    requires i < 256
  {
    TableEntry(ToBits(i as byte))
  }

  lemma ShiftCases(c: bv32)
    ensures Shift(c) == if Odd(c) then Xor(Half(c), POLYNOMIAL) else Half(c)
  {
    hide Odd, Half, Xor;
    XorSelf(Half(c));
  }

  /** Go init() and C qdp_crc32_init: fill the table in place, eight conditional shifts an entry. */
  method Init(table: array<bv32>)
    requires table.Length == 256
    modifies table
    ensures IsTable(table[..])
  {
    hide Shift, Odd, Half, Xor, ToBits;
    for i := 0 to 256
      invariant forall k :: 0 <= k < i ==> table[k] == EntryAt(k)
    {
      var crc := ToBits(i as byte) as bv32;
      for j := 0 to 8
        modifies {}
        invariant Shifts(crc, 8 - j) == EntryAt(i)
      {
        ShiftCases(crc);
        crc := if Odd(crc) then Xor(Half(crc), POLYNOMIAL) else Half(crc);
      }
      assert Shifts(crc, 0) == crc;
      table[i] := crc;
    }
  }

  /** The Go index: the low byte of the register, xored with the data byte as bytes. */
  function IndexGo(crc: bv32, b: byte): byte {
    FromBits(TableIndex(crc, ToBits(b)))
  }

  /** The C index: the data byte widened and xored into the register, then masked. */
  function IndexC(crc: bv32, b: byte): byte {
    FromBits((Xor(crc, ToBits(b) as bv32) & 0xFF) as bv8)
  }

  lemma MaskXor(c: bv32, x: bv8)
    ensures ((c ^ (x as bv32)) & 0xFF) as bv8 == ((c & 0xFF) as bv8) ^ x
  {}

  lemma SameIndex(crc: bv32, b: byte)
    ensures IndexC(crc, b) == IndexGo(crc, b)
  {
    MaskXor(crc, ToBits(b));
    hide ToBits, FromBits;
    assert Xor(crc, ToBits(b) as bv32) == crc ^ (ToBits(b) as bv32);
  }

  lemma Lookup(t: seq<bv32>, index: bv8)
    requires IsTable(t)
    ensures t[FromBits(index)] == TableEntry(index)
  {
    hide Shifts;
    FromBitsToBits(index);
  }

  lemma BitsOfLast(data: seq<byte>, b: byte)
    ensures BitsOf(data + [b]) == BitsOf(data) + BitsOfByte(b)
  {
    hide BitsOfByte;
    BitsOfConcat(data, [b]);
    assert [b][1..] == [];
    assert BitsOf([b]) == BitsOfByte(b);
  }

  lemma Advance(c: bv32, data: seq<byte>, b: byte)
    ensures Divide(Divide(c, BitsOf(data)), BitsOfByte(b)) == Divide(c, BitsOf(data + [b]))
  {
    hide Divide, BitsOf, BitsOfByte;
    BitsOfLast(data, b);
    DivideConcat(c, BitsOf(data), BitsOfByte(b));
  }

  lemma LookupStep(t: seq<bv32>, crc: bv32, b: byte)
    requires IsTable(t)
    ensures Xor(Drop8(crc), t[IndexGo(crc, b)]) == Divide(crc, BitsOfByte(b))
  {
    hide Divide, BitsOfByte, Shifts, Xor, ToBits, Drop8, TableIndex, FromBits;
    Lookup(t, TableIndex(crc, ToBits(b)));
    TableStep(crc, b);
  }

  /** Go calculateCRC32: the table-driven loop computes the bit-by-bit checksum. */
  method CalculateGo(table: seq<bv32>, data: seq<byte>) returns (crc: bv32)
    requires IsTable(table)
    ensures crc == Checksum(data)
  {
    hide Xor, IndexGo, BitsOf, BitsOfByte;
    assert data[..0] == [];
    crc := ALL_ONES;
    for i := 0 to |data|
      invariant crc == Divide(ALL_ONES, BitsOf(data[..i]))
    {
      LookupStep(table, crc, data[i]);
      Advance(ALL_ONES, data[..i], data[i]);
      assert data[..i] + [data[i]] == data[..i + 1];
      crc := Xor(Drop8(crc), table[IndexGo(crc, data[i])]);
    }
    assert data[..|data|] == data;
    crc := Xor(crc, ALL_ONES);
  }

  /** C qdp_calc_crc32: the same result, although the index is formed in 32 bits. */
  method CalculateC(table: seq<bv32>, data: seq<byte>) returns (crc: bv32)
    requires IsTable(table)
    ensures crc == Checksum(data)
  {
    hide Xor, IndexGo, IndexC, BitsOf, BitsOfByte;
    assert data[..0] == [];
    crc := ALL_ONES;
    for i := 0 to |data|
      invariant crc == Divide(ALL_ONES, BitsOf(data[..i]))
    {
      SameIndex(crc, data[i]);
      LookupStep(table, crc, data[i]);
      Advance(ALL_ONES, data[..i], data[i]);
      assert data[..i] + [data[i]] == data[..i + 1];
      crc := Xor(Drop8(crc), table[IndexC(crc, data[i])]);
    }
    assert data[..|data|] == data;
    crc := Xor(crc, ALL_ONES);
  }
}
