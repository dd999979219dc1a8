/**
 What the checksum is for: a message followed by its checksum always leaves the same residue,
 and no change confined to 32 consecutive bits keeps the register.
 */
module CrcDetection {
  import opened Bytes
  import opened Crc32

  // ---------- Little-endian words of bits ----------

  /** The four bytes PutUint32 writes for a word. */
  function WordBytes(v: bv32): (s: seq<byte>)
    ensures |s| == 4
  {
    [FromBits(Byte0(v)), FromBits(Byte1(v)), FromBits(Byte2(v)), FromBits(Byte3(v))]
  }

  function Byte0(v: bv32): bv8 { (v & 0xFF) as bv8 }
  function Byte1(v: bv32): bv8 { ((v >> 8) & 0xFF) as bv8 }
  function Byte2(v: bv32): bv8 { ((v >> 16) & 0xFF) as bv8 }
  function Byte3(v: bv32): bv8 { ((v >> 24) & 0xFF) as bv8 }

  /** The word Uint32 reads from the first four bytes. */
  function ReadWord(s: seq<byte>): bv32
    requires |s| >= 4
  {
    Join(ToBits(s[0]), ToBits(s[1]), ToBits(s[2]), ToBits(s[3]))
  }

  function Join(a: bv8, b: bv8, c: bv8, d: bv8): bv32 {
    (a as bv32) | ((b as bv32) << 8) | ((c as bv32) << 16) | ((d as bv32) << 24)
  }

  lemma JoinParts(a: bv8, b: bv8, c: bv8, d: bv8)
    ensures Byte0(Join(a, b, c, d)) == a
    ensures Byte1(Join(a, b, c, d)) == b
    ensures Byte2(Join(a, b, c, d)) == c
    ensures Byte3(Join(a, b, c, d)) == d
  {}

  lemma JoinBytes(v: bv32)
    ensures Join(Byte0(v), Byte1(v), Byte2(v), Byte3(v)) == v
  {}

  lemma ReadWordBytes(v: bv32)
    ensures ReadWord(WordBytes(v)) == v
  {
    hide Join, Byte0, Byte1, Byte2, Byte3, ToBits, FromBits;
    FromBitsToBits(Byte0(v));
    FromBitsToBits(Byte1(v));
    FromBitsToBits(Byte2(v));
    FromBitsToBits(Byte3(v));
    JoinBytes(v);
  }

  lemma WordBytesRead(s: seq<byte>)
    requires |s| == 4
    ensures WordBytes(ReadWord(s)) == s
  {
    hide Join, Byte0, Byte1, Byte2, Byte3, ToBits, FromBits;
    JoinParts(ToBits(s[0]), ToBits(s[1]), ToBits(s[2]), ToBits(s[3]));
    ToBitsFromBits(s[0]);
    ToBitsFromBits(s[1]);
    ToBitsFromBits(s[2]);
    ToBitsFromBits(s[3]);
  }

  // ---------- The residue ----------

  lemma {:induction false} LowBitsSplit(w: bv32, m: nat, n: nat)
    ensures LowBits(w, m + n) == LowBits(w, m) + LowBits(ShiftRight(w, m), n)
    decreases m
  {
    hide Odd;
    if m > 0 {
      LowBitsSplit(w >> 1, m - 1, n);
    }
  }

  lemma {:induction false} ShiftRightSplit(w: bv32, m: nat, n: nat)
    ensures ShiftRight(w, m + n) == ShiftRight(ShiftRight(w, m), n)
    decreases m
  {
    if m > 0 {
      ShiftRightSplit(w >> 1, m - 1, n);
    }
  }

  lemma LowByteBits(v: bv32, x: bv8)
    requires x as bv32 == v & 0xFF
    ensures LowBits(v, 8) == LowBits(x as bv32, 8)
  {}

  lemma LowBitsOfByte(v: bv32, x: bv8)
    requires x as bv32 == v & 0xFF
    ensures LowBits(v, 8) == BitsOfByte(FromBits(x))
  {
    hide LowBits, ToBits, FromBits;
    FromBitsToBits(x);
    LowByteBits(v, x);
  }

  lemma DropAll(v: bv32)
    ensures Drop8(Drop8(Drop8(Drop8(v)))) == 0
  {}

  lemma Parts(v: bv32)
    ensures Byte0(v) as bv32 == v & 0xFF
    ensures Byte1(v) as bv32 == Drop8(v) & 0xFF
    ensures Byte2(v) as bv32 == Drop8(Drop8(v)) & 0xFF
    ensures Byte3(v) as bv32 == Drop8(Drop8(Drop8(v))) & 0xFF
  {}

  lemma WordShifts(v: bv32)
    ensures ShiftRight(v, 32) == 0
  {
    hide ShiftRight;
    DropAll(v);
    hide Drop8;
    ShiftRightSplit(v, 8, 24);
    ShiftRightSplit(Drop8(v), 8, 16);
    ShiftRightSplit(Drop8(Drop8(v)), 8, 8);
    ShiftRightByte(v);
    ShiftRightByte(Drop8(v));
    ShiftRightByte(Drop8(Drop8(v)));
    ShiftRightByte(Drop8(Drop8(Drop8(v))));
  }

  lemma LowBitsWord(v: bv32)
    ensures LowBits(v, 32) == LowBits(v, 8) + LowBits(Drop8(v), 8) + LowBits(Drop8(Drop8(v)), 8)
                              + LowBits(Drop8(Drop8(Drop8(v))), 8)
  {
    hide ShiftRight, LowBits, Drop8;
    LowBitsSplit(v, 8, 24);
    LowBitsSplit(Drop8(v), 8, 16);
    LowBitsSplit(Drop8(Drop8(v)), 8, 8);
    ShiftRightByte(v);
    ShiftRightByte(Drop8(v));
    ShiftRightByte(Drop8(Drop8(v)));
  }

  lemma BitsOfFour(a: byte, b: byte, c: byte, d: byte)
    ensures BitsOf([a, b, c, d]) == BitsOfByte(a) + BitsOfByte(b) + BitsOfByte(c) + BitsOfByte(d)
  {
    hide BitsOfByte;
    assert [a, b, c, d][1..] == [b, c, d];
    assert [b, c, d][1..] == [c, d];
    assert [c, d][1..] == [d];
    assert [d][1..] == [];
    assert BitsOf([d]) == BitsOfByte(d);
    assert BitsOf([c, d]) == BitsOfByte(c) + BitsOfByte(d);
    assert BitsOf([b, c, d]) == BitsOfByte(b) + BitsOf([c, d]);
  }

  /** The 32 bits of a word are the bits of its four bytes. */
  lemma BitsOfWord(v: bv32)
    ensures BitsOf(WordBytes(v)) == LowBits(v, 32)
  {
    Parts(v);
    hide BitsOfByte, LowBits, BitsOf, FromBits, Drop8, Byte0, Byte1, Byte2, Byte3;
    LowBitsOfByte(v, Byte0(v));
    LowBitsOfByte(Drop8(v), Byte1(v));
    LowBitsOfByte(Drop8(Drop8(v)), Byte2(v));
    LowBitsOfByte(Drop8(Drop8(Drop8(v))), Byte3(v));
    LowBitsWord(v);
    BitsOfFour(FromBits(Byte0(v)), FromBits(Byte1(v)), FromBits(Byte2(v)), FromBits(Byte3(v)));
  }

  lemma DivideWord(c: bv32, v: bv32)
    ensures Divide(c, BitsOf(WordBytes(v))) == Shifts(Xor(c, v), 32)
  {
    hide Divide, BitsOf, Shifts, LowBits, ShiftRight, Xor;
    BitsOfWord(v);
    ShiftsFeedBits(c, v, 32);
    WordShifts(v);
    XorSelf(Divide(c, LowBits(v, 32)));
  }

  lemma {:induction false} ShiftsInjective(a: bv32, b: bv32, n: nat)
    requires Shifts(a, n) == Shifts(b, n)
    ensures a == b
    decreases n
  {
    hide Shift;
    if n > 0 {
      ShiftsInjective(Shift(a), Shift(b), n - 1);
      ShiftInjective(a, b);
    }
  }

  lemma {:induction false} ShiftsSplitCount(c: bv32, m: nat, n: nat)
    ensures Shifts(c, m + n) == Shifts(Shifts(c, m), n)
    decreases m
  {
    hide Shift;
    if m > 0 {
      ShiftsSplitCount(Shift(c), m - 1, n);
    }
  }

  lemma ResidueByte0() ensures Shifts(0xFFFFFFFF, 8) == 0x2DFD1072 {}
  lemma ResidueByte1() ensures Shifts(0x2DFD1072, 8) == 0xBE26ED00 {}
  lemma ResidueByte2() ensures Shifts(0xBE26ED00, 8) == 0x00BE26ED {}
  lemma ResidueByte3() ensures Shifts(0x00BE26ED, 8) == 0xDEBB20E3 {}

  lemma ResidueRegister()
    ensures Shifts(ALL_ONES, 32) == 0xDEBB20E3
  {
    hide Shifts;
    ShiftsSplitCount(ALL_ONES, 8, 24);
    ShiftsSplitCount(0x2DFD1072, 8, 16);
    ShiftsSplitCount(0xBE26ED00, 8, 8);
    ResidueByte0();
    ResidueByte1();
    ResidueByte2();
    ResidueByte3();
  }

  /** A body followed by four bytes has the constant residue exactly when the bytes are its checksum. */
  lemma ResidueIff(body: seq<byte>, field: seq<byte>)
    requires |field| == 4
    ensures Checksum(body + field) == RESIDUE <==> ReadWord(field) == Checksum(body)
  {
    hide Divide, BitsOf, Shifts, Xor, ReadWord, WordBytes;
    var reg, v := Divide(ALL_ONES, BitsOf(body)), ReadWord(field);
    WordBytesRead(field);
    BitsOfConcat(body, field);
    DivideConcat(ALL_ONES, BitsOf(body), BitsOf(field));
    DivideWord(reg, v);
    assert Checksum(body + field) == Xor(Shifts(Xor(reg, v), 32), ALL_ONES);
    ResidueRegister();
    ComplementIff(Shifts(Xor(reg, v), 32), 0xDEBB20E3);
    assert Xor(0xDEBB20E3, ALL_ONES) == RESIDUE by { ResidueConstant(); }
    if Checksum(body + field) == RESIDUE {
      ShiftsInjective(Xor(reg, v), ALL_ONES, 32);
    }
    XorMoves(reg, v);
  }

  lemma ResidueConstant() ensures Xor(0xDEBB20E3, ALL_ONES) == RESIDUE {}

  lemma ComplementIff(a: bv32, b: bv32)
    ensures Xor(a, ALL_ONES) == Xor(b, ALL_ONES) <==> a == b
  {
    hide Xor;
    XorCancel(a, ALL_ONES);
    XorCancel(b, ALL_ONES);
  }

  lemma XorMoves(reg: bv32, v: bv32)
    ensures Xor(reg, v) == ALL_ONES <==> v == Xor(reg, ALL_ONES)
  {
    hide Xor;
    XorComm(reg, v);
    XorCancel(v, reg);
    XorComm(reg, ALL_ONES);
    XorCancel(ALL_ONES, reg);
  }

  // ---------- Bursts of up to 32 bits ----------

  predicate PowerOfTwo(t: bv32) { t != 0 && t & (t - 1) == 0 }

  /** The power of two t can be halved n times. */
  predicate Halves(t: bv32, n: nat)
    decreases n
  {
    n == 0 || (t >= 2 && Halves(t >> 1, n - 1))
  }

  lemma TopHalves()
    ensures Halves(0x80000000, 31)
  {
    assert Halves(0x80, 7);
    assert Halves(0x8000, 15);
    assert Halves(0x800000, 23);
  }

  lemma ShiftKeepsHigh(x: bv32, t: bv32)
    requires PowerOfTwo(t) && t >= 2 && x >= t
    ensures Shift(x) >= t >> 1 && PowerOfTwo(t >> 1)
  {}

  lemma FlipKeepsHigh(x: bv32, t: bv32)
    requires PowerOfTwo(t) && t >= 2 && x >= t
    ensures Xor(x, 1) >= t && Xor(x, 0) >= t
  {}

  /** A register at or above 2^n is not driven to zero by n bits, whatever they are. */
  lemma {:induction false} StaysNonzero(x: bv32, t: bv32, bits: seq<bool>)
    requires PowerOfTwo(t) && x >= t && Halves(t, |bits|)
    ensures Divide(x, bits) != 0
    decreases |bits|
  {
    if bits == [] {
      assert t >= 1;
    } else {
      FlipKeepsHigh(x, t);
      ShiftKeepsHigh(Xor(x, Word(bits[0])), t);
      hide Shift, Xor, PowerOfTwo;
      StaysNonzero(Feed(x, bits[0]), t >> 1, bits[1..]);
    }
  }

  lemma FeedFromZero(bit: bool)
    ensures if bit then Feed(0, bit) >= 0x80000000 else Feed(0, bit) == 0
  {}

  lemma {:induction false} HalvesFewer(t: bv32, m: nat, n: nat)
    requires m <= n && Halves(t, n)
    ensures Halves(t, m)
    decreases m
  {
    if m > 0 {
      HalvesFewer(t >> 1, m - 1, n - 1);
    }
  }

  lemma {:induction false} QuietKeepsZero(x: bv32, bits: seq<bool>)
    requires forall i :: 0 <= i < |bits| ==> !bits[i]
    ensures Divide(x, bits) == 0 <==> x == 0
    decreases |bits|
  {
    hide Feed;
    if bits != [] {
      FeedFromZero(false);
      if Feed(x, false) == 0 {
        FeedInjective(x, 0, false);
      }
      QuietKeepsZero(Feed(x, false), bits[1..]);
    }
  }

  /** The set bits of a difference all lie in one window of 32. */
  ghost predicate Burst(diff: seq<bool>, k: int) {
    forall i :: 0 <= i < |diff| && diff[i] ==> k <= i < k + 32
  }

  /** A difference with a set bit, all of them within 32 consecutive positions, leaves a trace. */
  lemma {:induction false} BurstShows(diff: seq<bool>, k: int)
    requires Burst(diff, k) && exists i :: 0 <= i < |diff| && diff[i]
    ensures Divide(0, diff) != 0
    decreases |diff|
  {
    hide Feed, Halves;
    FeedFromZero(diff[0]);
    var rest := diff[1..];
    if !diff[0] {
      forall i | 0 <= i < |rest| && rest[i] ensures k - 1 <= i < k - 1 + 32 {
        assert diff[i + 1];
      }
      var i :| 0 <= i < |diff| && diff[i];
      assert rest[i - 1];
      BurstShows(rest, k - 1);
    } else {
      var n := if |rest| <= 31 then |rest| else 31;
      var window, quiet := rest[..n], rest[n..];
      assert rest == window + quiet;
      forall i | 0 <= i < |quiet| ensures !quiet[i] {
        assert quiet[i] == diff[n + i + 1];
      }
      TopHalves();
      HalvesFewer(0x80000000, n, 31);
      StaysNonzero(Feed(0, true), 0x80000000, window);
      DivideConcat(Feed(0, true), window, quiet);
      QuietKeepsZero(Divide(Feed(0, true), window), quiet);
    }
  }

  /** Two different messages of equal length that differ only within 32 consecutive bits. */
  ghost predicate DifferInBurst(a: seq<byte>, b: seq<byte>) {
    |a| == |b| && a != b && exists k :: Burst(XorBits(BitsOf(a), BitsOf(b)), k)
  }

  lemma {:induction false} LowBitsInjective(a: bv32, b: bv32, n: nat)
    requires LowBits(a, n) == LowBits(b, n) && ShiftRight(a, n) == ShiftRight(b, n)
    ensures a == b
    decreases n
  {
    if n > 0 {
      assert LowBits(a, n)[1..] == LowBits(a >> 1, n - 1);
      assert LowBits(b, n)[1..] == LowBits(b >> 1, n - 1);
      assert LowBits(a, n)[0] == LowBits(b, n)[0];
      LowBitsInjective(a >> 1, b >> 1, n - 1);
    }
  }

  lemma ByteBitsInjective(a: byte, b: byte)
    requires BitsOfByte(a) == BitsOfByte(b)
    ensures a == b
  {
    hide LowBits, ShiftRight, ToBits;
    ByteFits(ToBits(a));
    ByteFits(ToBits(b));
    LowBitsInjective(ToBits(a) as bv32, ToBits(b) as bv32, 8);
    assert ToBits(a) == ToBits(b);
    ToBitsInjective(a, b);
  }

  lemma {:induction false} BitsOfInjective(a: seq<byte>, b: seq<byte>)
    requires |a| == |b| && BitsOf(a) == BitsOf(b)
    ensures a == b
    decreases |a|
  {
    hide BitsOfByte;
    if a != [] {
      assert BitsOfByte(a[0]) == BitsOf(a)[..8] == BitsOf(b)[..8] == BitsOfByte(b[0]);
      assert BitsOf(a[1..]) == BitsOf(a)[8..] == BitsOf(b)[8..] == BitsOf(b[1..]);
      ByteBitsInjective(a[0], b[0]);
      BitsOfInjective(a[1..], b[1..]);
      assert a == [a[0]] + a[1..] && b == [b[0]] + b[1..];
    }
  }

  /** No change within 32 consecutive bits keeps the checksum. */
  lemma BurstChangesChecksum(a: seq<byte>, b: seq<byte>)
    requires DifferInBurst(a, b)
    ensures Checksum(a) != Checksum(b)
  {
    hide Divide, BitsOf, Xor;
    var diff := XorBits(BitsOf(a), BitsOf(b));
    var k :| Burst(diff, k);
    if forall i :: 0 <= i < |diff| ==> !diff[i] {
      assert BitsOf(a) == BitsOf(b);
      BitsOfInjective(a, b);
      assert false;
    }
    BurstShows(diff, k);
    XorSelf(ALL_ONES);
    DivideLinear(ALL_ONES, ALL_ONES, BitsOf(a), BitsOf(b));
    XorSelf(Divide(ALL_ONES, BitsOf(a)));
    ComplementIff(Divide(ALL_ONES, BitsOf(a)), Divide(ALL_ONES, BitsOf(b)));
  }

  lemma {:induction false} BitsOfAt(data: seq<byte>, i: nat)
    requires i < |data|
    ensures BitsOf(data)[8 * i..8 * i + 8] == BitsOfByte(data[i])
  {
    hide BitsOfByte;
    if i > 0 {
      BitsOfAt(data[1..], i - 1);
      var rest := BitsOf(data[1..]);
      assert BitsOf(data)[8 * i..8 * i + 8] == rest[8 * (i - 1)..8 * (i - 1) + 8];
    }
  }

  /** In particular, messages that differ only within four consecutive bytes differ in a burst. */
  lemma FourBytesAreBurst(a: seq<byte>, b: seq<byte>, k: int)
    requires |a| == |b| && a != b
    requires forall i :: 0 <= i < |a| && !(k <= i < k + 4) ==> a[i] == b[i]
    ensures DifferInBurst(a, b)
  {
    hide BitsOf, BitsOfByte;
    var diff := XorBits(BitsOf(a), BitsOf(b));
    forall i | 0 <= i < |diff| && diff[i] ensures 8 * k <= i < 8 * k + 32 {
      var n := i / 8;
      BitsOfAt(a, n);
      BitsOfAt(b, n);
      assert BitsOf(a)[i] == BitsOf(a)[8 * n..8 * n + 8][i - 8 * n];
      assert BitsOf(b)[i] == BitsOf(b)[8 * n..8 * n + 8][i - 8 * n];
      assert a[n] != b[n];
    }
    assert Burst(diff, 8 * k);
  }
}
