/**
 Bytes, and the two views of one: a number below 256, which lengths and sequences use, and
 eight bits, which the checksum uses.
 */
module Bytes {
  newtype byte = x: int | 0 <= x < 256

  const TWO_32: nat := 0x1_0000_0000

  function ToBits(b: byte): bv8 { b as bv8 }

  function FromBits(x: bv8): byte { x as byte }

  lemma FromBitsToBits(x: bv8)
    ensures ToBits(FromBits(x)) == x
  {}

  lemma Increment(x: bv8)
    requires x < 255
    ensures FromBits(x + 1) as int == FromBits(x) as int + 1
  {}

  lemma {:induction false} ToBitsFromBits(b: byte)
    ensures FromBits(ToBits(b)) == b
    decreases b as int
  {
    if b > 0 {
      ToBitsFromBits(b - 1);
      var x := ToBits(b - 1);
      Increment(x);
      FromBitsToBits(x + 1);
    }
  }

  lemma ToBitsInjective(a: byte, b: byte)
    requires ToBits(a) == ToBits(b)
    ensures a == b
  {
    ToBitsFromBits(a);
    ToBitsFromBits(b);
  }

  lemma SliceOfPrefix<T>(s: seq<T>, n: nat, a: nat, b: nat)
    requires a <= b <= n <= |s|
    ensures s[..n][a..b] == s[a..b]
  {}

  lemma SliceOfSlice<T>(s: seq<T>, a: nat, b: nat, i: nat, j: nat)
    requires a <= b <= |s| && i <= j <= b - a
    ensures s[a..b][i..j] == s[a + i..a + j]
  {
    forall k | 0 <= k < j - i ensures s[a..b][i..j][k] == s[a + i..a + j][k] {}
  }

  lemma SplitSlice<T>(s: seq<T>, a: nat, b: nat, c: nat)
    requires a <= b <= c <= |s|
    ensures s[a..c] == s[a..b] + s[b..c]
  {}

  function Concat<T>(parts: seq<seq<T>>): seq<T> {
    if parts == [] then [] else parts[0] + Concat(parts[1..])
  }

  lemma {:induction false} ConcatSum<T>(a: seq<seq<T>>, b: seq<seq<T>>)
    ensures Concat(a + b) == Concat(a) + Concat(b)
    decreases |a|
  {
    if a == [] {
      assert a + b == b;
    } else {
      assert (a + b)[1..] == a[1..] + b;
      ConcatSum(a[1..], b);
    }
  }

  lemma ConcatLast<T>(parts: seq<seq<T>>, last: seq<T>)
    ensures Concat(parts + [last]) == Concat(parts) + last
  {
    ConcatSum(parts, [last]);
    assert [last][1..] == [];
  }
}
