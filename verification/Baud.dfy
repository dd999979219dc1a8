/**
 calculateFTDIBaudRateDivisor of lib/go/transport_ftdi.go, over exact reals: a 12-bit integer
 part and, in bits 12 to 14, eighths.
 */
module Baud {
  const BASE_CLOCK: real := 3000000.0

  function Divisor(baud: nat): real
    requires baud > 0
  {
    BASE_CLOCK / baud as real
  }

  /** Bitwise or of two 3-bit numbers. */
  function Or3(a: nat, b: nat): (r: nat)
    requires a < 8 && b < 8
    ensures r < 8 && r >= a && (a == 0 ==> r == b)
  {
    (if a % 2 == 1 || b % 2 == 1 then 1 else 0)
    + (if a / 2 % 2 == 1 || b / 2 % 2 == 1 then 2 else 0)
    + (if a / 4 == 1 || b / 4 == 1 then 4 else 0)
  }

  /** (integerPart & 0x3FFF) | prescaler, where the prescaler is a number of eighths in bits 12 to 14. */
  function Combine(integerPart: nat, eighths: nat): (v: nat)
    requires eighths < 8
    ensures v < 0x8000
  {
    var masked := integerPart % 0x4000;
    masked % 0x1000 + 0x1000 * Or3(masked / 0x1000, eighths)
  }

  /** The closest achievable number of eighths; eight means one more in the integer part. */
  function Closest(f: real): nat {
    if f < 0.0625 then 0
    else if f < 0.1875 then 1
    else if f < 0.3125 then 2
    else if f < 0.4375 then 3
    else if f < 0.5625 then 4
    else if f < 0.6875 then 5
    else if f < 0.8125 then 6
    else if f < 0.9375 then 7
    else 8
  }

  function FinalDivisor(baud: nat): nat
    requires baud > 0
  {
    var divisor := Divisor(baud);
    assert divisor >= 0.0 by { DivisorPositive(baud); }
    var integerPart := divisor.Floor;
    var e := Closest(divisor - integerPart as real);
    if e == 8 then Combine(integerPart + 1, 0) else Combine(integerPart, e)
  }

  /** The pair of control-transfer values. */
  function Values(baud: nat): (nat, nat)
    requires baud > 0
  {
    (FinalDivisor(baud) % 0x100, FinalDivisor(baud) / 0x100 % 0x100)
  }

  /** The divisor that the device makes of a 15-bit value. */
  function Meaning(v: nat): real {
    (v % 0x1000) as real + (v / 0x1000) as real / 8.0
  }

  lemma DivisorPositive(baud: nat)
    requires baud > 0
    ensures Divisor(baud) > 0.0
  {}

  lemma DivisorFalls(a: nat, b: nat)
    requires 0 < a <= b
    ensures Divisor(a) >= Divisor(b)
  {
    var x, y := a as real, b as real;
    assert Divisor(a) * x == BASE_CLOCK && Divisor(b) * y == BASE_CLOCK;
    DivisorPositive(b);
    assert Divisor(b) * x <= Divisor(b) * y;
  }

  lemma ClosestRounds(f: real)
    requires 0.0 <= f < 1.0
    ensures Closest(f) <= 8 && Closest(f) as real <= 8.0 * f + 0.5 < (Closest(f) + 1) as real
  {}

  lemma EighthsOf(d: real, n: nat, e: nat)
    requires n as real <= d && e as real <= 8.0 * (d - n as real) + 0.5 < (e + 1) as real
    ensures (8.0 * d + 0.5).Floor == 8 * n + e
  {
    assert 8.0 * d + 0.5 == (8 * n) as real + (8.0 * (d - n as real) + 0.5);
    assert (8 * n + e) as real <= 8.0 * d + 0.5 < (8 * n + e + 1) as real;
  }

  /** Below 4096 the parts do not overlap, and the value means the divisor rounded to eighths. */
  lemma MeaningOfFinal(baud: nat)
    requires baud > 0 && Divisor(baud) < 4095.0
    ensures Meaning(FinalDivisor(baud)) == (8.0 * Divisor(baud) + 0.5).Floor as real / 8.0
  {
    var d := Divisor(baud);
    DivisorPositive(baud);
    var n := d.Floor;
    var e := Closest(d - n as real);
    ClosestRounds(d - n as real);
    EighthsOf(d, n, e);
    hide Closest, Combine, Meaning;
    if e == 8 {
      CombineMeans(n + 1, 0);
    } else {
      CombineMeans(n, e);
    }
  }

  lemma CombineMeans(n: nat, e: nat)
    requires n < 0x1000 && e < 8
    ensures Meaning(Combine(n, e)) == (8 * n + e) as real / 8.0
  {
    assert n % 0x4000 == n && n / 0x1000 == 0 && n % 0x1000 == n;
    var v := n + 0x1000 * e;
    assert Combine(n, e) == v;
    assert v % 0x1000 == n && v / 0x1000 == e;
  }

  lemma FastEnough(baud: nat)
    requires baud > 0
    ensures baud >= 733 ==> Divisor(baud) < 4095.0
    ensures baud < 733 ==> Divisor(baud) > 4096.0
  {
    if baud >= 733 {
      DivisorFalls(733, baud);
    } else {
      DivisorFalls(baud, 732);
    }
  }

  lemma MeaningBound(v: nat)
    requires v < 0x8000
    ensures Meaning(v) <= 4095.875
  {}

  /**
   The low 12 bits, and the bits above them as eighths, are within a sixteenth of three million
   over the baud rate exactly for baud rates from 733 up.
   */
  lemma AccurateIff(baud: nat)
    requires baud > 0
    ensures var v := FinalDivisor(baud);
            && v < 0x8000
            && (-0.0625 <= (v % 0x1000) as real + (v / 0x1000) as real / 8.0 - 3000000.0 / baud as real <= 0.0625
                <==> baud >= 733)
  {
    FastEnough(baud);
    var v := FinalDivisor(baud);
    assert Divisor(baud) == 3000000.0 / baud as real;
    assert Meaning(v) == (v % 0x1000) as real + (v / 0x1000) as real / 8.0;
    hide Divisor, Meaning;
    if baud >= 733 {
      MeaningOfFinal(baud);
    } else {
      MeaningBound(FinalDivisor(baud));
    }
  }

  /** A higher baud rate never gets a larger divisor. */
  lemma MeaningFalls(a: nat, b: nat)
    requires 733 <= a <= b
    ensures Meaning(FinalDivisor(a)) >= Meaning(FinalDivisor(b))
  {
    hide FinalDivisor, Meaning, Divisor;
    FastEnough(a);
    FastEnough(b);
    MeaningOfFinal(a);
    MeaningOfFinal(b);
    DivisorFalls(a, b);
    RoundingFalls(Divisor(a), Divisor(b));
  }

  lemma RoundingFalls(x: real, y: real)
    requires x >= y
    ensures (8.0 * x + 0.5).Floor as real / 8.0 >= (8.0 * y + 0.5).Floor as real / 8.0
  {
    assert (8.0 * x + 0.5).Floor >= (8.0 * y + 0.5).Floor;
  }

  /** The two bytes hold the whole value. */
  lemma ValuesRecover(baud: nat)
    requires baud > 0
    ensures Values(baud).0 + 0x100 * Values(baud).1 == FinalDivisor(baud)
    ensures Values(baud).0 < 0x100 && Values(baud).1 < 0x80
  {
    var v := FinalDivisor(baud);
    assert v < 0x8000;
    hide FinalDivisor;
    assert v / 0x100 % 0x100 == v / 0x100;
  }
}
