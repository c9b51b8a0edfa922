/**
 CRC-32 as the exporter computes it, a byte at a time from a table, against the
 bit-serial register of the standard (reflected polynomial EDB88320).
 */
module Crc32 {
  import opened Bits
  import opened Bytes

  const POLY: nat := 0xEDB88320
  const WORD32: nat := 0x1_0000_0000

  /** x ^ y on unsigned words. */
  function Xor(x: nat, y: nat): nat {
    if x == 0 then y else if y == 0 then x else 2 * Xor(x / 2, y / 2) + (x % 2 + y % 2) % 2
  }

  // ~x on 32 bits.
  function Not32(x: nat): nat
    requires x < WORD32
  {
    WORD32 - 1 - x
  }

  lemma {:induction false} XorStep(x: nat, y: nat)
    ensures Xor(x, y) / 2 == Xor(x / 2, y / 2) && Xor(x, y) % 2 == (x % 2 + y % 2) % 2
  {}

  lemma ParityAssoc(a: nat, b: nat, c: nat)
    requires a < 2 && b < 2 && c < 2
    ensures ((a + b) % 2 + c) % 2 == (a + (b + c) % 2) % 2
  {}

  lemma SameHalves(x: nat, y: nat)
    requires x / 2 == y / 2 && x % 2 == y % 2
    ensures x == y
  {}

  lemma {:induction false} XorAssoc(x: nat, y: nat, z: nat)
    ensures Xor(Xor(x, y), z) == Xor(x, Xor(y, z))
  {
    if x != 0 && y != 0 && z != 0 {
      var (a, b) := (Xor(x, y), Xor(y, z));
      XorStep(x, y);
      XorStep(y, z);
      XorAssoc(x / 2, y / 2, z / 2);
      AssocStep(x, y, z, a, b);
    }
  }

  lemma {:induction false} AssocStep(x: nat, y: nat, z: nat, a: nat, b: nat)
    requires a % 2 == (x % 2 + y % 2) % 2 && b % 2 == (y % 2 + z % 2) % 2 && Xor(a / 2, z / 2) == Xor(x / 2, b / 2)
    ensures Xor(a, z) == Xor(x, b)
  {
    XorStep(a, z);
    XorStep(x, b);
    ParityAssoc(x % 2, y % 2, z % 2);
    SameHalves(Xor(a, z), Xor(x, b));
  }

  lemma {:induction false} XorBound(x: nat, y: nat, n: nat)
    requires x < Pow2(n) && y < Pow2(n)
    ensures Xor(x, y) < Pow2(n)
  {
    if x != 0 && y != 0 { XorBound(x / 2, y / 2, n - 1); }
  }

  lemma {:induction false} XorWithEven(x: nat, half: nat)
    requires x != 0 && half != 0
    ensures Xor(x, 2 * half) == 2 * Xor(x / 2, half) + x % 2
  {}

  lemma TwiceProduct(p: nat, h: nat)
    requires p > 0 && h > 0
    ensures 2 * p * h == 2 * (p * h) && p * h > 0
  {
    MulMonotone(1, p, h);
  }

  /** Words without a common bit are simply added. */
  lemma {:induction false} XorOfParts(low: nat, high: nat, n: nat)
    requires low < Pow2(n)
    ensures Xor(low, Pow2(n) * high) == low + Pow2(n) * high
  {
    if n > 0 && low != 0 && high != 0 {
      var p := Pow2(n - 1);
      XorOfParts(low / 2, high, n - 1);
      TwiceProduct(p, high);
      XorWithEven(low, p * high);
    }
  }

  // ----- The standard: one message bit at a time -----

  // A message bit and the low end of the register decide on the feedback.
  function FeedBit(c: nat, bit: nat): nat {
    if c % 2 != bit then Xor(POLY, c / 2) else c / 2
  }

  // The n low bits of x, least significant first.
  function Feed(c: nat, x: nat, n: nat): nat
    decreases n, x
  {
    if n == 0 then c else Feed(FeedBit(c, x % 2), x / 2, n - 1)
  }

  function Serial(c: nat, message: seq<Byte>): nat {
    if message == [] then c else
    var n := |message| - 1;
    Feed(Serial(c, message[..n]), message[n], 8)
  }

  /** The CRC-32 of a message: register preset to ones, result inverted. */
  function Crc(message: seq<Byte>): (r: nat)
    ensures r < WORD32
  {
    SerialBound(WORD32 - 1, message);
    Not32(Serial(WORD32 - 1, message))
  }

  lemma FeedBitBound(c: nat, bit: nat)
    requires c < WORD32
    ensures FeedBit(c, bit) < WORD32
  {
    Pow2Of32();
    XorBound(POLY, c / 2, 32);
  }

  lemma {:induction false} FeedBound(c: nat, x: nat, n: nat)
    requires c < WORD32
    ensures Feed(c, x, n) < WORD32
    decreases n
  {
    if n > 0 {
      FeedBitBound(c, x % 2);
      FeedBound(FeedBit(c, x % 2), x / 2, n - 1);
    }
  }

  lemma {:induction false} SerialBound(c: nat, message: seq<Byte>)
    requires c < WORD32
    ensures Serial(c, message) < WORD32
  {
    if message != [] {
      var n := |message| - 1;
      SerialBound(c, message[..n]);
      FeedBound(Serial(c, message[..n]), message[n], 8);
    }
  }

  lemma Pow2Of32()
    ensures Pow2(8) == 256 && Pow2(32) == WORD32
  {
    assert Pow2(8) == 256 by { assert Pow2(4) == 16; }
    assert Pow2(16) == 65536 by { assert Pow2(12) == 4096; }
    assert Pow2(24) == 16777216 by { assert Pow2(20) == 1048576; }
    assert Pow2(28) == 268435456;
  }

  /** The CRC of a concatenation continues from the CRC of its first part. */
  lemma {:induction false} SerialConcat(c: nat, a: seq<Byte>, b: seq<Byte>)
    ensures Serial(c, a + b) == Serial(Serial(c, a), b)
  {
    if b == [] {
      assert a + b == a;
    } else {
      var n := |b| - 1;
      SerialConcat(c, a, b[..n]);
      assert (a + b)[..|a + b| - 1] == a + b[..n];
    }
  }

  // What updating a finished CRC with more bytes gives.
  function Updated(crc: nat, more: seq<Byte>): (r: nat)
    requires crc < WORD32
    ensures r < WORD32
  {
    SerialBound(Not32(crc), more);
    Not32(Serial(Not32(crc), more))
  }

  lemma UpdateComposes(a: seq<Byte>, b: seq<Byte>)
    ensures Updated(0, a) == Crc(a) && Updated(Crc(a), b) == Crc(a + b)
  {
    SerialConcat(WORD32 - 1, a, b);
    SerialBound(WORD32 - 1, a);
  }

  // ----- The polynomial -----

  lemma {:induction false} XorBit(x: nat, y: nat, i: nat)
    ensures Bit(Xor(x, y), i) == (Bit(x, i) + Bit(y, i)) % 2
  {
    XorStep(x, y);
    if i > 0 { XorBit(x / 2, y / 2, i - 1); }
  }

  // The exponents of the polynomial of CRC-32 below 32.
  const TERMS: set<nat> := {0, 1, 2, 4, 5, 7, 8, 10, 11, 12, 16, 22, 23, 26}

  lemma {:induction false} PolyBit(i: nat)
    requires i < 32
    ensures Bit(POLY, i) == if 31 - i in TERMS then 1 else 0
  {
    HalfBit(0x8320, 0xEDB8, i);
    if i < 16 { LowHalf(i); } else { HighHalf(i - 16); }
  }

  lemma {:induction false} HalfBit(low: nat, high: nat, i: nat)
    requires low < 0x1_0000
    ensures Bit(low + 0x1_0000 * high, i) == if i < 16 then Bit(low, i) else Bit(high, i - 16)
  {
    assert Pow2(16) == 0x1_0000 by {
      assert Pow2(8) == 256 by { assert Pow2(4) == 16; }
      assert Pow2(12) == 4096;
    }
    BitAbove(low, high, 16, i);
  }

  // A bit of the lowest hexadecimal digit, or of the digits above it.
  lemma {:induction false} HighDigits(x: nat, digit: nat, above: nat, i: nat)
    requires x == digit + 16 * above && digit < 16
    ensures Bit(x, i) == if i < 4 then DigitBit(digit, i) else Bit(above, i - 4)
  {
    assert Pow2(4) == 16;
    BitAbove(digit, above, 4, i);
    if i < 4 { BitOfDigit(digit, digit / 2, digit / 4, digit / 8, i); }
  }

  function DigitBit(d: nat, i: nat): nat
    requires i < 4
  {
    if i == 0 then d % 2 else if i == 1 then d / 2 % 2 else if i == 2 then d / 4 % 2 else d / 8 % 2
  }

  lemma {:induction false} BitOfDigit(d: nat, d1: nat, d2: nat, d3: nat, i: nat)
    requires d1 == d / 2 && d2 == d / 4 && d3 == d / 8 && i < 4
    ensures Bit(d, i) == DigitBit(d, i)
  {
    assert d1 / 2 == d2 && d2 / 2 == d3;
    if i >= 1 { assert Bit(d, i) == Bit(d1, i - 1); }
    if i >= 2 { assert Bit(d1, i - 1) == Bit(d2, i - 2); }
    if i >= 3 { assert Bit(d2, i - 2) == Bit(d3, i - 3); }
  }

  lemma {:induction false} LowHalf(i: nat)
    requires i < 16
    ensures Bit(0x8320, i) == if i in {5, 8, 9, 15} then 1 else 0
  {
    HighDigits(0x8320, 0, 0x832, i);
    if i >= 4 { HighDigits(0x832, 2, 0x83, i - 4); }
    if i >= 8 { HighDigits(0x83, 3, 0x8, i - 8); }
    if i >= 12 { HighDigits(0x8, 8, 0, i - 12); }
  }

  lemma {:induction false} HighHalf(i: nat)
    requires i < 16
    ensures Bit(0xEDB8, i) == if i in {0, 1, 2, 6, 9, 12} then 0 else 1
  {
    HighDigits(0xEDB8, 8, 0xEDB, i);
    if i >= 4 { HighDigits(0xEDB, 11, 0xED, i - 4); }
    if i >= 8 { HighDigits(0xED, 13, 0xE, i - 8); }
    if i >= 12 { HighDigits(0xE, 14, 0, i - 12); }
  }

  /** One message bit moves the register down by one bit, and adds the polynomial, its term
      x^e at bit 31 - e, if the bit that leaves is not the message bit. */
  lemma {:induction false} FeedBitMeans(c: nat, bit: nat, i: nat)
    requires i < 32
    ensures Bit(FeedBit(c, bit), i) ==
      (Bit(c, i + 1) + if Bit(c, 0) != bit && 31 - i in TERMS then 1 else 0) % 2
  {
    PolyBit(i);
    XorBit(POLY, c / 2, i);
    BitIsBit(c / 2, i);
  }

  // ----- The table -----

  // One shift of the register on its own.
  function Shift(c: nat): nat {
    if c % 2 == 1 then Xor(POLY, c / 2) else c / 2
  }

  function Shifts(c: nat, n: nat): nat
    decreases n, c
  {
    if n == 0 then c else Shifts(Shift(c), n - 1)
  }

  lemma {:induction false} ShiftOfXor(c: nat, x: nat)
    ensures Shift(Xor(c, x)) == Xor(FeedBit(c, x % 2), x / 2)
  {
    XorStep(c, x);
    ShiftOfSum(c, x, Xor(c, x));
  }

  lemma {:induction false} ShiftOfSum(c: nat, x: nat, sum: nat)
    requires sum / 2 == Xor(c / 2, x / 2) && sum % 2 == (c % 2 + x % 2) % 2
    ensures Shift(sum) == Xor(FeedBit(c, x % 2), x / 2)
  {
    if c % 2 != x % 2 {
      assert sum % 2 == 1;
      XorAssoc(POLY, c / 2, x / 2);
    } else {
      assert sum % 2 == 0;
    }
  }

  /** Feeding bits is the same as adding them to the register first. */
  lemma {:induction false} FeedIsShifts(c: nat, x: nat, n: nat)
    requires x < Pow2(n)
    ensures Feed(c, x, n) == Shifts(Xor(c, x), n)
    decreases n
  {
    if n > 0 {
      ShiftOfXor(c, x);
      FeedIsShifts(FeedBit(c, x % 2), x / 2, n - 1);
    }
  }

  /** High bits only move down while the low ones are shifted out. */
  lemma {:induction false} ShiftsSplit(low: nat, high: nat, n: nat)
    ensures Shifts(Xor(low, Pow2(n) * high), n) == Xor(Shifts(low, n), high)
    decreases n
  {
    if n > 0 {
      var x, half := Pow2(n) * high, Pow2(n - 1) * high;
      assert x == 2 * half;
      assert Shift(Xor(low, x)) == Xor(Shift(low), half) by { ShiftOfXor(low, x); }
      ShiftsSplit(Shift(low), high, n - 1);
    }
  }

  // The value an entry of the table must have.
  function Entry(i: nat): nat { Shifts(i, 8) }

  /** One table step is eight message bits. */
  lemma {:induction false} TableStep(c: nat, b: Byte)
    ensures Xor(Entry(Xor(c, b) % 256), c / 256) == Feed(c, b, 8)
  {
    Pow2Of32();
    var t := Xor(c, b);
    FeedIsShifts(c, b, 8);
    XorOfParts(t % 256, t / 256, 8);
    assert t == t % 256 + 256 * (t / 256);
    ShiftsSplit(t % 256, t / 256, 8);
    XorDown(c, b, 8);
    assert t / 256 == c / 256;
  }

  lemma {:induction false} XorDown(c: nat, b: nat, n: nat)
    requires b < Pow2(n)
    ensures Xor(c, b) / Pow2(n) == c / Pow2(n)
  {
    if n > 0 {
      XorStep(c, b);
      XorDown(c / 2, b / 2, n - 1);
      HalvesFirst(Xor(c, b), Pow2(n - 1));
      HalvesFirst(c, Pow2(n - 1));
    }
  }

  lemma HalvesFirst(x: nat, p: nat)
    requires p > 0
    ensures x / (2 * p) == x / 2 / p
  {
    var q, r := x / 2 / p, x / 2 % p;
    assert x / 2 == q * p + r;
    assert x == q * (2 * p) + (2 * r + x % 2);
    RemainderIs(x, 2 * p, q, 2 * r + x % 2);
  }

  lemma {:induction false} ShiftsBound(c: nat, n: nat)
    requires c < WORD32
    ensures Shifts(c, n) < WORD32
    decreases n
  {
    if n > 0 {
      FeedBitBound(c, 0);
      ShiftsBound(Shift(c), n - 1);
    }
  }

  // ----- The code -----

  // The table, built by the first call. An entry 1 of zero means not built yet.
  class Table {
    const entry: array<nat>

    ghost predicate Built()
      reads entry
    {
      entry.Length == 256 && forall i :: 0 <= i < 256 ==> entry[i] == Entry(i)
    }

    ghost predicate Valid()
      reads entry
    {
      entry.Length == 256 && (entry[1] != 0 ==> Built())
    }

    constructor ()
      ensures Valid() && fresh(entry)
    {
      entry := new nat[256](_ => 0);
    }

    method Build()
      requires entry.Length == 256
      modifies entry
      ensures Built()
    {
      for i := 0 to 256
        invariant forall j :: 0 <= j < i ==> entry[j] == Entry(j)
      {
        var c := i;
        for k := 0 to 8
          invariant c >= 0 && Shifts(c, 8 - k) == Entry(i)
        {
          c := if c % 2 == 1 then Xor(POLY, c / 2) else c / 2;
        }
        entry[i] := c;
      }
    }

    /** Continues a CRC over the bytes of p. */
    method Update(crc: nat, p: seq<Byte>) returns (r: nat)
      requires Valid() && crc < WORD32
      modifies entry
      ensures Valid() && r == Updated(crc, p)
    {
      if entry[1] == 0 {
        Build();
      }
      var c := Not32(crc);
      for i := 0 to |p|
        invariant Built() && c == Serial(Not32(crc), p[..i])
      {
        assert p[..i + 1][..i] == p[..i];
        TableStep(c, p[i]);
        c := Xor(entry[Xor(c, p[i]) % 256], c / 256);
      }
      assert p[..|p|] == p;
      SerialBound(Not32(crc), p);
      r := Not32(c);
    }
  }
}
