/** Bytes in memory and in files: bit setting and little-endian words. */
module Bytes {
  import opened Bits

  type Byte = b: int | 0 <= b < 256

  /** x | (1 << i). */
  function SetBit(x: nat, i: nat): nat {
    if i == 0 then x / 2 * 2 + 1 else SetBit(x / 2, i - 1) * 2 + x % 2
  }

  lemma {:induction false} SetBitBits(x: nat, i: nat, j: nat)
    ensures Bit(SetBit(x, i), j) == if i == j then 1 else Bit(x, j)
  {
    if i > 0 && j > 0 {
      SetBitBits(x / 2, i - 1, j - 1);
      assert SetBit(x, i) / 2 == SetBit(x / 2, i - 1);
    }
  }

  lemma {:induction false} SetBitBound(x: nat, i: nat, n: nat)
    requires i < n && x < Pow2(n)
    ensures SetBit(x, i) < Pow2(n)
  {
    if i > 0 { SetBitBound(x / 2, i - 1, n - 1); }
  }

  lemma {:induction false} SetBitInByte(x: Byte, i: nat)
    requires i < 8
    ensures SetBit(x, i) < 256
  {
    assert Pow2(8) == 256 by { assert Pow2(5) == 32; }
    SetBitBound(x, i, 8);
  }

  /** The number stored least significant byte first. */
  function LeWord(bytes: seq<Byte>): nat {
    if bytes == [] then 0 else bytes[0] + 256 * LeWord(bytes[1..])
  }

  lemma {:induction false} BitAbove(low: nat, high: nat, n: nat, c: nat)
    requires low < Pow2(n)
    ensures Bit(low + Pow2(n) * high, c) == if c < n then Bit(low, c) else Bit(high, c - n)
  {
    if n > 0 {
      var p := Pow2(n - 1);
      assert low + 2 * p * high == (low / 2 + p * high) * 2 + low % 2;
      if c > 0 { BitAbove(low / 2, high, n - 1, c - 1); }
    }
  }

  /** Bit c of a little-endian word is bit c % 8 of byte c / 8. */
  lemma {:induction false} LeWordBit(bytes: seq<Byte>, c: nat)
    requires c < 8 * |bytes|
    ensures Bit(LeWord(bytes), c) == Bit(bytes[c / 8], c % 8)
  {
    assert Pow2(8) == 256 by { assert Pow2(5) == 32; }
    BitAbove(bytes[0], LeWord(bytes[1..]), 8, c);
    if c >= 8 { LeWordBit(bytes[1..], c - 8); }
  }

  /** x written in n bytes. Higher bytes are lost. */
  function ToLe(x: nat, n: nat): (bytes: seq<Byte>)
    ensures |bytes| == n
  {
    if n == 0 then [] else [x % 256] + ToLe(x / 256, n - 1)
  }

  function Pow256(n: nat): nat {
    if n == 0 then 1 else 256 * Pow256(n - 1)
  }

  lemma {:induction false} ToLeRoundTrip(x: nat, n: nat)
    requires x < Pow256(n)
    ensures LeWord(ToLe(x, n)) == x
  {
    if n > 0 {
      ToLeRoundTrip(x / 256, n - 1);
      assert ToLe(x, n)[1..] == ToLe(x / 256, n - 1);
    }
  }

  // ----- Concatenation -----

  function Flatten<T>(parts: seq<seq<T>>): seq<T> {
    if parts == [] then [] else Flatten(parts[..|parts| - 1]) + parts[|parts| - 1]
  }

  lemma {:induction false} FlattenPlusOne<T>(parts: seq<seq<T>>, p: seq<T>)
    ensures Flatten(parts + [p]) == Flatten(parts) + p
  {
    assert (parts + [p])[..|parts|] == parts;
  }

  /** Pieces of one size sit at multiples of that size. */
  lemma {:induction false} FlattenAt<T>(parts: seq<seq<T>>, unit: nat, i: nat)
    requires forall k :: 0 <= k < |parts| ==> |parts[k]| == unit
    requires i < |parts|
    ensures |Flatten(parts)| == |parts| * unit && 0 <= i * unit <= i * unit + unit <= |parts| * unit
    ensures Flatten(parts)[i * unit..i * unit + unit] == parts[i]
  {
    FlattenLength(parts, unit);
    var n := |parts| - 1;
    var init := parts[..n];
    FlattenLength(init, unit);
    Ladder(i, |parts|, unit);
    if i < n {
      FlattenAt(init, unit, i);
      Ladder(i, n, unit);
      assert Flatten(parts)[i * unit..i * unit + unit] == Flatten(init)[i * unit..i * unit + unit];
    }
  }

  lemma Ladder(i: nat, n: nat, unit: nat)
    requires i < n
    ensures 0 <= i * unit <= i * unit + unit <= n * unit
    ensures i == n - 1 ==> i * unit + unit == n * unit
  {
    MulMonotone(i + 1, n, unit);
    assert (i + 1) * unit == i * unit + unit;
  }

  lemma {:induction false} FlattenLength<T>(parts: seq<seq<T>>, unit: nat)
    requires forall k :: 0 <= k < |parts| ==> |parts[k]| == unit
    ensures |Flatten(parts)| == |parts| * unit
  {
    if parts != [] {
      var n := |parts| - 1;
      FlattenLength(parts[..n], unit);
      assert (n + 1) * unit == n * unit + unit;
    }
  }
}
