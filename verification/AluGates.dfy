/**
 The arithmetic functions of the ALU against the gates of the 74S181: each bit of a slice
 forms two terms from A, B and the four select lines, and the function is their sum.
 */
module AluGates {
  import opened Bits
  import opened Alu

  // The select line k.
  function Line(s: nat, k: nat): nat { Bit(s, k) }

  // A, or B under S0, or ~B under S1.
  function OrTerm(a: nat, b: nat, s: nat): nat {
    if a == 1 || (b == 1 && Line(s, 0) == 1) || (b == 0 && Line(s, 1) == 1) then 1 else 0
  }

  // A and ~B under S2, or A and B under S3.
  function AndTerm(a: nat, b: nat, s: nat): nat {
    if a == 1 && ((b == 0 && Line(s, 2) == 1) || (b == 1 && Line(s, 3) == 1)) then 1 else 0
  }

  // The sum of both terms of the n lowest bits.
  function Gates(x: nat, y: nat, s: nat, n: nat): nat {
    if n == 0 then 0 else OrTerm(x % 2, y % 2, s) + AndTerm(x % 2, y % 2, s) + 2 * Gates(x / 2, y / 2, s, n - 1)
  }

  function Of(x: nat, y: nat, q: nat): Operands
    requires y < q
  {
    Operands(x, q - 1 - y, Or(x, y), And(x, y), Or(x, q - 1 - y), And(x, q - 1 - y), y, q - 1)
  }

  lemma {:induction false} OrUnfold(x: nat, y: nat)
    ensures Or(x, y) == 2 * Or(x / 2, y / 2) + if x % 2 + y % 2 > 0 then 1 else 0
  {}

  // Each operand is its lowest bit and twice the operand above it.
  predicate Doubles(w: Operands, low: Operands, high: Operands) {
    && w.x == low.x + 2 * high.x && w.notY == low.notY + 2 * high.notY && w.or == low.or + 2 * high.or
    && w.and == low.and + 2 * high.and && w.orNot == low.orNot + 2 * high.orNot && w.andNot == low.andNot + 2 * high.andNot
    && w.y == low.y + 2 * high.y && w.ones == low.ones + 2 * high.ones
  }

  lemma {:induction false} OfDoubles(x: nat, y: nat, h: nat)
    requires y < 2 * h
    ensures y / 2 < h && Doubles(Of(x, y, 2 * h), Of(x % 2, y % 2, 2), Of(x / 2, y / 2, h))
  {
    var notY: nat := 2 * h - 1 - y;
    assert notY / 2 == h - 1 - y / 2 && notY % 2 == 1 - y % 2;
    BitDoubles(x, y);
    BitDoubles(x, notY);
  }

  lemma {:induction false} BitDoubles(x: nat, y: nat)
    ensures And(x, y) == And(x % 2, y % 2) + 2 * And(x / 2, y / 2)
    ensures Or(x, y) == Or(x % 2, y % 2) + 2 * Or(x / 2, y / 2)
  {
    AndUnfold(x, y);
    OrUnfold(x, y);
    OneBitAndOr(x % 2, y % 2);
  }

  lemma OneBitAndOr(a: nat, b: nat)
    requires a < 2 && b < 2
    ensures And(a, b) == a * b && Or(a, b) == if a + b > 0 then 1 else 0
  {}

  lemma SelectDoubles(s: nat, w: Operands, low: Operands, high: Operands)
    requires s < 16 && Doubles(w, low, high)
    ensures Select(s, w) == Select(s, low) + 2 * Select(s, high)
  {}

  lemma SelectBit(s: nat, a: nat, b: nat)
    requires s < 16 && a < 2 && b < 2
    ensures Select(s, Of(a, b, 2)) == OrTerm(a, b, s) + AndTerm(a, b, s)
  {
    OneBitAndOr(a, b);
    OneBitAndOr(a, 1 - b);
    LinesOf(s);
    SumOfTerms(s, a, b, Of(a, b, 2), s % 2, s / 2 % 2, s / 4 % 2, s / 8 % 2);
  }

  lemma SumOfTerms(s: nat, a: nat, b: nat, p: Operands, s0: nat, s1: nat, s2: nat, s3: nat)
    requires s == s0 + 2 * s1 + 4 * s2 + 8 * s3 && s0 < 2 && s1 < 2 && s2 < 2 && s3 < 2 && a < 2 && b < 2
    requires p == Operands(a, 1 - b, if a + b > 0 then 1 else 0, a * b, if a + (1 - b) > 0 then 1 else 0, a * (1 - b), b, 1)
    ensures Select(s, p) ==
      (if a == 1 || (b == 1 && s0 == 1) || (b == 0 && s1 == 1) then 1 else 0)
      + (if a == 1 && ((b == 0 && s2 == 1) || (b == 1 && s3 == 1)) then 1 else 0)
  {}

  lemma LinesOf(s: nat)
    requires s < 16
    ensures Line(s, 0) == s % 2 && Line(s, 1) == s / 2 % 2 && Line(s, 2) == s / 4 % 2 && Line(s, 3) == s / 8 % 2
    ensures s == s % 2 + 2 * (s / 2 % 2) + 4 * (s / 4 % 2) + 8 * (s / 8 % 2)
  {
    var (t, u, v) := (s / 2, s / 4, s / 8);
    assert t / 2 == u && u / 2 == v;
    assert Bit(s, 1) == Bit(t, 0);
    assert Bit(s, 2) == Bit(t, 1) && Bit(t, 1) == Bit(u, 0);
    assert Bit(s, 3) == Bit(t, 2) && Bit(t, 2) == Bit(u, 1) && Bit(u, 1) == Bit(v, 0);
  }

  lemma {:induction false} SelectIsGates(x: nat, y: nat, s: nat, n: nat)
    requires x < Pow2(n) && y < Pow2(n) && s < 16
    ensures Select(s, Of(x, y, Pow2(n))) == Gates(x, y, s, n)
  {
    if n > 0 {
      var h := Pow2(n - 1);
      OfDoubles(x, y, h);
      SelectDoubles(s, Of(x, y, 2 * h), Of(x % 2, y % 2, 2), Of(x / 2, y / 2, h));
      SelectBit(s, x % 2, y % 2);
      SelectIsGates(x / 2, y / 2, s, n - 1);
    }
  }

  /** Each of the sixteen functions is the sum of the terms of the gates and the carry in,
      for any number of bits. */
  lemma {:induction false} ArithIsGates(a: nat, b: nat, s: nat, cin: bool, n: nat)
    requires a < Pow2(n) && b < Pow2(n) && s < 16
    ensures Arith(a, b, s, cin, Pow2(n)) == Gates(a, b, s, n) + if cin then 1 else 0
  {
    RemainderIs(a, Pow2(n), 0, a);
    RemainderIs(b, Pow2(n), 0, b);
    SelectIsGates(a, b, s, n);
  }
}
