/**
 The ALU of the KD11-EA: four 74S181 slices with the carries of the 74S182, and the
 16-bit form that computes all of them at once.
 */
module Alu {
  import opened Bits

  // x | y, bit by bit.
  function Or(x: nat, y: nat): nat {
    if x == 0 then y else if y == 0 then x
    else 2 * Or(x / 2, y / 2) + (if x % 2 + y % 2 > 0 then 1 else 0)
  }

  function Carry(c: bool): nat { if c then 1 else 0 }

  /** The sixteen arithmetic functions on the bits of a mask q - 1, with the carry out
      on top of the result. */
  function Arith(a: nat, b: nat, s: nat, cin: bool, q: nat): nat
    requires q > 0 && s < 16
  {
    Sum(a % q, b % q, s, Carry(cin), q)
  }

  function Sum(x: nat, y: nat, s: nat, c: nat, q: nat): nat
    requires x < q && y < q && s < 16
  {
    var notY: nat := q - 1 - y;
    Select(s, Operands(x, notY, Or(x, y), And(x, y), Or(x, notY), And(x, notY), y, q - 1)) + c
  }

  // A, ~B, A|B, A&B, A|~B, A&~B, B and -1.
  datatype Operands = Operands(x: nat, notY: nat, or: nat, and: nat, orNot: nat, andNot: nat, y: nat, ones: nat)

  // Every function adds two of them, or one and zero.
  function Select(s: nat, p: Operands): nat
    requires s < 16
  {
    var (f, g) := Terms(s, p);
    f + g
  }

  function Terms(s: nat, p: Operands): (nat, nat)
    requires s < 16
  {
    var Operands(x, notY, or, and, orNot, andNot, y, ones) := p;
    match s
    case 0 => (x, 0)
    case 1 => (or, 0)
    case 2 => (orNot, 0)
    case 3 => (ones, 0)
    case 4 => (x, andNot)
    case 5 => (or, andNot)
    case 6 => (x, notY)
    case 7 => (andNot, ones)
    case 8 => (x, and)
    case 9 => (x, y)
    case 10 => (orNot, and)
    case 11 => (and, ones)
    case 12 => (x, x)
    case 13 => (or, x)
    case 14 => (orNot, x)
    case _ => (x, ones)
  }

  // Function 6 adds A and ~B.
  lemma Minus(a: nat, b: nat, cin: bool, q: nat)
    requires a < q && b < q
    ensures Arith(a, b, 6, cin, q) == a + (q - 1 - b) + Carry(cin)
  {
    assert a % q == a && b % q == b;
  }

  function Result(a: nat, b: nat, s: nat, cin: bool): nat
    requires s < 16
  {
    Arith(a, b, s, cin, 0x1_0000) % 0x1_0000
  }

  function CarryOut(a: nat, b: nat, s: nat, cin: bool): bool
    requires s < 16
  {
    Arith(a, b, s, cin, 0x1_0000) / 0x1_0000 % 2 == 1
  }

  // ALU COUT 3, 7 and 11.
  function SliceCarries(a: nat, b: nat, s: nat, cin: bool): (bool, bool, bool)
    requires s < 16
  {
    (Arith(a, b, s, cin, 0x10) / 0x10 % 2 == 1,
     Arith(a, b, s, cin, 0x100) / 0x100 % 2 == 1,
     Arith(a, b, s, cin, 0x1000) / 0x1000 % 2 == 1)
  }

  // ----- Two halves of a word -----

  lemma {:induction false} AndUnfold(x: nat, y: nat)
    ensures And(x, y) == 2 * And(x / 2, y / 2) + (x % 2) * (y % 2)
  {}

  lemma {:induction false} AndSplit(x: nat, xl: nat, xh: nat, y: nat, yl: nat, yh: nat, q: nat)
    requires x == xl + q * xh && y == yl + q * yh && xl < q && yl < q && IsPowerOf2(q)
    ensures And(x, y) == And(xl, yl) + q * And(xh, yh)
    decreases q
  {
    if q > 1 {
      var h := q / 2;
      Halve(x, xl, xh, h);
      Halve(y, yl, yh, h);
      AndSplit(x / 2, xl / 2, xh, y / 2, yl / 2, yh, h);
      AndUnfold(x, y);
      AndUnfold(xl, yl);
      Distribute(And(xl / 2, yl / 2), And(xh, yh), h);
    }
  }

  lemma Halve(x: nat, low: nat, high: nat, h: nat)
    requires x == low + 2 * h * high
    ensures x / 2 == low / 2 + h * high && x % 2 == low % 2
  {
    assert x == 2 * (low / 2 + h * high) + low % 2;
  }

  lemma Distribute(low: nat, high: nat, h: nat)
    ensures 2 * (low + h * high) == 2 * low + 2 * h * high
  {}

  lemma {:induction false} OrIsSum(x: nat, y: nat)
    ensures Or(x, y) + And(x, y) == x + y
  {
    if x != 0 && y != 0 {
      OrIsSum(x / 2, y / 2);
      AndUnfold(x, y);
    }
  }

  lemma {:induction false} OrSplit(x: nat, xl: nat, xh: nat, y: nat, yl: nat, yh: nat, q: nat)
    requires x == xl + q * xh && y == yl + q * yh && xl < q && yl < q && IsPowerOf2(q)
    ensures Or(x, y) == Or(xl, yl) + q * Or(xh, yh)
  {
    AndSplit(x, xl, xh, y, yl, yh, q);
    OrIsSum(x, y);
    OrIsSum(xl, yl);
    OrIsSum(xh, yh);
    SumAbove(q, Or(xh, yh), And(xh, yh), xh, yh);
  }

  lemma SumAbove(q: nat, or: nat, and: nat, x: nat, y: nat)
    requires or + and == x + y
    ensures q * or + q * and == q * x + q * y
  {
    assert q * or + q * and == q * (or + and);
    assert q * x + q * y == q * (x + y);
  }

  lemma {:induction false} BitwiseBound(x: nat, y: nat, q: nat)
    requires IsPowerOf2(q) && x < q && y < q
    ensures And(x, y) < q && Or(x, y) < q
  {
    if x != 0 && y != 0 {
      BitwiseBound(x / 2, y / 2, q / 2);
      AndUnfold(x, y);
    }
  }

  // w has the slice low and, above it, high.
  predicate Joins(w: nat, low: nat, high: nat) { w == low + 16 * high }

  predicate AllJoin(w: Operands, low: Operands, high: Operands) {
    && Joins(w.x, low.x, high.x) && Joins(w.notY, low.notY, high.notY) && Joins(w.or, low.or, high.or)
    && Joins(w.and, low.and, high.and) && Joins(w.orNot, low.orNot, high.orNot) && Joins(w.andNot, low.andNot, high.andNot)
    && Joins(w.y, low.y, high.y) && Joins(w.ones, low.ones, high.ones)
  }

  lemma SelectSplit(s: nat, w: Operands, low: Operands, high: Operands)
    requires s < 16 && AllJoin(w, low, high)
    ensures Joins(Select(s, w), Select(s, low), Select(s, high))
  {}

  lemma {:induction false} BitwiseSplit(x: nat, xl: nat, xh: nat, y: nat, yl: nat, yh: nat, q: nat)
    requires x == xl + q * xh && y == yl + q * yh && xl < q && yl < q && IsPowerOf2(q)
    ensures And(x, y) == And(xl, yl) + q * And(xh, yh) && Or(x, y) == Or(xl, yl) + q * Or(xh, yh)
  {
    AndSplit(x, xl, xh, y, yl, yh, q);
    OrSplit(x, xl, xh, y, yl, yh, q);
  }

  lemma {:induction false} Nibbles(x: nat, xl: nat, xh: nat, y: nat, yl: nat, yh: nat)
    requires Joins(x, xl, xh) && Joins(y, yl, yh) && xl < 16 && yl < 16
    ensures Joins(And(x, y), And(xl, yl), And(xh, yh)) && Joins(Or(x, y), Or(xl, yl), Or(xh, yh))
  {
    BitwiseSplit(x, xl, xh, y, yl, yh, 16);
  }

  lemma TermsBound(s: nat, p: Operands)
    requires s < 16 && p.x <= p.ones && p.y <= p.ones && p.notY <= p.ones
    requires p.or <= p.ones && p.and <= p.ones && p.orNot <= p.ones && p.andNot <= p.ones
    ensures Select(s, p) <= 2 * p.ones
  {}

  lemma {:induction false} SumBound(x: nat, y: nat, s: nat, c: nat, q: nat)
    requires IsPowerOf2(q) && x < q && y < q && s < 16 && c <= 1
    ensures Sum(x, y, s, c, q) < 2 * q
  {
    var n: nat := q - 1 - y;
    BitwiseBound(x, y, q);
    BitwiseBound(x, n, q);
    TermsBound(s, Operands(x, n, Or(x, y), And(x, y), Or(x, n), And(x, n), y, q - 1));
  }

  lemma SumSplit(x: nat, xl: nat, xh: nat, y: nat, yl: nat, yh: nat, s: nat, c: nat, q: nat)
    requires Joins(x, xl, xh) && Joins(y, yl, yh) && xl < 16 && yl < 16 && xh < q && yh < q && s < 16
    ensures Sum(x, y, s, c, 16 * q) == Sum(xl, yl, s, c, 16) + 16 * Sum(xh, yh, s, 0, q)
  {
    var n: nat := 16 * q - 1 - y;
    var (nl, nh) := ((15 - yl) as nat, (q - 1 - yh) as nat);
    Nibbles(x, xl, xh, y, yl, yh);
    Nibbles(x, xl, xh, n, nl, nh);
    SelectSplit(s, Operands(x, n, Or(x, y), And(x, y), Or(x, n), And(x, n), y, 16 * q - 1),
                Operands(xl, nl, Or(xl, yl), And(xl, yl), Or(xl, nl), And(xl, nl), yl, 15),
                Operands(xh, nh, Or(xh, yh), And(xh, yh), Or(xh, nh), And(xh, nh), yh, q - 1));
  }

  // ----- The cascade -----

  /** The 74S181 slices above each other: the low four bits of both legs give a digit
      and the carry into the next slice. The result is the digits and the last carry. */
  function Cascade(a: nat, b: nat, s: nat, cin: bool, slices: nat): (nat, bool)
    requires s < 16
  {
    if slices == 0 then (0, cin)
    else
      var d := Arith(a, b, s, cin, 16);
      var (rest, cout) := Cascade(a / 16, b / 16, s, d / 16 % 2 == 1, slices - 1);
      (d % 16 + 16 * rest, cout)
  }

  function Pow16(n: nat): (p: nat)
    ensures p > 0
  {
    if n == 0 then 1 else 16 * Pow16(n - 1)
  }

  lemma {:induction false} Pow16IsPower(n: nat)
    ensures IsPowerOf2(Pow16(n))
  {
    if n > 0 {
      Pow16IsPower(n - 1);
      var p := Pow16(n - 1);
      Double(p);
      Double(2 * p);
      Double(4 * p);
      Double(8 * p);
    }
  }

  lemma {:induction false} Double(p: nat)
    requires IsPowerOf2(p)
    ensures IsPowerOf2(2 * p)
  {
    assert 2 * p / 2 == p;
  }

  lemma NibbleRemainder(a: nat, q: nat)
    requires q > 0
    ensures Joins(a % (16 * q), a % 16, a / 16 % q)
  {
    var (k, r) := (a / 16 / q, a / 16 % q);
    assert a == 16 * (k * q + r) + a % 16;
    assert a == k * (16 * q) + (16 * r + a % 16);
    RemainderIs(a, 16 * q, k, 16 * r + a % 16);
  }

  // The first slice, and the slices above it before their carry in.
  lemma ArithSplit(a: nat, b: nat, s: nat, cin: bool, q: nat)
    requires s < 16 && q > 0
    ensures Arith(a, b, s, cin, 16 * q) == Arith(a, b, s, cin, 16) + 16 * Arith(a / 16, b / 16, s, false, q)
  {
    NibbleRemainder(a, q);
    NibbleRemainder(b, q);
    SumSplit(a % (16 * q), a % 16, a / 16 % q, b % (16 * q), b % 16, b / 16 % q, s, Carry(cin), q);
  }

  lemma CarryAdds(a: nat, b: nat, s: nat, cin: bool, q: nat)
    requires s < 16 && q > 0
    ensures Arith(a, b, s, cin, q) == Arith(a, b, s, false, q) + Carry(cin)
  {}

  lemma DigitAndCarry(a: nat, b: nat, s: nat, cin: bool)
    requires s < 16
    ensures var d := Arith(a, b, s, cin, 16); d == d % 16 + 16 * Carry(d / 16 % 2 == 1)
  {
    SumBound(a % 16, b % 16, s, Carry(cin), 16);
  }

  lemma CascadeStep(wide: nat, q: nat, d: nat, c: nat, high: nat, rest: nat, cout: nat)
    requires d == d % 16 + 16 * c && high + c == rest + q * cout && rest < q && wide == d + 16 * high
    ensures wide == d % 16 + 16 * rest + 16 * q * cout && d % 16 + 16 * rest < 16 * q
  {
    assert 16 * (q * cout) == 16 * q * cout;
  }

  /** n slices give the result and the carry out of the wide form on 4n bits. */
  lemma {:induction false} CascadeIsWide(a: nat, b: nat, s: nat, cin: bool, n: nat)
    requires s < 16
    ensures var (r, cout) := Cascade(a, b, s, cin, n);
      Arith(a, b, s, cin, Pow16(n)) == r + Pow16(n) * Carry(cout) && r < Pow16(n)
    decreases n
  {
    if n > 0 {
      var q := Pow16(n - 1);
      var d := Arith(a, b, s, cin, 16);
      var carry := d / 16 % 2 == 1;
      var (rest, cout) := Cascade(a / 16, b / 16, s, carry, n - 1);
      CascadeIsWide(a / 16, b / 16, s, carry, n - 1);
      ArithSplit(a, b, s, cin, q);
      CarryAdds(a / 16, b / 16, s, carry, q);
      DigitAndCarry(a, b, s, cin);
      CascadeStep(Arith(a, b, s, cin, 16 * q), q, d, Carry(carry), Arith(a / 16, b / 16, s, false, q), rest, Carry(cout));
    }
  }

  // Digit k of four slices chained through given carries.
  function Digit(a: nat, b: nat, s: nat, cin: bool): (d: nat)
    requires s < 16
    ensures d < 32
  {
    SumBound(a % 16, b % 16, s, Carry(cin), 16);
    Arith(a, b, s, cin, 16)
  }

  lemma {:induction false} WideParts(a: nat, b: nat, s: nat, cin: bool, n: nat, q: nat)
    requires s < 16 && q == Pow16(n)
    ensures var wide := Arith(a, b, s, cin, q); (wide % q, wide / q % 2 == 1) == Cascade(a, b, s, cin, n)
  {
    CascadeIsWide(a, b, s, cin, n);
    var (r, cout) := Cascade(a, b, s, cin, n);
    ResultAndCarry(Arith(a, b, s, cin, q), q, r, cout);
  }

  lemma ResultAndCarry(wide: nat, q: nat, r: nat, cout: bool)
    requires r < q && wide == r + q * Carry(cout)
    ensures wide % q == r && (wide / q % 2 == 1 <==> cout)
  {
    RemainderIs(wide, q, Carry(cout), r);
  }

  lemma {:induction false} CarriesOfPrefixes(a: nat, b: nat, s: nat, cin: bool)
    requires s < 16
    ensures var (c3, c7, c11) := SliceCarries(a, b, s, cin);
      && c3 == Cascade(a, b, s, cin, 1).1 && c7 == Cascade(a, b, s, cin, 2).1 && c11 == Cascade(a, b, s, cin, 3).1
      && (Result(a, b, s, cin), CarryOut(a, b, s, cin)) == Cascade(a, b, s, cin, 4)
  {
    WideParts(a, b, s, cin, 1, 0x10);
    WideParts(a, b, s, cin, 2, 0x100);
    WideParts(a, b, s, cin, 3, 0x1000);
    WideParts(a, b, s, cin, 4, 0x1_0000);
  }

  lemma CascadeOpens(a: nat, b: nat, s: nat, cin: bool, n: nat)
    requires s < 16
    ensures var d := Digit(a, b, s, cin);
      var (rest, cout) := Cascade(a / 16, b / 16, s, d >= 16, n);
      Cascade(a, b, s, cin, n + 1) == (d % 16 + 16 * rest, cout) && (n == 0 ==> rest == 0 && cout == (d >= 16))
  {}

  /** ALU COUT 3, 7 and 11 are the carries that the slices below them produce. */
  lemma SlicesMakeTheCarries(a: nat, b: nat, s: nat, cin: bool)
    requires s < 16
    ensures var (c3, c7, c11) := SliceCarries(a, b, s, cin);
      && (c3 <==> Digit(a, b, s, cin) >= 16)
      && (c7 <==> Digit(a / 16, b / 16, s, c3) >= 16)
      && (c11 <==> Digit(a / 16 / 16, b / 16 / 16, s, c7) >= 16)
  {
    CarriesOfPrefixes(a, b, s, cin);
    var (c3, c7, c11) := SliceCarries(a, b, s, cin);
    CascadeOpens(a, b, s, cin, 0);
    CascadeOpens(a, b, s, cin, 1);
    CascadeOpens(a, b, s, cin, 2);
    CascadeOpens(a / 16, b / 16, s, c3, 0);
    CascadeOpens(a / 16, b / 16, s, c3, 1);
    CascadeOpens(a / 16 / 16, b / 16 / 16, s, c7, 0);
  }

  /** Four slices chained through these carries give the wide result and carry out. */
  lemma SlicesMakeTheAlu(a: nat, b: nat, s: nat, cin: bool)
    requires s < 16
    ensures var (c3, c7, c11) := SliceCarries(a, b, s, cin);
      var d3 := Digit(a / 16 / 16 / 16, b / 16 / 16 / 16, s, c11);
      && Result(a, b, s, cin) == Digit(a, b, s, cin) % 16 + 16 * (Digit(a / 16, b / 16, s, c3) % 16)
           + 256 * (Digit(a / 16 / 16, b / 16 / 16, s, c7) % 16) + 4096 * (d3 % 16)
      && (CarryOut(a, b, s, cin) <==> d3 >= 16)
  {
    CarriesOfPrefixes(a, b, s, cin);
    SlicesMakeTheCarries(a, b, s, cin);
    var (c3, c7, c11) := SliceCarries(a, b, s, cin);
    CascadeOpens(a, b, s, cin, 3);
    CascadeOpens(a / 16, b / 16, s, c3, 2);
    CascadeOpens(a / 16 / 16, b / 16 / 16, s, c7, 1);
    CascadeOpens(a / 16 / 16 / 16, b / 16 / 16 / 16, s, c11, 0);
  }
}
