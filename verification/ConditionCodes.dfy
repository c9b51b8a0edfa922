/**
 LOAD CC of the KD11-EA. E68 turns the instruction into a code, and E107 computes V
 and C from the code and from the signs of both legs and of the ALU result. They
 never see a carry.
 */
module ConditionCodes {
  import opened Proms
  import opened Bits
  import Alu

  datatype Flags = Flags(n: bool, z: bool, v: bool, c: bool)

  predicate IrBit(ir: nat, mask: nat)
    requires mask > 0
  {
    ir / mask % 2 == 1
  }

  function Category(ir: nat): nat {
    E68(IrBit(ir, 0x8000), IrBit(ir, 0x4000), IrBit(ir, 0x2000), IrBit(ir, 0x1000),
        IrBit(ir, 0x400), IrBit(ir, 0x200), IrBit(ir, 0x100), IrBit(ir, 0x80), IrBit(ir, 0x40))
  }

  // E68 gives the code on lines 2-0 and BYTE L on line 3.
  function CodeOf(category: nat): nat { category % 8 }
  predicate IsByte(category: nat) { category / 8 % 2 == 0 }

  // The bits that an instruction works on, as a modulus.
  function Width(byte: bool): nat { if byte then 0x100 else 0x1_0000 }

  predicate Negative(x: nat, byte: bool) {
    if byte then x / 0x80 % 2 == 1 else x / 0x8000 % 2 == 1
  }

  function FlagsFrom(category: nat, a: nat, b: nat, r: nat, rot: bool, cbit: bool): Flags {
    var (byte, code) := (IsByte(category), CodeOf(category));
    var d := E107(Negative(r, byte), Negative(a, byte), Negative(b, byte), rot, cbit,
                  code / 4 % 2 == 1, code / 2 % 2 == 1, code % 2 == 1);
    Flags(Negative(r, byte), r % Width(byte) == 0, d / 8 % 2 == 1, d / 4 % 2 == 1)
  }

  // LOAD CC under AUX CONTROL: the legs, the ALU result, ROT CBIT and the C bit.
  function LoadCc(ir: nat, a: nat, b: nat, r: nat, rot: bool, cbit: bool): Flags {
    FlagsFrom(Category(ir), a, b, r, rot, cbit)
  }

  // ----- E68 -----

  // The codes of E107.
  const CLEAR := 0  // C is 0
  const SET := 1  // C is 1
  const INCREMENT := 2
  const DECREMENT := 3
  const SUBTRACT := 4
  const ADD := 5
  const ROTATE := 6
  const KEEP := 7

  // IR 15-12 and IR 11-6 of the instructions that load condition codes.
  function Double(ir: nat): nat { ir / 0x1000 % 16 }
  function Single(ir: nat): nat { ir / 0x40 % 64 }

  // Single operand instructions, 050 to 063 in octal.
  const CLR := 40
  const COM := 41
  const INC := 42
  const DEC := 43
  const NEG := 44
  const ADC := 45
  const SBC := 46
  const TST := 47
  const ASL := 51

  predicate IsSingle(ir: nat) { Double(ir) % 8 == 0 && CLR <= Single(ir) <= ASL }
  predicate IsDouble(ir: nat) { Double(ir) % 8 != 0 }
  predicate SetsCodes(ir: nat) { IsDouble(ir) || IsSingle(ir) }

  // The code that the instruction set calls for.
  function RightCode(ir: nat): nat {
    if IsDouble(ir) then
      if Double(ir) == 6 then ADD
      else if Double(ir) == 14 || Double(ir) % 8 == 2 then SUBTRACT
      else KEEP
    else if Single(ir) == CLR || Single(ir) == TST then CLEAR
    else if Single(ir) == COM then SET
    else if Single(ir) == INC then INCREMENT
    else if Single(ir) == DEC then DECREMENT
    else if Single(ir) == NEG || Single(ir) == SBC then SUBTRACT
    else if Single(ir) == ADC then ADD
    else ROTATE
  }

  // IR 15 makes a byte instruction, but not of SUB and of the floating point codes.
  predicate RightByte(ir: nat) {
    Double(ir) >= 8 && Double(ir) != 14 && Double(ir) != 15
  }

  /** The instructions by their codes: MOV, CMP, BIT, BIC, BIS and ADD with their byte forms,
      SUB, and from 0A00 on the single operand ones. The code of the condition codes and the
      operand size of each. */
  lemma Opcodes(ir: nat)
    requires ir < 0x1_0000
    ensures var low := ir % 0x8000;
      && (SetsCodes(ir) <==> low >= 0x1000 || 0xA00 <= low < 0xD00)
      && (0x6000 <= ir < 0x7000 ==> RightCode(ir) == ADD)
      && (0xE000 <= ir < 0xF000 ==> RightCode(ir) == SUBTRACT)
      && (0x2000 <= low < 0x3000 ==> RightCode(ir) == SUBTRACT)
      && (0x1000 <= low < 0x2000 || 0x3000 <= low < 0x6000 || low >= 0x7000 ==> RightCode(ir) == KEEP)
      && (0xA00 <= low < 0xA40 ==> RightCode(ir) == CLEAR) && (0xA40 <= low < 0xA80 ==> RightCode(ir) == SET)
      && (0xA80 <= low < 0xAC0 ==> RightCode(ir) == INCREMENT) && (0xAC0 <= low < 0xB00 ==> RightCode(ir) == DECREMENT)
      && (0xB00 <= low < 0xB40 ==> RightCode(ir) == SUBTRACT) && (0xB40 <= low < 0xB80 ==> RightCode(ir) == ADD)
      && (0xB80 <= low < 0xBC0 ==> RightCode(ir) == SUBTRACT) && (0xBC0 <= low < 0xC00 ==> RightCode(ir) == CLEAR)
      && (0xC00 <= low < 0xD00 ==> RightCode(ir) == ROTATE)
      && (RightByte(ir) <==> 0x8000 <= ir < 0xE000)
  {
    var (b, low) := (ir / 0x8000, ir % 0x8000);
    assert ir / 0x1000 == 8 * b + low / 0x1000;
    if low < 0x1000 { assert ir / 0x40 == 512 * b + low / 0x40; }
  }

  lemma E68Double(b15: bool, b14: bool, b13: bool, b12: bool, b10: bool, b9: bool, b8: bool, b7: bool, b6: bool)
    requires b14 || b13 || b12
    ensures E68(b15, b14, b13, b12, b10, b9, b8, b7, b6) ==
      (if !b15 && b14 && b13 && !b12 then 13
       else if b15 && b14 && b13 && !b12 then 12
       else if !b14 && b13 && !b12 then if b15 then 4 else 12
       else if b15 && !(b14 && b13 && b12) then 7 else 15)
  {}

  // In these instructions IR 9 is the opposite of IR 10.
  lemma E68Single(b15: bool, b10: bool, b8: bool, b7: bool, b6: bool)
    requires b10 ==> !b8
    ensures E68(b15, false, false, false, b10, !b10, b8, b7, b6) == 8 * Line(!b15) + SingleCode(b10, b8, b7, b6)
  {}

  function SingleCode(b10: bool, b8: bool, b7: bool, b6: bool): nat {
    if b10 then 6
    else if b8 then if b7 then if b6 then 0 else 4 else if b6 then 5 else 4
    else Line(b6) + 2 * Line(b7)
  }

  lemma DoubleIsRight(ir: nat, category: nat, b15: bool, b14: bool, b13: bool, b12: bool)
    requires Double(ir) == 8 * Line(b15) + 4 * Line(b14) + 2 * Line(b13) + Line(b12) && (b14 || b13 || b12)
    requires category ==
      (if !b15 && b14 && b13 && !b12 then 13
       else if b15 && b14 && b13 && !b12 then 12
       else if !b14 && b13 && !b12 then if b15 then 4 else 12
       else if b15 && !(b14 && b13 && b12) then 7 else 15)
    ensures CodeOf(category) == RightCode(ir) && (IsByte(category) <==> RightByte(ir))
  {}

  lemma E68IsRightDouble(ir: nat)
    requires IsDouble(ir)
    ensures CodeOf(Category(ir)) == RightCode(ir) && (IsByte(Category(ir)) <==> RightByte(ir))
  {
    DoubleBits(ir);
    E68Double(IrBit(ir, 0x8000), IrBit(ir, 0x4000), IrBit(ir, 0x2000), IrBit(ir, 0x1000),
              IrBit(ir, 0x400), IrBit(ir, 0x200), IrBit(ir, 0x100), IrBit(ir, 0x80), IrBit(ir, 0x40));
    DoubleIsRight(ir, Category(ir), IrBit(ir, 0x8000), IrBit(ir, 0x4000), IrBit(ir, 0x2000), IrBit(ir, 0x1000));
  }

  lemma SingleIsRight(ir: nat, category: nat, b15: bool, b10: bool, b8: bool, b7: bool, b6: bool)
    requires IsSingle(ir) && Double(ir) == 8 * Line(b15) && (b10 ==> !b8)
    requires Single(ir) == CLR + 8 * Line(b10) + 4 * Line(b8) + 2 * Line(b7) + Line(b6)
    requires category == 8 * Line(!b15) + SingleCode(b10, b8, b7, b6)
    ensures CodeOf(category) == RightCode(ir) && (IsByte(category) <==> RightByte(ir))
  {}

  lemma E68IsRightSingle(ir: nat)
    requires IsSingle(ir)
    ensures CodeOf(Category(ir)) == RightCode(ir) && (IsByte(Category(ir)) <==> RightByte(ir))
  {
    DoubleBits(ir);
    SingleBits(ir);
    E68Single(IrBit(ir, 0x8000), IrBit(ir, 0x400), IrBit(ir, 0x100), IrBit(ir, 0x80), IrBit(ir, 0x40));
    SingleIsRight(ir, Category(ir), IrBit(ir, 0x8000), IrBit(ir, 0x400), IrBit(ir, 0x100), IrBit(ir, 0x80), IrBit(ir, 0x40));
  }

  /** E68 gives the right code and the right operand size for every instruction that
      sets condition codes. */
  lemma E68IsRight(ir: nat)
    requires IsDouble(ir) || IsSingle(ir)
    ensures CodeOf(Category(ir)) == RightCode(ir) && (IsByte(Category(ir)) <==> RightByte(ir))
  {
    if IsDouble(ir) { E68IsRightDouble(ir); } else { E68IsRightSingle(ir); }
  }

  lemma DoubleBits(ir: nat)
    ensures Double(ir) == 8 * Line(IrBit(ir, 0x8000)) + 4 * Line(IrBit(ir, 0x4000)) + 2 * Line(IrBit(ir, 0x2000)) + Line(IrBit(ir, 0x1000))
  {
    var d := ir / 0x1000;
    assert ir / 0x2000 == d / 2 && ir / 0x4000 == d / 4 && ir / 0x8000 == d / 8;
    FourBits(d);
  }

  lemma FourBits(d: nat)
    ensures d % 16 == 8 * Line(d / 8 % 2 == 1) + 4 * Line(d / 4 % 2 == 1) + 2 * Line(d / 2 % 2 == 1) + Line(d % 2 == 1)
  {
    LowBitFirst(d, 8);
    LowBitFirst(d / 2, 4);
    LowBitFirst(d / 4, 2);
  }

  lemma LowBitFirst(d: nat, h: nat)
    requires h == 2 || h == 4 || h == 8
    ensures d % (2 * h) == 2 * (d / 2 % h) + Line(d % 2 == 1)
  {
    HalfRemainder(d, h);
  }

  lemma SingleBits(ir: nat)
    requires CLR <= Single(ir) <= ASL
    ensures IrBit(ir, 0x200) == !IrBit(ir, 0x400) && (IrBit(ir, 0x400) ==> !IrBit(ir, 0x100))
    ensures Single(ir) == CLR + 8 * Line(IrBit(ir, 0x400)) + 4 * Line(IrBit(ir, 0x100)) + 2 * Line(IrBit(ir, 0x80)) + Line(IrBit(ir, 0x40))
  {
    var d := ir / 0x40;
    SingleFields(ir, d);
    ShortBits(d, d / 64, d % 64);
  }

  lemma SingleFields(ir: nat, d: nat)
    requires d == ir / 0x40
    ensures IrBit(ir, 0x40) == OddBit(d) && IrBit(ir, 0x80) == OddBit(d / 2) && IrBit(ir, 0x100) == OddBit(d / 4)
    ensures IrBit(ir, 0x200) == OddBit(d / 8) && IrBit(ir, 0x400) == OddBit(d / 16)
  {
    assert ir / 0x80 == d / 2 && ir / 0x100 == d / 4 && ir / 0x200 == d / 8 && ir / 0x400 == d / 16;
  }

  predicate OddBit(x: nat) { x % 2 == 1 }

  lemma ShortBits(d: nat, k: nat, e: nat)
    requires d == 64 * k + e && CLR <= e <= ASL
    ensures OddBit(d / 8) == !OddBit(d / 16) && (OddBit(d / 16) ==> !OddBit(d / 4))
    ensures e == CLR + 8 * Line(OddBit(d / 16)) + 4 * Line(OddBit(d / 4)) + 2 * Line(OddBit(d / 2)) + Line(OddBit(d))
  {
    SameParity(d, 32 * k, e);
    SameParity(d / 2, 16 * k, e / 2);
    SameParity(d / 4, 8 * k, e / 4);
    SameParity(d / 8, 4 * k, e / 8);
    SameParity(d / 16, 2 * k, e / 16);
    TwelveValues(e);
  }

  lemma TwelveValues(e: nat)
    requires CLR <= e <= ASL
    ensures OddBit(e / 8) == !OddBit(e / 16) && (OddBit(e / 16) ==> !OddBit(e / 4))
    ensures e == CLR + 8 * Line(OddBit(e / 16)) + 4 * Line(OddBit(e / 4)) + 2 * Line(OddBit(e / 2)) + Line(OddBit(e))
  {}

  lemma SameParity(d: nat, k: nat, e: nat)
    requires d == 2 * k + e
    ensures d % 2 == e % 2 && d / 2 == k + e / 2
  {}

  // ----- E107 -----

  // C and V as rules over the signs of the result, of both legs, and the code.
  predicate RuleC(r: bool, s: bool, d: bool, rot: bool, c: bool, code2: bool, code1: bool, code0: bool) {
    if code1 then if code2 && !code0 then rot else c
    else if !code2 then code0
    else if code0 then if s == d then s else !r
    else if s == d then r else d
  }

  predicate RuleV(r: bool, s: bool, d: bool, rot: bool, code2: bool, code1: bool, code0: bool) {
    if code2 then if code1 then !code0 && r != rot else r != s && (code0 <==> s == d)
    else code1 && (if code0 then !r && s else r && !s)
  }

  lemma E107Value(r: bool, s: bool, d: bool, rot: bool, c: bool, code2: bool, code1: bool, code0: bool)
    ensures E107(r, s, d, rot, c, code2, code1, code0) ==
      8 * Line(RuleV(r, s, d, rot, code2, code1, code0)) + 4 * Line(RuleC(r, s, d, rot, c, code2, code1, code0))
  {}

  lemma OutputBits(d: nat, v: bool, c: bool)
    requires d == 8 * Line(v) + 4 * Line(c)
    ensures (d / 8 % 2 == 1 <==> v) && (d / 4 % 2 == 1 <==> c)
  {}

  lemma E107Bits(r: bool, s: bool, d: bool, rot: bool, c: bool, code2: bool, code1: bool, code0: bool)
    ensures var e := E107(r, s, d, rot, c, code2, code1, code0);
      && (e / 8 % 2 == 1 <==> RuleV(r, s, d, rot, code2, code1, code0))
      && (e / 4 % 2 == 1 <==> RuleC(r, s, d, rot, c, code2, code1, code0))
  {
    E107Value(r, s, d, rot, c, code2, code1, code0);
    OutputBits(E107(r, s, d, rot, c, code2, code1, code0),
      RuleV(r, s, d, rot, code2, code1, code0), RuleC(r, s, d, rot, c, code2, code1, code0));
  }

  // The flags that the rules give for a code.
  function ByRules(code: nat, a: nat, b: nat, r: nat, rot: bool, cbit: bool, byte: bool): Flags {
    var (rn, an, bn) := (Negative(r, byte), Negative(a, byte), Negative(b, byte));
    Flags(rn, r % Width(byte) == 0, RuleV(rn, an, bn, rot, code >= 4, code / 2 % 2 == 1, code % 2 == 1),
          RuleC(rn, an, bn, rot, cbit, code >= 4, code / 2 % 2 == 1, code % 2 == 1))
  }

  // The flags of an instruction by the rules.
  lemma FlagsFollowRules(ir: nat, a: nat, b: nat, r: nat, rot: bool, cbit: bool)
    requires SetsCodes(ir)
    ensures LoadCc(ir, a, b, r, rot, cbit) == ByRules(RightCode(ir), a, b, r, rot, cbit, RightByte(ir))
  {
    E68IsRight(ir);
    FlagsOfCode(Category(ir), RightCode(ir), RightByte(ir), a, b, r, rot, cbit);
  }

  lemma FlagsOfCode(category: nat, code: nat, byte: bool, a: nat, b: nat, r: nat, rot: bool, cbit: bool)
    requires CodeOf(category) == code && (IsByte(category) <==> byte)
    ensures FlagsFrom(category, a, b, r, rot, cbit) == ByRules(code, a, b, r, rot, cbit, byte)
  {
    E107Bits(Negative(r, byte), Negative(a, byte), Negative(b, byte), rot, cbit,
      code / 4 % 2 == 1, code / 2 % 2 == 1, code % 2 == 1);
  }

  // ----- The flags are the truth -----

  // x as a two's complement number of the operand size.
  function Signed(x: nat, byte: bool): int {
    var w := Width(byte);
    var y := x % w;
    if y >= w / 2 then y - w else y
  }

  predicate Fits(x: int, byte: bool) {
    var half := Width(byte) / 2;
    -half <= x < half
  }

  // y as a two's complement number of h * 2 values.
  function SignedOf(y: nat, h: int): int { if y >= h then y - 2 * h else y }

  lemma OnceOver(x: int, byte: bool)
    requires 0 <= x + Width(byte) && x < 2 * Width(byte)
    ensures x % Width(byte) == if x < 0 then x + Width(byte) else if x < Width(byte) then x else x - Width(byte)
  {}

  lemma AddOnHalf(x: nat, y: nat, c: nat, s: nat, h: int)
    requires x < 2 * h && y < 2 * h && c <= 1 && s < 2 * h && s == x + y + c - if x + y + c >= 2 * h then 2 * h else 0
    ensures RuleC(s >= h, x >= h, y >= h, false, false, true, false, true) <==> x + y + c >= 2 * h
    ensures RuleV(s >= h, x >= h, y >= h, false, true, false, true) <==> !(-h <= SignedOf(x, h) + SignedOf(y, h) + c < h)
  {}

  lemma SubtractOnHalf(x: nat, y: nat, c: nat, s: nat, h: int)
    requires x < 2 * h && y < 2 * h && c <= 1 && s < 2 * h && s == x - y - c + if x < y + c then 2 * h else 0
    ensures RuleC(s >= h, x >= h, y >= h, false, false, true, false, false) <==> x < y + c
    ensures RuleV(s >= h, x >= h, y >= h, false, true, false, false) <==> !(-h <= SignedOf(x, h) - SignedOf(y, h) - c < h)
  {}

  lemma AddRule(a: nat, b: nat, cin: nat, r: nat, byte: bool)
    requires cin <= 1 && r % Width(byte) == (a % Width(byte) + b % Width(byte) + cin) % Width(byte)
    ensures var (rn, an, bn) := (Negative(r, byte), Negative(a, byte), Negative(b, byte));
      && (RuleC(rn, an, bn, false, false, true, false, true) <==> a % Width(byte) + b % Width(byte) + cin >= Width(byte))
      && (RuleV(rn, an, bn, false, true, false, true) <==> !Fits(Signed(a, byte) + Signed(b, byte) + cin, byte))
  {
    NegativeIsHigh(r, byte);
    NegativeIsHigh(a, byte);
    NegativeIsHigh(b, byte);
    var (w, x, y, s) := (Width(byte), a % Width(byte), b % Width(byte), r % Width(byte));
    OnceOver(x + y + cin, byte);
    AddOnHalf(x, y, cin, s, w / 2);
  }

  lemma NegativeIsHigh(x: nat, byte: bool)
    ensures Negative(x, byte) <==> x % Width(byte) >= Width(byte) / 2
    ensures Negative(x, byte) <==> Signed(x, byte) < 0
    ensures Signed(x, byte) == SignedOf(x % Width(byte), Width(byte) / 2)
  {
    TopBit(x, Width(byte) / 2);
  }

  lemma TopBit(x: nat, h: nat)
    requires h > 0
    ensures x / h % 2 == 1 <==> x % (2 * h) >= h
  {
    var (q, y) := (x / (2 * h), x % (2 * h));
    var k := if y < h then 2 * q else 2 * q + 1;
    Halfway(x, h, q, y, k);
    RemainderIs(x, h, k, if y < h then y else y - h);
  }

  lemma Halfway(x: nat, h: nat, q: nat, y: nat, k: nat)
    requires x == q * (2 * h) + y && k == (if y < h then 2 * q else 2 * q + 1)
    ensures x == k * h + (if y < h then y else y - h)
  {
    assert q * (2 * h) == (2 * q) * h && (2 * q + 1) * h == (2 * q) * h + h;
  }

  lemma SubtractRule(a: nat, b: nat, borrow: nat, r: nat, byte: bool)
    requires borrow <= 1 && r % Width(byte) == (a % Width(byte) - b % Width(byte) - borrow) % Width(byte)
    ensures var (rn, an, bn) := (Negative(r, byte), Negative(a, byte), Negative(b, byte));
      && (RuleC(rn, an, bn, false, false, true, false, false) <==> a % Width(byte) < b % Width(byte) + borrow)
      && (RuleV(rn, an, bn, false, true, false, false) <==> !Fits(Signed(a, byte) - Signed(b, byte) - borrow, byte))
  {
    NegativeIsHigh(r, byte);
    NegativeIsHigh(a, byte);
    NegativeIsHigh(b, byte);
    var (w, x, y, s) := (Width(byte), a % Width(byte), b % Width(byte), r % Width(byte));
    OnceOver(x - y - borrow, byte);
    SubtractOnHalf(x, y, borrow, s, w / 2);
  }

  lemma CountRule(a: nat, r: nat, down: bool, byte: bool)
    requires r % Width(byte) == (if down then a % Width(byte) - 1 else a % Width(byte) + 1) % Width(byte)
    ensures RuleV(Negative(r, byte), Negative(a, byte), false, false, false, true, down) <==>
      !Fits(Signed(a, byte) + (if down then -1 else 1), byte)
  {
    NegativeIsHigh(r, byte);
    NegativeIsHigh(a, byte);
  }

  // The result of the ALU modulo the operand size.
  lemma SumModulo(x: int, byte: bool)
    ensures x % 0x1_0000 % Width(byte) == x % Width(byte)
  {
    TimesAround(x % 0x1_0000, x / 0x1_0000 * (if byte then 0x100 else 1), byte);
  }

  lemma ModuloOfParts(a: int, b: int, c: int, byte: bool)
    ensures var w := Width(byte); (a + b + c) % w == (a % w + b % w + c) % w && (a - b - c) % w == (a % w - b % w - c) % w
  {
    var w := Width(byte);
    TimesAround(a % w + b % w + c, a / w + b / w, byte);
    TimesAround(a % w - b % w - c, a / w - b / w, byte);
  }

  lemma TimesAround(x: int, k: int, byte: bool)
    ensures (x + k * Width(byte)) % Width(byte) == x % Width(byte)
  {}

  lemma AluAdds(a: nat, b: nat, cin: bool)
    requires a < 0x1_0000 && b < 0x1_0000
    ensures Alu.Result(a, b, 9, cin) == (a + b + Line(cin)) % 0x1_0000
  {}

  lemma AluSubtracts(a: nat, b: nat, borrow: bool)
    requires a < 0x1_0000 && b < 0x1_0000
    ensures Alu.Result(a, b, 6, !borrow) == (a - b - Line(borrow)) % 0x1_0000
  {
    Alu.Minus(a, b, !borrow, 0x1_0000);
    OnceAround(a - b - Line(borrow));
  }

  lemma OnceAround(x: int)
    ensures (x + 0x1_0000) % 0x1_0000 == x % 0x1_0000
  {}

  lemma AluIncrements(a: nat, b: nat)
    requires a < 0x1_0000
    ensures Alu.Result(a, b, 0, true) == (a + 1) % 0x1_0000
  {}

  lemma AluDecrements(a: nat, b: nat)
    requires a < 0x1_0000
    ensures Alu.Result(a, b, 15, false) == (a - 1) % 0x1_0000
  {
    OnceAround(a - 1);
  }

  // N and Z of a result that is x modulo the operand size.
  lemma SignAndZero(x: int, r: nat, byte: bool)
    requires r == x % 0x1_0000
    ensures r % Width(byte) == x % Width(byte) && (Negative(r, byte) <==> x % Width(byte) >= Width(byte) / 2)
  {
    SumModulo(x, byte);
    NegativeIsHigh(r, byte);
  }

  // All flags are those of the true value x on the operand size, with carry c.
  predicate Truth(f: Flags, x: int, signed: int, carry: bool, byte: bool) {
    && (f.n <==> x % Width(byte) >= Width(byte) / 2)
    && (f.z <==> x % Width(byte) == 0)
    && (f.v <==> !Fits(signed, byte))
    && f.c == carry
  }

  lemma AddFlags(a: nat, b: nat, c: nat, r: nat, rot: bool, cbit: bool, byte: bool)
    requires c <= 1 && r == (a + b + c) % 0x1_0000
    ensures var w := Width(byte);
      Truth(ByRules(ADD, a, b, r, rot, cbit, byte), a + b + c, Signed(a, byte) + Signed(b, byte) + c, a % w + b % w + c >= w, byte)
  {
    SignAndZero(a + b + c, r, byte);
    ModuloOfParts(a, b, c, byte);
    AddRule(a, b, c, r, byte);
  }

  lemma SubtractFlags(a: nat, b: nat, c: nat, r: nat, rot: bool, cbit: bool, byte: bool)
    requires c <= 1 && r == (a - b - c) % 0x1_0000
    ensures var w := Width(byte);
      Truth(ByRules(SUBTRACT, a, b, r, rot, cbit, byte), a - b - c, Signed(a, byte) - Signed(b, byte) - c, a % w < b % w + c, byte)
  {
    SignAndZero(a - b - c, r, byte);
    ModuloOfParts(a, b, c, byte);
    SubtractRule(a, b, c, r, byte);
  }

  lemma IncrementFlags(a: nat, b: nat, r: nat, rot: bool, cbit: bool, byte: bool)
    requires r == (a + 1) % 0x1_0000
    ensures Truth(ByRules(INCREMENT, a, b, r, rot, cbit, byte), a + 1, Signed(a, byte) + 1, cbit, byte)
  {
    SignAndZero(a + 1, r, byte);
    ModuloOfParts(a, 0, 1, byte);
    CountRule(a, r, false, byte);
  }

  lemma DecrementFlags(a: nat, b: nat, r: nat, rot: bool, cbit: bool, byte: bool)
    requires r == (a - 1) % 0x1_0000
    ensures Truth(ByRules(DECREMENT, a, b, r, rot, cbit, byte), a - 1, Signed(a, byte) - 1, cbit, byte)
  {
    SignAndZero(a - 1, r, byte);
    ModuloOfParts(a, 0, 1, byte);
    CountRule(a, r, true, byte);
  }

  /** ADD, and ADC or ADCB with the carry in: C is the carry out, V the signed overflow of
      the true sum. */
  lemma AddIsExact(ir: nat, a: nat, b: nat, cin: bool, rot: bool, cbit: bool)
    requires SetsCodes(ir) && RightCode(ir) == ADD && a < 0x1_0000 && b < 0x1_0000
    ensures var (byte, w, c) := (RightByte(ir), Width(RightByte(ir)), Line(cin));
      Truth(LoadCc(ir, a, b, Alu.Result(a, b, 9, cin), rot, cbit),
            a + b + c, Signed(a, byte) + Signed(b, byte) + c, a % w + b % w + c >= w, byte)
  {
    var r := Alu.Result(a, b, 9, cin);
    FlagsFollowRules(ir, a, b, r, rot, cbit);
    AluAdds(a, b, cin);
    AddFlags(a, b, Line(cin), r, rot, cbit, RightByte(ir));
  }

  /** SUB, CMP, NEG and SBC: C is the borrow, V the signed overflow of the true
      difference. */
  lemma SubtractIsExact(ir: nat, a: nat, b: nat, borrow: bool, rot: bool, cbit: bool)
    requires SetsCodes(ir) && RightCode(ir) == SUBTRACT && a < 0x1_0000 && b < 0x1_0000
    ensures var (byte, w, c) := (RightByte(ir), Width(RightByte(ir)), Line(borrow));
      Truth(LoadCc(ir, a, b, Alu.Result(a, b, 6, !borrow), rot, cbit),
            a - b - c, Signed(a, byte) - Signed(b, byte) - c, a % w < b % w + c, byte)
  {
    var r := Alu.Result(a, b, 6, !borrow);
    FlagsFollowRules(ir, a, b, r, rot, cbit);
    AluSubtracts(a, b, borrow);
    SubtractFlags(a, b, Line(borrow), r, rot, cbit, RightByte(ir));
  }

  /** INC keeps C, and V is the signed wrap of the true count. */
  lemma IncrementIsExact(ir: nat, a: nat, b: nat, rot: bool, cbit: bool)
    requires SetsCodes(ir) && RightCode(ir) == INCREMENT && a < 0x1_0000
    ensures var byte := RightByte(ir);
      Truth(LoadCc(ir, a, b, Alu.Result(a, b, 0, true), rot, cbit), a + 1, Signed(a, byte) + 1, cbit, byte)
  {
    var r := Alu.Result(a, b, 0, true);
    FlagsFollowRules(ir, a, b, r, rot, cbit);
    AluIncrements(a, b);
    IncrementFlags(a, b, r, rot, cbit, RightByte(ir));
  }

  /** DEC keeps C, and V is the signed wrap of the true count. */
  lemma DecrementIsExact(ir: nat, a: nat, b: nat, rot: bool, cbit: bool)
    requires SetsCodes(ir) && RightCode(ir) == DECREMENT && a < 0x1_0000
    ensures var byte := RightByte(ir);
      Truth(LoadCc(ir, a, b, Alu.Result(a, b, 15, false), rot, cbit), a - 1, Signed(a, byte) - 1, cbit, byte)
  {
    AluDecrements(a, b);
    DecrementBy(ir, a, b, Alu.Result(a, b, 15, false), rot, cbit);
  }

  lemma DecrementBy(ir: nat, a: nat, b: nat, r: nat, rot: bool, cbit: bool)
    requires SetsCodes(ir) && RightCode(ir) == DECREMENT && r == (a - 1) % 0x1_0000
    ensures var byte := RightByte(ir); Truth(LoadCc(ir, a, b, r, rot, cbit), a - 1, Signed(a, byte) - 1, cbit, byte)
  {
    FlagsFollowRules(ir, a, b, r, rot, cbit);
    DecrementFlags(a, b, r, rot, cbit, RightByte(ir));
  }

  lemma OtherRules(code: nat, a: nat, b: nat, r: nat, rot: bool, cbit: bool, byte: bool)
    requires code in {CLEAR, SET, ROTATE, KEEP}
    ensures var f := ByRules(code, a, b, r, rot, cbit, byte);
      && (f.n <==> Signed(r, byte) < 0) && (f.z <==> Signed(r, byte) == 0)
      && f.c == (if code == ROTATE then rot else if code == KEEP then cbit else code == SET)
      && f.v == (code == ROTATE && f.n != f.c)
  {
    NegativeIsHigh(r, byte);
  }

  /** A rotate or shift takes C from ROT CBIT and sets V to N xor C. CLR, TST and COM
      have a constant C, the other instructions keep it, and all of these clear V. */
  lemma OtherFlags(ir: nat, a: nat, b: nat, r: nat, rot: bool, cbit: bool)
    requires SetsCodes(ir) && RightCode(ir) in {CLEAR, SET, ROTATE, KEEP}
    ensures var (f, byte) := (LoadCc(ir, a, b, r, rot, cbit), RightByte(ir));
      && (f.n <==> Signed(r, byte) < 0) && (f.z <==> Signed(r, byte) == 0)
      && f.c == (if RightCode(ir) == ROTATE then rot else if RightCode(ir) == KEEP then cbit else RightCode(ir) == SET)
      && f.v == (RightCode(ir) == ROTATE && f.n != f.c)
  {
    FlagsFollowRules(ir, a, b, r, rot, cbit);
    OtherRules(RightCode(ir), a, b, r, rot, cbit, RightByte(ir));
  }
}
