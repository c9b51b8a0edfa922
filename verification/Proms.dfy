/**
 Images of the PROMs that the model decodes, with their address lines as wired on
 the KD11-EA. A row holds the sixteen cells of one setting of the lines A4 up.
 */
module Proms {

  datatype Cells = Cells(
    c0: nat, c1: nat, c2: nat, c3: nat, c4: nat, c5: nat, c6: nat, c7: nat,
    c8: nat, c9: nat, c10: nat, c11: nat, c12: nat, c13: nat, c14: nat, c15: nat)
  {
    function At(i: nat): nat
      requires i < 16
    {
      match i
      case 0 => c0
      case 1 => c1
      case 2 => c2
      case 3 => c3
      case 4 => c4
      case 5 => c5
      case 6 => c6
      case 7 => c7
      case 8 => c8
      case 9 => c9
      case 10 => c10
      case 11 => c11
      case 12 => c12
      case 13 => c13
      case 14 => c14
      case _ => c15
    }
  }

  function Line(b: bool): nat {
    if b then 1 else 0
  }

  // Four address lines, lowest first.
  function Lines(a0: bool, a1: bool, a2: bool, a3: bool): (i: nat)
    ensures i < 16
  {
    Line(a0) + 2 * Line(a1) + 4 * Line(a2) + 8 * Line(a3)
  }

  // E29 (K2-2), bus request arbitration.
  function E29Row(row: nat): Cells
    requires row < 16
  {
    match row
    case 0 => Cells(0, 0, 0, 0, 0, 0, 0, 0, 1, 1, 1, 0, 0, 0, 0, 0)
    case 1 => Cells(4, 0, 4, 0, 0, 0, 0, 0, 1, 1, 1, 0, 0, 0, 0, 0)
    case 2 => Cells(2, 2, 2, 2, 0, 0, 0, 0, 2, 2, 2, 2, 0, 0, 0, 0)
    case 3 => Cells(2, 2, 2, 2, 0, 0, 0, 0, 2, 2, 2, 2, 0, 0, 0, 0)
    case 4 => Cells(8, 8, 8, 0, 0, 0, 0, 0, 1, 1, 1, 0, 0, 0, 0, 0)
    case 5 => Cells(8, 8, 8, 0, 0, 0, 0, 0, 1, 1, 1, 0, 0, 0, 0, 0)
    case 6 => Cells(2, 2, 2, 2, 0, 0, 0, 0, 2, 2, 2, 2, 0, 0, 0, 0)
    case 7 => Cells(2, 2, 2, 2, 0, 0, 0, 0, 2, 2, 2, 2, 0, 0, 0, 0)
    case 8 => Cells(0, 0, 0, 0, 0, 0, 0, 0, 1, 1, 1, 0, 0, 0, 0, 0)
    case 9 => Cells(4, 0, 4, 0, 0, 0, 0, 0, 1, 1, 1, 0, 0, 0, 0, 0)
    case 10 => Cells(2, 2, 2, 0, 0, 0, 0, 0, 2, 2, 2, 0, 0, 0, 0, 0)
    case 11 => Cells(2, 2, 2, 0, 0, 0, 0, 0, 2, 2, 2, 0, 0, 0, 0, 0)
    case 12 => Cells(8, 0, 8, 0, 0, 0, 0, 0, 1, 1, 1, 0, 0, 0, 0, 0)
    case 13 => Cells(8, 0, 8, 0, 0, 0, 0, 0, 1, 1, 1, 0, 0, 0, 0, 0)
    case 14 => Cells(2, 2, 2, 0, 0, 0, 0, 0, 2, 2, 2, 0, 0, 0, 0, 0)
    case _ => Cells(2, 2, 2, 0, 0, 0, 0, 0, 2, 2, 2, 0, 0, 0, 0, 0)
  }

  // Lines A0 up: PSW07 PSW06 HALT BR6, BR4 BR7 BR5 PSW05.
  function E29(psw7: bool, psw6: bool, psw5: bool, halt: bool, br7: bool, br6: bool, br5: bool, br4: bool): nat {
    E29Row(Lines(br4, br7, br5, psw5)).At(Lines(psw7, psw6, halt, br6))
  }

  // E83 (K1-8), memory management aborts.
  function E83Row(row: nat): Cells
    requires row < 16
  {
    match row
    case 0 => Cells(0, 0, 0, 0, 0, 0, 0, 0, 0, 0, 0, 0, 0, 0, 0, 0)
    case 1 => Cells(0, 0, 0, 0, 0, 0, 0, 0, 0, 0, 0, 0, 0, 0, 0, 0)
    case 2 => Cells(1, 3, 3, 1, 0, 2, 2, 0, 1, 3, 3, 1, 0, 2, 2, 0)
    case 3 => Cells(1, 3, 3, 1, 1, 3, 3, 1, 1, 3, 3, 1, 1, 3, 3, 1)
    case 4 => Cells(0, 0, 0, 0, 4, 4, 4, 4, 0, 0, 0, 0, 0, 0, 0, 0)
    case 5 => Cells(0, 0, 0, 0, 4, 4, 4, 4, 0, 0, 0, 0, 0, 0, 0, 0)
    case 6 => Cells(1, 3, 3, 1, 4, 6, 6, 4, 1, 3, 3, 1, 0, 2, 2, 0)
    case 7 => Cells(1, 3, 3, 1, 5, 7, 7, 5, 1, 3, 3, 1, 1, 3, 3, 1)
    case 8 => Cells(0, 0, 0, 0, 0, 0, 0, 0, 0, 0, 0, 0, 0, 0, 0, 0)
    case 9 => Cells(0, 0, 0, 0, 0, 0, 0, 0, 0, 0, 0, 0, 0, 0, 0, 0)
    case 10 => Cells(1, 3, 3, 1, 4, 6, 6, 4, 1, 3, 3, 1, 0, 2, 2, 0)
    case 11 => Cells(1, 3, 3, 1, 5, 7, 7, 5, 1, 3, 3, 1, 1, 3, 3, 1)
    case 12 => Cells(0, 0, 0, 0, 0, 0, 0, 0, 0, 0, 0, 0, 0, 0, 0, 0)
    case 13 => Cells(0, 0, 0, 0, 0, 0, 0, 0, 0, 0, 0, 0, 0, 0, 0, 0)
    case 14 => Cells(1, 3, 3, 1, 4, 6, 6, 4, 1, 3, 3, 1, 0, 2, 2, 0)
    case _ => Cells(1, 3, 3, 1, 5, 7, 7, 5, 1, 3, 3, 1, 1, 3, 3, 1)
  }

  // Lines A0 up: ED COMPARE ACF1 ACF2, ILLEGAL-MODE DISABLE-MSYN-L C0 C1.
  function E83(c1: bool, c0: bool, disableMsynL: bool, illegalMode: bool, acf1: bool, acf0: bool, compare: bool, ed: bool): nat {
    E83Row(Lines(illegalMode, disableMsynL, c0, c1)).At(Lines(ed, compare, acf0, acf1))
  }

  // E107 (K1-10), carry and overflow.
  function E107Row(row: nat): Cells
    requires row < 16
  {
    match row
    case 0 => Cells(0, 4, 0, 0, 0, 0, 0, 0, 0, 4, 4, 4, 0, 0, 0, 4)
    case 1 => Cells(0, 4, 0, 0, 0, 0, 12, 0, 0, 4, 4, 4, 0, 0, 12, 4)
    case 2 => Cells(0, 4, 0, 0, 4, 4, 0, 0, 0, 4, 4, 4, 4, 4, 0, 4)
    case 3 => Cells(0, 4, 0, 0, 4, 4, 12, 0, 0, 4, 4, 4, 4, 4, 12, 4)
    case 4 => Cells(0, 4, 0, 8, 8, 4, 0, 0, 0, 4, 4, 12, 8, 4, 0, 4)
    case 5 => Cells(0, 4, 0, 8, 8, 4, 12, 0, 0, 4, 4, 12, 8, 4, 12, 4)
    case 6 => Cells(0, 4, 0, 8, 0, 12, 0, 0, 0, 4, 4, 12, 0, 12, 0, 4)
    case 7 => Cells(0, 4, 0, 8, 0, 12, 12, 0, 0, 4, 4, 12, 0, 12, 12, 4)
    case 8 => Cells(0, 4, 8, 0, 4, 8, 8, 0, 0, 4, 12, 4, 4, 8, 8, 4)
    case 9 => Cells(0, 4, 8, 0, 4, 8, 4, 0, 0, 4, 12, 4, 4, 8, 4, 4)
    case 10 => Cells(0, 4, 8, 0, 12, 0, 8, 0, 0, 4, 12, 4, 12, 0, 8, 4)
    case 11 => Cells(0, 4, 8, 0, 12, 0, 4, 0, 0, 4, 12, 4, 12, 0, 4, 4)
    case 12 => Cells(0, 4, 0, 0, 0, 0, 8, 0, 0, 4, 4, 4, 0, 0, 8, 4)
    case 13 => Cells(0, 4, 0, 0, 0, 0, 4, 0, 0, 4, 4, 4, 0, 0, 4, 4)
    case 14 => Cells(0, 4, 0, 0, 4, 4, 8, 0, 0, 4, 4, 4, 4, 4, 8, 4)
    case _ => Cells(0, 4, 0, 0, 4, 4, 4, 0, 0, 4, 4, 4, 4, 4, 4, 4)
  }

  // Lines A0 up: CC-CODE 0 1 2, C BIT, ROT CBIT, and the signs of D, S and R.
  function E107(r: bool, s: bool, d: bool, rot: bool, c: bool, code2: bool, code1: bool, code0: bool): nat {
    E107Row(Lines(rot, d, s, r)).At(Lines(code0, code1, code2, c))
  }

  // E68 (K2-5), condition code category of an instruction.
  function E68Row(row: nat): Cells
    requires row < 32
  {
    match row
    case 0 => Cells(15, 15, 8, 15, 14, 15, 15, 15, 15, 15, 10, 15, 14, 15, 15, 15)
    case 1 => Cells(15, 15, 9, 15, 14, 15, 15, 15, 0, 15, 11, 15, 14, 15, 15, 15)
    case 2 => Cells(15, 15, 15, 15, 15, 15, 15, 15, 15, 15, 15, 15, 15, 15, 15, 15)
    case 3 => Cells(15, 15, 15, 15, 15, 15, 15, 15, 15, 15, 15, 15, 15, 15, 15, 15)
    case 4 => Cells(15, 7, 0, 7, 6, 7, 7, 7, 15, 7, 2, 7, 6, 7, 7, 7)
    case 5 => Cells(15, 7, 1, 7, 6, 7, 7, 7, 15, 7, 3, 7, 6, 7, 7, 7)
    case 6 => Cells(7, 7, 7, 7, 7, 7, 7, 7, 7, 7, 7, 7, 7, 7, 7, 7)
    case 7 => Cells(7, 7, 7, 7, 7, 7, 7, 7, 7, 7, 7, 7, 7, 7, 7, 7)
    case 8 => Cells(12, 15, 12, 15, 12, 15, 12, 15, 12, 15, 12, 15, 12, 15, 12, 15)
    case 9 => Cells(12, 15, 12, 15, 12, 15, 12, 15, 12, 15, 12, 15, 12, 15, 12, 15)
    case 10 => Cells(13, 15, 13, 15, 13, 15, 13, 15, 13, 15, 13, 15, 13, 15, 13, 15)
    case 11 => Cells(13, 15, 13, 15, 13, 15, 13, 15, 13, 15, 13, 15, 13, 15, 13, 15)
    case 12 => Cells(4, 7, 4, 7, 4, 7, 4, 7, 4, 7, 4, 7, 4, 7, 4, 7)
    case 13 => Cells(4, 7, 4, 7, 4, 7, 4, 7, 4, 7, 4, 7, 4, 7, 4, 7)
    case 14 => Cells(12, 15, 12, 15, 12, 15, 12, 15, 12, 15, 12, 15, 12, 15, 12, 15)
    case 15 => Cells(12, 15, 12, 15, 12, 15, 12, 15, 12, 15, 12, 15, 12, 15, 12, 15)
    case 16 => Cells(15, 15, 12, 15, 15, 15, 15, 15, 15, 15, 12, 15, 15, 15, 15, 15)
    case 17 => Cells(15, 15, 13, 15, 15, 15, 15, 15, 15, 15, 8, 15, 15, 15, 15, 15)
    case 18 => Cells(15, 15, 15, 15, 15, 15, 15, 15, 15, 15, 15, 15, 15, 15, 15, 15)
    case 19 => Cells(15, 15, 15, 15, 15, 15, 15, 15, 15, 15, 15, 15, 15, 15, 15, 15)
    case 20 => Cells(15, 7, 4, 7, 7, 7, 7, 7, 15, 7, 4, 7, 15, 7, 7, 7)
    case 21 => Cells(15, 7, 5, 7, 15, 7, 7, 7, 15, 7, 0, 7, 7, 7, 7, 7)
    case 22 => Cells(7, 7, 7, 7, 7, 7, 7, 7, 7, 7, 7, 7, 7, 7, 7, 7)
    case 23 => Cells(7, 7, 7, 7, 7, 7, 7, 7, 7, 7, 7, 7, 7, 7, 7, 7)
    case 24 => Cells(12, 15, 12, 15, 12, 15, 12, 15, 12, 15, 12, 15, 12, 15, 12, 15)
    case 25 => Cells(12, 15, 12, 15, 12, 15, 12, 15, 12, 15, 12, 15, 12, 15, 12, 15)
    case 26 => Cells(13, 15, 13, 15, 13, 15, 13, 15, 13, 15, 13, 15, 13, 15, 13, 15)
    case 27 => Cells(13, 15, 13, 15, 13, 15, 13, 15, 13, 15, 13, 15, 13, 15, 13, 15)
    case 28 => Cells(4, 7, 4, 7, 4, 7, 4, 7, 4, 7, 4, 7, 4, 7, 4, 7)
    case 29 => Cells(4, 7, 4, 7, 4, 7, 4, 7, 4, 7, 4, 7, 4, 7, 4, 7)
    case 30 => Cells(12, 15, 12, 15, 12, 15, 12, 15, 12, 15, 12, 15, 12, 15, 12, 15)
    case _ => Cells(12, 15, 12, 15, 12, 15, 12, 15, 12, 15, 12, 15, 12, 15, 12, 15)
  }

  // Lines A0 up: IR12 IR09 IR10 IR07, IR06 IR14 IR15 IR13 IR08.
  function E68(ir15: bool, ir14: bool, ir13: bool, ir12: bool, ir10: bool, ir9: bool, ir8: bool, ir7: bool, ir6: bool): nat {
    E68Row(Lines(ir6, ir14, ir15, ir13) + 16 * Line(ir8)).At(Lines(ir12, ir9, ir10, ir7))
  }
}
