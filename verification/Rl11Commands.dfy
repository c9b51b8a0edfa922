/**
 What each command of the RL11 comes to: its errors, the status word, the position of the
 drive and the end of a write check, told from the registers and the drive alone.
 */
module Rl11Commands {
  import opened Bits
  import opened Bytes
  import opened DiskTransfer
  import opened Rl11

  /** Every command ends ready, and interrupts exactly if IE is set. */
  lemma EveryCommandEnds(r: Regs, u: Unit, mem: seq<nat>)
    requires r.Valid() && u.cyl < Cylinders(u.rl02) && u.head < 2
    ensures var o := Go(r, u, mem);
      o.regs.cs.ready && o.interrupt == r.cs.ie == o.regs.cs.ie && (o.regs.cs.err <==> o.regs.cs.faults != {})
  {
    if IsTransfer(r.cs.func) && Moves(r, u) { ZeroResidue(r, u, mem); }
  }

  /** Without a disk every command but NOP ends with INCMP and DRE and marks a select
      error. */
  lemma NoDisk(r: Regs, u: Unit, mem: seq<nat>)
    requires r.Valid() && u.cyl < Cylinders(u.rl02) && u.head < 2 && !u.attached
    ensures var o := Go(r, u, mem);
      && o.mem == mem && o.regs.ba == r.ba && o.regs.da == r.da && o.regs.mp == r.mp
      && o.regs.cs.faults == (if r.cs.func.Nop? then {} else {Incomplete, DriveError})
      && o.unit == if r.cs.func.Nop? then u else u.(status := u.status + {SelectError})
  {}

  /** A transfer to a sector from 40 on, or to a cylinder that the drive does not have, ends
      with INCMP and DRE, and a write to a locked drive with DRE and a write gate error.
      Nothing moves. All other transfers start. */
  lemma TransferErrors(r: Regs, u: Unit, mem: seq<nat>)
    requires r.Valid() && u.cyl < Cylinders(u.rl02) && u.head < 2 && u.attached && IsTransfer(r.cs.func)
    ensures var o := Go(r, u, mem);
      var outside := r.da % 64 >= 40 || r.da / 128 >= if u.rl02 then 512 else 256;
      && (outside || (r.cs.func.Write? && u.readOnly) ==>
            && o.mem == mem && o.unit.image == u.image && o.unit.cyl == u.cyl && o.unit.head == u.head
            && o.regs.ba == r.ba && o.regs.da == r.da && o.regs.mp == r.mp)
      && (outside ==> o.regs.cs.faults == {Incomplete, DriveError} && o.unit == u)
      && (!outside && r.cs.func.Write? && u.readOnly ==>
            o.regs.cs.faults == {DriveError} && o.unit.status == u.status + {WriteGate})
      && (!outside && !(r.cs.func.Write? && u.readOnly) <==> Moves(r, u))
  {
    assert r.da / 128 % 512 == r.da / 128;
  }

  /** GET STATUS puts the state of the drive into RLMP: the constant low bits, the head, the
      type, the errors that it may clear first, and the write lock. */
  lemma StatusBits(r: Regs, u: Unit, mem: seq<nat>)
    requires r.Valid() && u.cyl < Cylinders(u.rl02) && u.head < 2 && u.attached && r.cs.func.GetStatus?
    ensures var o := Go(r, u, mem);
      var status := if r.da / 8 % 2 == 1 then {} else u.status;
      && o.unit == u.(status := status) && o.mem == mem && o.regs.cs.faults == {}
      && WordIs(o.regs.mp, u.head == 1, u.rl02, SelectError in status, VolumeCheck in status, WriteGate in status, u.readOnly)
  {
    var v := if r.da / 8 % 2 == 1 then u.(status := {}) else u;
    StatusWordIs(v);
  }

  // Bits 5 to 0 of a status word are 011101, then come 6, 7, 8, 9, 10 and 13.
  predicate WordIs(w: nat, head: bool, rl02: bool, select: bool, volume: bool, gate: bool, lock: bool) {
    && w % 0x40 == 0x1D && w < 0x4000 && w / 0x800 % 4 == 0
    && (w / 0x40 % 2 == 1 <==> head) && (w / 0x80 % 2 == 1 <==> rl02) && (w / 0x100 % 2 == 1 <==> select)
    && (w / 0x200 % 2 == 1 <==> volume) && (w / 0x400 % 2 == 1 <==> gate) && (w / 0x2000 % 2 == 1 <==> lock)
  }

  lemma StatusWordIs(u: Unit)
    requires u.head < 2
    ensures WordIs(StatusWord(u), u.head == 1, u.rl02, SelectError in u.status, VolumeCheck in u.status, WriteGate in u.status, u.readOnly)
  {
    SixBits(StatusWord(u), u.head, if u.rl02 then 1 else 0, if SelectError in u.status then 1 else 0,
      if VolumeCheck in u.status then 1 else 0, if WriteGate in u.status then 1 else 0, if u.readOnly then 1 else 0);
  }

  lemma SixBits(w: nat, a: nat, b: nat, c: nat, d: nat, e: nat, f: nat)
    requires a < 2 && b < 2 && c < 2 && d < 2 && e < 2 && f < 2
    requires w == 0x1D + 0x40 * a + 0x80 * b + 0x100 * c + 0x200 * d + 0x400 * e + 0x2000 * f
    ensures WordIs(w, a == 1, b == 1, c == 1, d == 1, e == 1, f == 1)
  {
    assert w / 0x2000 == f && w / 0x800 == 4 * f && w / 0x400 == e + 8 * f;
    assert w / 0x200 == d + 2 * e + 16 * f && w / 0x100 == c + 2 * (d + 2 * e + 16 * f);
    assert w / 0x80 == b + 2 * (c + 2 * d + 4 * e + 32 * f) && w / 0x40 == a + 2 * (b + 2 * c + 4 * d + 8 * e + 64 * f);
  }

  /** READ HEADER tells cylinder and head in RLMP. */
  lemma HeaderBits(r: Regs, u: Unit, mem: seq<nat>)
    requires r.Valid() && u.cyl < Cylinders(u.rl02) && u.head < 2 && u.attached && r.cs.func.ReadHeader?
    ensures var o := Go(r, u, mem);
      o.unit == u && o.mem == mem && o.regs.mp / 128 == u.cyl && o.regs.mp / 64 % 2 == u.head && o.regs.mp % 64 == 0
  {
    assert (128 * u.cyl + 64 * u.head) / 64 == 2 * u.cyl + u.head;
  }

  /** SEEK moves the heads in or out by the distance in RLDA, and stops at the first or the
      last cylinder. */
  lemma SeekMoves(r: Regs, u: Unit, mem: seq<nat>)
    requires r.Valid() && u.cyl < Cylinders(u.rl02) && u.head < 2 && u.attached && r.cs.func.Seek?
    ensures var (o, last) := (Go(r, u, mem), if u.rl02 then 511 else 255);
      && o.mem == mem && o.unit == u.(cyl := o.unit.cyl, head := o.unit.head) && o.unit.head == r.da / 16 % 2
      && o.unit.cyl == if r.da / 4 % 2 == 1 then Min(u.cyl + r.da / 128, last) else Max(u.cyl, r.da / 128) - r.da / 128
  {
    assert r.da / 128 % 512 == r.da / 128;
  }

  // ----- Write checks -----

  lemma {:induction false} FirstDifferenceMeans(mem: seq<nat>, image: seq<nat>, base: nat, off: nat, n: nat)
    requires n <= Available(image, off)
    ensures var k := FirstDifference(mem, image, base, off, n);
      (forall i :: 0 <= i < k ==> SameAt(mem, image, base, off, i)) && (k < n ==> !SameAt(mem, image, base, off, k))
  {
    if n > 0 { FirstDifferenceMeans(mem, image, base, off, n - 1); }
  }

  /** A write check ends with a data check if and only if a word that it reaches, of the
      image and in memory, differs. */
  lemma {:induction false} CheckFinds(r: Regs, u: Unit, mem: seq<nat>, base: nat, off: nat, k: nat)
    requires r.Valid() && Moves(r, u) && r.cs.func.WriteCheck? && base == MemoryAddress(r) / 2 && off == OffsetOf(r.da)
    requires k == Reach(base, Offered(r, u), |mem|)
    ensures DataCheck in Go(r, u, mem).regs.cs.faults <==>
      exists i :: 0 <= i < k && !SameAt(mem, u.image, base, off, i)
  {
    ZeroResidue(r, u, mem);
    FirstDifferenceMeans(mem, u.image, base, off, k);
  }

  // ----- Starting a command -----

  /** A write of RLCS that clears READY runs the function it names on the drive it selects.
      The other drives stay as they are, and without READY cleared nothing runs. */
  lemma WriteRuns(s: System, a: Access)
    requires s.Valid() && a.Ok() && a.SetCs? && a.lanes.Both? && s.initL
    ensures var t := Step(s, a);
      var cs := s.regs.cs.(drive := a.drive, ie := a.ie, mex := a.mex, func := a.func);
      if a.ready then t == s.(regs := s.regs.(cs := cs))
      else
        var o := Go(s.regs.(cs := cs), s.units[a.drive], s.mem);
        && t.regs == o.regs && t.mem == o.mem && |t.units| == 4 && t.units[a.drive] == o.unit
        && forall d :: 0 <= d < 4 && d != a.drive ==> t.units[d] == s.units[d]
  {}

  /** A write of the low byte of RLCS does the same and stays with the drive selected. */
  lemma LowByteRuns(s: System, a: Access)
    requires s.Valid() && a.Ok() && a.SetCs? && a.lanes.Low? && s.initL
    ensures Step(s, a) == Step(s, a.(lanes := Both, drive := s.regs.cs.drive))
  {}

  // Bit b of a register after a write: the low byte comes from the low data lines, and so
  // does a high byte that is written alone.
  function Written(was: nat, data: nat, lanes: Lanes, b: nat): nat {
    if b >= 16 then 0
    else match lanes
      case Both => Bit(data, b)
      case Low => if b < 8 then Bit(data, b) else Bit(was, b)
      case High => if b < 8 then Bit(was, b) else Bit(data, b - 8)
  }

  lemma {:induction false} BytesOf(low: nat, high: nat, b: nat)
    requires low < 0x100
    ensures Bit(low + 0x100 * high, b) == if b < 8 then Bit(low, b) else Bit(high, b - 8)
  {
    assert Pow2(8) == 0x100 by { assert Pow2(4) == 16; }
    BitAbove(low, high, 8, b);
  }

  lemma {:induction false} NoBitFrom(x: nat, n: nat, b: nat)
    requires x < Pow2(n)
    ensures b >= n ==> Bit(x, b) == 0
  {
    if b >= n {
      BitAbove(x, 0, n, b);
      ZeroBit(b - n);
    }
  }

  lemma {:induction false} MergedBit(was: nat, data: nat, lanes: Lanes, b: nat)
    requires was < 0x1_0000
    ensures Bit(Merge(was, data, lanes), b) == Written(was, data, lanes, b)
  {
    assert Pow2(8) == 0x100 by { assert Pow2(4) == 16; }
    BytesOf(was % 0x100, was / 0x100, b);
    BytesOf(data % 0x100, data / 0x100, b);
    match lanes {
      case Both => BothBit(data, b);
      case Low =>
        BytesOf(data % 0x100, was / 0x100, b);
        if b >= 8 { NoBitFrom(was / 0x100, 8, b - 8); }
      case High =>
        BytesOf(was % 0x100, data % 0x100, b);
        if b >= 8 {
          BytesOf(data % 0x100, data / 0x100, b - 8);
          NoBitFrom(data % 0x100, 8, b - 8);
        }
    }
  }

  lemma {:induction false} BothBit(data: nat, b: nat)
    ensures Bit(data % 0x1_0000, b) == if b < 16 then Bit(data, b) else 0
  {
    assert Pow2(16) == 0x1_0000 by {
      assert Pow2(8) == 256 by { assert Pow2(4) == 16; }
      assert Pow2(12) == 4096;
    }
    BitAbove(data % 0x1_0000, data / 0x1_0000, 16, b);
    NoBitFrom(data % 0x1_0000, 16, b);
  }

  /** RLBA, RLDA and RLMP take the bits of the bytes written, and RLBA is even. Nothing else
      changes. */
  lemma {:induction false} RegisterBits(s: System, data: nat, lanes: Lanes, b: nat)
    requires s.Valid() && s.initL
    ensures var t := Step(s, SetBa(data, lanes));
      t == s.(regs := s.regs.(ba := t.regs.ba)) && Bit(t.regs.ba, b) == if b == 0 then 0 else Written(s.regs.ba, data, lanes, b)
    ensures var t := Step(s, SetDa(data, lanes));
      t == s.(regs := s.regs.(da := t.regs.da)) && Bit(t.regs.da, b) == Written(s.regs.da, data, lanes, b)
    ensures var t := Step(s, SetMp(data, lanes));
      t == s.(regs := s.regs.(mp := t.regs.mp)) && Bit(t.regs.mp, b) == Written(s.regs.mp, data, lanes, b)
  {
    MergedBit(s.regs.ba, data, lanes, b);
    MergedBit(s.regs.da, data, lanes, b);
    MergedBit(s.regs.mp, data, lanes, b);
    EvenBit(Merge(s.regs.ba, data, lanes), b);
  }

  lemma EvenBit(x: nat, b: nat)
    ensures Bit(x / 2 * 2, b) == if b == 0 then 0 else Bit(x, b)
  {
    assert x / 2 * 2 / 2 == x / 2;
  }

  /** INIT clears RLBA and RLDA and selects drive 0 for NOP, ready, without interrupts and
      with DRE exactly if that drive has an error left. Drives, memory and RLMP stay. The
      release of INIT changes nothing else. */
  lemma InitClears(s: System)
    requires s.Valid()
    ensures var t := Step(s, Init(true));
      var cs := t.regs.cs;
      && t.units == s.units && t.mem == s.mem && !t.initL
      && t.regs.ba == 0 && t.regs.da == 0 && t.regs.mp == s.regs.mp
      && cs.ready && !cs.ie && cs.drive == 0 && cs.mex == 0 && cs.func == Nop
      && cs.faults == (if s.units[0].status == {} then {} else {DriveError}) && (cs.err <==> cs.faults != {})
      && cs.driveReady == s.units[0].attached
    ensures Step(s, Init(false)) == s.(initL := true)
  {}

  /** While INIT is asserted no write has an effect. */
  lemma NoWriteInInit(s: System, a: Access)
    requires s.Valid() && a.Ok() && !s.initL && (a.SetCs? || a.SetBa? || a.SetDa? || a.SetMp?)
    ensures Step(s, a) == s
  {}
}
