/**
 The RL11 disk controller: what a command does with the registers, the selected drive
 and the memory. A transfer stops at the end of the track, and RLMP tells what is left.
 */
module Rl11 {
  import opened DiskTransfer

  // RLCS 14-10. ERR sums them up.
  datatype Fault = DriveError | NoMemory | DataLate | DataCheck | Incomplete

  // RLCS 3-1.
  datatype Function = Nop | WriteCheck | GetStatus | Seek | ReadHeader | Write | Read | ReadNoHeader

  // RLCS 15, 14-10, 9-8, 7, 6, 5-4, 3-1 and 0.
  datatype Cs = Cs(err: bool, faults: set<Fault>, drive: nat, ready: bool, ie: bool, mex: nat, func: Function, driveReady: bool)

  datatype Regs = Regs(cs: Cs, ba: nat, da: nat, mp: nat)
  {
    predicate Valid() {
      cs.drive < 4 && cs.mex < 4 && ba < 0x1_0000 && da < 0x1_0000 && mp < 0x1_0000
    }
  }

  // The drive errors that the model sets, status bits 8, 9 and 10.
  datatype Status = SelectError | VolumeCheck | WriteGate

  datatype Unit = Unit(attached: bool, image: seq<nat>, readOnly: bool, rl02: bool, cyl: nat, head: nat, status: set<Status>)

  const SECTOR_WORDS := 128
  const SECTORS := 40
  const TRACK_WORDS := SECTORS * SECTOR_WORDS

  function Cylinders(rl02: bool): nat { if rl02 then 512 else 256 }

  // ----- Disk addresses -----

  function SectorField(da: nat): nat { da % 64 }
  function HeadField(da: nat): nat { da / 64 % 2 }
  function CylinderField(da: nat): nat { da / 128 % 512 }

  predicate OnDisk(da: nat, rl02: bool) {
    SectorField(da) < SECTORS && CylinderField(da) < Cylinders(rl02)
  }

  function OffsetOf(da: nat): nat {
    (CylinderField(da) * 2 * SECTORS + HeadField(da) * SECTORS + SectorField(da)) * SECTOR_WORDS
  }

  function DaOf(cyl: nat, head: nat, sector: nat): nat { 128 * cyl + 64 * head + sector % 64 }

  // Words to the end of the track.
  function Left(da: nat): (n: nat)
    requires SectorField(da) < SECTORS
    ensures SECTOR_WORDS <= n <= TRACK_WORDS
  {
    (SECTORS - SectorField(da)) * SECTOR_WORDS
  }

  // The image of a drive holds every cylinder.
  predicate FullSize(u: Unit) { |u.image| >= Cylinders(u.rl02) * 2 * TRACK_WORDS }

  lemma TrackIsOnImage(da: nat, u: Unit)
    requires OnDisk(da, u.rl02) && FullSize(u)
    ensures Left(da) <= Available(u.image, OffsetOf(da))
  {
    var (c, h, s) := (CylinderField(da), HeadField(da), SectorField(da));
    assert OffsetOf(da) == c * 10240 + h * 5120 + s * 128;
    assert (c + 1) * 10240 <= Cylinders(u.rl02) * 10240;
  }

  // ----- One transfer -----

  // RLMP counts up to zero, and zero is 65536 words.
  function Request(mp: nat): (n: nat)
    requires mp < 0x1_0000
    ensures 1 <= n <= 0x1_0000
  {
    if mp == 0 then 0x1_0000 else 0x1_0000 - mp
  }

  function MemoryAddress(r: Regs): nat
    requires r.Valid()
  {
    0x1_0000 * r.cs.mex + r.ba
  }

  // done counts the words of complete rounds, count those that BA moves over.
  datatype Moved = Moved(mem: seq<nat>, image: seq<nat>, done: nat, count: nat, faults: set<Fault>)

  function Reading(mem: seq<nat>, image: seq<nat>, base: nat, off: nat, n: nat): Moved {
    var avail := Min(n, Available(image, off));
    var r := Reach(base, avail, |mem|);
    Moved(Stored(mem, base, Extract(image, off, r)), image, if r < avail then Whole(r, SECTOR_WORDS) else avail, r,
          if r < avail then {NoMemory} else {})
  }

  predicate SameAt(mem: seq<nat>, image: seq<nat>, base: nat, off: nat, i: nat)
    requires i < Available(image, off)
  {
    Slot(base, i) < |mem| && mem[Slot(base, i)] == image[off + i]
  }

  // The first word at which memory and disk differ, n for none.
  function FirstDifference(mem: seq<nat>, image: seq<nat>, base: nat, off: nat, n: nat): (k: nat)
    requires n <= Available(image, off)
    ensures k <= n
  {
    if n == 0 then 0
    else
      var k := FirstDifference(mem, image, base, off, n - 1);
      if k == n - 1 && SameAt(mem, image, base, off, n - 1) then n else k
  }

  lemma {:induction false} FirstDifferenceIs(mem: seq<nat>, image: seq<nat>, base: nat, off: nat, n: nat, k: nat)
    requires k <= n <= Available(image, off)
    requires (forall i :: 0 <= i < k ==> SameAt(mem, image, base, off, i)) && (k < n ==> !SameAt(mem, image, base, off, k))
    ensures FirstDifference(mem, image, base, off, n) == k
  {
    if n > 0 {
      FirstDifferenceIs(mem, image, base, off, n - 1, Min(k, n - 1));
    }
  }

  function Checking(mem: seq<nat>, image: seq<nat>, base: nat, off: nat, n: nat): Moved {
    var avail := Min(n, Available(image, off));
    var r := Reach(base, avail, |mem|);
    var k := FirstDifference(mem, image, base, off, r);
    Moved(mem, image, if k < avail then Whole(k, SECTOR_WORDS) else avail, k,
          if k < r then {DataCheck} else if r < avail then {NoMemory} else {})
  }

  lemma {:induction false} WholeReach(base: nat, n: nat, size: nat)
    ensures Reach(base, Whole(Reach(base, n, size), SECTOR_WORDS), size) == Whole(Reach(base, n, size), SECTOR_WORDS)
  {
    ReachLess(base, n, size, Whole(Reach(base, n, size), SECTOR_WORDS));
  }

  function Writing(mem: seq<nat>, image: seq<nat>, base: nat, off: nat, n: nat): Moved {
    var r := Reach(base, n, |mem|);
    WholeReach(base, n, |mem|);
    var done := if r < n then Whole(r, SECTOR_WORDS) else n;
    Moved(mem, Overwrite(image, off, Fetched(mem, base, done)), done, r, if r < n then {NoMemory} else {})
  }

  function Transfer(f: Function, mem: seq<nat>, image: seq<nat>, base: nat, off: nat, n: nat): Moved {
    match f
    case Write => Writing(mem, image, base, off, n)
    case WriteCheck => Checking(mem, image, base, off, n)
    case _ => Reading(mem, image, base, off, n)
  }

  // ----- Commands -----

  datatype Outcome = Outcome(regs: Regs, unit: Unit, mem: seq<nat>, interrupt: bool)

  function Raise(r: Regs, faults: set<Fault>): Regs {
    r.(cs := r.cs.(err := true, faults := r.cs.faults + faults))
  }

  function Done(r: Regs): Regs { r.(cs := r.cs.(ready := true)) }

  // The status word of a drive.
  function StatusWord(u: Unit): nat {
    29 + (if u.head != 0 then 0x40 else 0) + (if u.rl02 then 0x80 else 0) + (if u.readOnly then 0x2000 else 0)
    + (if SelectError in u.status then 0x100 else 0) + (if VolumeCheck in u.status then 0x200 else 0)
    + (if WriteGate in u.status then 0x400 else 0)
  }

  // A seek moves by a distance, in or out, and stays on the disk.
  function SeekTo(cyl: nat, da: nat, rl02: bool): (c: nat)
    ensures c < Cylinders(rl02)
  {
    var target := if da / 4 % 2 == 1 then cyl + CylinderField(da) else cyl - CylinderField(da);
    if target < 0 then 0 else if target >= Cylinders(rl02) then Cylinders(rl02) - 1 else target
  }

  // The registers after a transfer.
  function Advanced(r: Regs, m: Moved): (r': Regs)
    requires r.Valid() && SectorField(r.da) < SECTORS
    ensures r'.Valid()
  {
    var s := Moving(if m.faults == {} then r else Raise(r, m.faults), m.done, m.count);
    if s.mp != 0 then Raise(s, {Incomplete, DataLate}) else s
  }

  // The word count, BA and its extension, and DA.
  function Moving(r: Regs, done: nat, count: nat): (r': Regs)
    requires r.Valid()
    ensures r'.Valid()
  {
    var ma := MemoryAddress(r) + 2 * count;
    r.(cs := r.cs.(mex := ma / 0x1_0000 % 4), ba := ma % 0x1_0000, mp := (r.mp + done) % 0x1_0000,
       da := DaOf(CylinderField(r.da), HeadField(r.da), SectorField(r.da) + done / SECTOR_WORDS))
  }

  predicate IsTransfer(f: Function) { f.Read? || f.ReadNoHeader? || f.WriteCheck? || f.Write? }

  function TransferCommand(r: Regs, u: Unit, mem: seq<nat>): (o: (Regs, Unit, seq<nat>))
    requires r.Valid() && u.attached && IsTransfer(r.cs.func)
    ensures o.0.Valid() && |o.2| == |mem|
  {
    if !OnDisk(r.da, u.rl02) then (Raise(r, {Incomplete, DriveError}), u, mem)
    else if r.cs.func.Write? && u.readOnly then
      (Raise(r, {DriveError}), u.(status := u.status + {WriteGate}), mem)
    else
      var m := Transfer(r.cs.func, mem, u.image, MemoryAddress(r) / 2, OffsetOf(r.da), Min(Request(r.mp), Left(r.da)));
      (Advanced(r, m), u.(image := m.image, cyl := CylinderField(r.da), head := HeadField(r.da)), m.mem)
  }

  // A command with its errors cleared, up to DONE.
  function Perform(r: Regs, u: Unit, mem: seq<nat>): (o: (Regs, Unit, seq<nat>))
    requires r.Valid() && u.cyl < Cylinders(u.rl02) && u.head < 2
    ensures o.0.Valid() && |o.2| == |mem|
  {
    if r.cs.func.Nop? then (r, u, mem)
    else if !u.attached then (Raise(r, {Incomplete, DriveError}), u.(status := u.status + {SelectError}), mem)
    else if r.cs.func.GetStatus? then
      var v := if r.da / 8 % 2 == 1 then u.(status := {}) else u;
      (r.(cs := r.cs.(driveReady := true), mp := StatusWord(v)), v, mem)
    else if r.cs.func.Seek? then (r, u.(cyl := SeekTo(u.cyl, r.da, u.rl02), head := r.da / 16 % 2), mem)
    else if r.cs.func.ReadHeader? then (r.(mp := 128 * u.cyl + 64 * u.head), u, mem)
    else TransferCommand(r, u, mem)
  }

  // RLCS as a command starts.
  function Cleared(r: Regs): Regs {
    r.(cs := r.cs.(ready := false, err := false, faults := {}))
  }

  function Go(r: Regs, u: Unit, mem: seq<nat>): (o: Outcome)
    requires r.Valid() && u.cyl < Cylinders(u.rl02) && u.head < 2
    ensures o.regs.Valid() && |o.mem| == |mem|
  {
    var (t, v, m) := Perform(Cleared(r), u, mem);
    Outcome(Done(t), v, m, r.cs.ie)
  }

  // ----- Register accesses -----

  datatype Lanes = Low | High | Both
  {
    predicate HasLow() { !High? }
    predicate HasHigh() { !Low? }
  }

  // Bytes that a write does not load keep what the register holds, also the bit that
  // says READY. The fields of RLCS are those of the word so completed.
  datatype Access =
    | SetCs(drive: nat, ready: bool, ie: bool, mex: nat, func: Function, lanes: Lanes)
    | SetBa(data: nat, lanes: Lanes)
    | SetDa(data: nat, lanes: Lanes)
    | SetMp(data: nat, lanes: Lanes)
    | ReadCs
    | Init(asserted: bool)
  {
    predicate Ok() { SetCs? ==> drive < 4 && mex < 4 }
  }

  datatype System = System(regs: Regs, units: seq<Unit>, mem: seq<nat>, initL: bool)
  {
    // The controller is ready between accesses, and every drive is on a cylinder.
    predicate Valid() {
      && regs.Valid() && regs.cs.ready && |units| == 4
      && forall i :: 0 <= i < 4 ==> units[i].cyl < Cylinders(units[i].rl02) && units[i].head < 2
    }
  }

  // A write of the high byte takes the low data lines, too.
  function Merge(was: nat, data: nat, lanes: Lanes): (r: nat)
    requires was < 0x1_0000
    ensures r < 0x1_0000
  {
    match lanes
    case Both => data % 0x1_0000
    case Low => was / 256 * 256 + data % 256
    case High => was % 256 + 256 * (data % 256)
  }

  /** An odd byte is sent on the high data lines. It reaches the register if and only if
      the low lines carry the same byte. */
  lemma OddByteArrivesIff(was: nat, data: nat)
    requires was < 0x1_0000 && data < 0x1_0000
    ensures Merge(was, data, High) == was % 256 + 256 * (data / 256) <==> data % 256 == data / 256
  {}

  // The byte 1 for the high half of a register that is zero.
  lemma OddByteLost()
    ensures Merge(0, 0x100, High) == 0 && Merge(0, 0x100, Both) == 0x100
  {}

  // RLCS with the fields that a write loads.
  function Loaded(cs: Cs, a: Access): Cs
    requires a.SetCs?
  {
    var low := if a.lanes.HasLow() then cs.(ie := a.ie, mex := a.mex, func := a.func) else cs;
    if a.lanes.HasHigh() then low.(drive := a.drive) else low
  }

  // READY in the data written means that there is no command.
  predicate Starts(cs: Cs, a: Access)
    requires a.SetCs?
  {
    cs.ready && !(if a.lanes.HasLow() then a.ready else cs.ready)
  }

  function Reset(u: Unit): Cs {
    Cs(u.status != {}, if u.status != {} then {DriveError} else {}, 0, true, false, 0, Nop, u.attached)
  }

  function Step(s: System, a: Access): System
    requires s.Valid() && a.Ok()
  {
    match a
    case ReadCs =>
      var cs := s.regs.cs;
      s.(regs := s.regs.(cs := cs.(driveReady := s.units[cs.drive].attached, err := cs.faults != {})))
    case Init(asserted) =>
      if asserted then s.(initL := false, regs := Regs(Reset(s.units[0]), 0, 0, s.regs.mp)) else s.(initL := true)
    case SetBa(data, lanes) => if s.initL then s.(regs := s.regs.(ba := Merge(s.regs.ba, data, lanes) / 2 * 2)) else s
    case SetDa(data, lanes) => if s.initL then s.(regs := s.regs.(da := Merge(s.regs.da, data, lanes))) else s
    case SetMp(data, lanes) => if s.initL then s.(regs := s.regs.(mp := Merge(s.regs.mp, data, lanes))) else s
    case SetCs(_, _, _, _, _, _) =>
      var r := s.regs.(cs := Loaded(s.regs.cs, a));
      if !s.initL then s
      else if !Starts(s.regs.cs, a) then s.(regs := r)
      else
        var o := Go(r, s.units[r.cs.drive], s.mem);
        s.(regs := o.regs, units := s.units[r.cs.drive := o.unit], mem := o.mem)
  }

  function Run(s: System, accesses: seq<Access>): System
    requires s.Valid() && forall i :: 0 <= i < |accesses| ==> accesses[i].Ok()
    decreases |accesses|
  {
    if accesses == [] then s
    else
      StepKeepsValid(s, accesses[0]);
      Run(Step(s, accesses[0]), accesses[1..])
  }

  lemma PerformKeepsDrive(r: Regs, u: Unit, mem: seq<nat>)
    requires r.Valid() && u.cyl < Cylinders(u.rl02) && u.head < 2
    ensures var v := Perform(r, u, mem).1;
      v.cyl < Cylinders(v.rl02) && v.head < 2 && v.rl02 == u.rl02 && v.attached == u.attached && v.readOnly == u.readOnly
  {}

  lemma StepKeepsValid(s: System, a: Access)
    requires s.Valid() && a.Ok()
    ensures Step(s, a).Valid() && |Step(s, a).mem| == |s.mem|
    ensures forall i :: 0 <= i < 4 ==> Step(s, a).units[i].rl02 == s.units[i].rl02
  {
    if a.SetCs? && s.initL && Starts(s.regs.cs, a) {
      var r := s.regs.(cs := Loaded(s.regs.cs, a));
      PerformKeepsDrive(Cleared(r), s.units[r.cs.drive], s.mem);
    }
  }

  /** In every reachable state the controller is ready, and each drive is on a cylinder
      below its limit, which stays the same. */
  lemma {:induction false} RunKeepsValid(s: System, accesses: seq<Access>)
    requires s.Valid() && forall i :: 0 <= i < |accesses| ==> accesses[i].Ok()
    ensures Run(s, accesses).Valid()
    ensures forall i :: 0 <= i < 4 ==> Run(s, accesses).units[i].rl02 == s.units[i].rl02
    decreases |accesses|
  {
    if accesses != [] {
      StepKeepsValid(s, accesses[0]);
      RunKeepsValid(Step(s, accesses[0]), accesses[1..]);
    }
  }

  /** A write of the high byte of RLCS selects a drive and never starts a command. */
  lemma HighByteOnlySelects(s: System, a: Access)
    requires s.Valid() && a.Ok() && a.SetCs? && a.lanes.High? && s.initL
    ensures Step(s, a) == s.(regs := s.regs.(cs := s.regs.cs.(drive := a.drive)))
  {}

  /** A seek reaches its target if that is a cylinder of the drive, and otherwise stops at
      the first or last one. */
  lemma SeekIsClamped(cyl: nat, da: nat, rl02: bool)
    requires cyl < Cylinders(rl02)
    ensures var (c, d) := (SeekTo(cyl, da, rl02), CylinderField(da));
      if da / 4 % 2 == 1 then c == Min(cyl + d, Cylinders(rl02) - 1) else c + Min(cyl, d) == cyl
  {}

  // ----- Word count -----

  // A read or write that nothing stops before the end of the request or of the track.
  predicate Clear(r: Regs, u: Unit, size: nat)
    requires r.Valid()
  {
    && u.attached && OnDisk(r.da, u.rl02)
    && ((r.cs.func.Read? && FullSize(u)) || (r.cs.func.Write? && !u.readOnly))
    && var n := Min(Request(r.mp), Left(r.da)); Reach(MemoryAddress(r) / 2, n, size) == n
  }

  lemma {:induction false} ClearMoves(r: Regs, u: Unit, mem: seq<nat>)
    requires r.Valid() && Clear(r, u, |mem|)
    ensures var (n, base) := (Min(Request(r.mp), Left(r.da)), MemoryAddress(r) / 2);
      var m := Transfer(r.cs.func, mem, u.image, base, OffsetOf(r.da), n);
      && m.done == m.count == n && m.faults == {}
      && (r.cs.func.Read? ==> n <= Available(u.image, OffsetOf(r.da)))
      && (r.cs.func.Read? ==> m.mem == Stored(mem, base, Extract(u.image, OffsetOf(r.da), n)) && m.image == u.image)
      && (r.cs.func.Write? ==> m.mem == mem && m.image == Overwrite(u.image, OffsetOf(r.da), Fetched(mem, base, n)))
  {
    if r.cs.func.Read? { TrackIsOnImage(r.da, u); }
  }

  lemma CountLeft(mp: nat, left: nat)
    requires mp < 0x1_0000 && 1 <= left <= TRACK_WORDS
    ensures var n := Min(Request(mp), left);
      (mp + n) % 0x1_0000 == if Request(mp) <= left then 0 else 0x1_0000 - (Request(mp) - left)
  {}

  lemma GoMoves(r: Regs, u: Unit, mem: seq<nat>)
    requires r.Valid() && Moves(r, u)
    ensures var o := Go(r, u, mem);
      var m := Transfer(r.cs.func, mem, u.image, MemoryAddress(r) / 2, OffsetOf(r.da), Min(Request(r.mp), Left(r.da)));
      && o.mem == m.mem && o.unit == u.(image := m.image, cyl := CylinderField(r.da), head := HeadField(r.da))
      && o.regs == Done(Advanced(Cleared(r), m))
  {}

  // The registers after a transfer that moved the words of the request or of the rest of
  // the track: RLMP is zero and there is no error exactly if the request fits. Otherwise
  // it is minus the words that are left, with INCMP and DLT.
  predicate CountedExactly(before: Regs, after: Regs)
    requires before.Valid() && after.Valid() && SectorField(before.da) < SECTORS
  {
    var (request, left) := (Request(before.mp), Left(before.da));
    var n := Min(request, left);
    && after.mp == (if request <= left then 0 else 0x1_0000 - (request - left))
    && after.cs.faults == (if request <= left then {} else {Incomplete, DataLate})
    && (after.cs.err <==> request > left)
    && MemoryAddress(after) == (MemoryAddress(before) + 2 * n) % 0x4_0000
    && CylinderField(after.da) == CylinderField(before.da) && HeadField(after.da) == HeadField(before.da)
    && SectorField(after.da) == SectorField(before.da) + n / SECTOR_WORDS
  }

  /** A read or write that nothing stops leaves exact registers, and the drive on its
      cylinder and head. */
  lemma WordCountIsExact(r: Regs, u: Unit, mem: seq<nat>)
    requires r.Valid() && Clear(r, u, |mem|) && u.cyl < Cylinders(u.rl02) && u.head < 2
    ensures var o := Go(r, u, mem);
      CountedExactly(r, o.regs) && o.unit.cyl == CylinderField(r.da) && o.unit.head == HeadField(r.da)
  {
    var n := Min(Request(r.mp), Left(r.da));
    var m := Transfer(r.cs.func, mem, u.image, MemoryAddress(r) / 2, OffsetOf(r.da), n);
    GoMoves(r, u, mem);
    ClearMoves(r, u, mem);
    AdvancedIsExact(Cleared(r), m, n);
    SameCount(r, Cleared(r), Advanced(Cleared(r), m), Go(r, u, mem).regs);
  }

  lemma SameCount(r: Regs, s: Regs, a: Regs, b: Regs)
    requires r.Valid() && s.Valid() && a.Valid() && b.Valid() && SectorField(r.da) < SECTORS
    requires r.mp == s.mp && r.da == s.da && r.ba == s.ba && r.cs.mex == s.cs.mex && b == Done(a)
    requires CountedExactly(s, a)
    ensures CountedExactly(r, b)
  {}

  lemma AdvancedIsExact(s: Regs, m: Moved, n: nat)
    requires s.Valid() && SectorField(s.da) < SECTORS && s.cs.faults == {} && !s.cs.err
    requires n == Min(Request(s.mp), Left(s.da)) && m.done == m.count == n && m.faults == {}
    ensures CountedExactly(s, Advanced(s, m))
  {
    AdvancedParts(s, m, n);
    PartsAreExact(s, Advanced(s, m), n);
  }

  // The fields of the registers after n words.
  predicate Parts(s: Regs, a: Regs, n: nat)
    requires s.Valid() && SectorField(s.da) < SECTORS
  {
    var ma := MemoryAddress(s) + 2 * n;
    && a.mp == (s.mp + n) % 0x1_0000 && a.ba == ma % 0x1_0000 && a.cs.mex == ma / 0x1_0000 % 4
    && a.da == DaOf(CylinderField(s.da), HeadField(s.da), SectorField(s.da) + n / SECTOR_WORDS)
    && a.cs.faults == (if a.mp == 0 then {} else {Incomplete, DataLate}) && (a.cs.err <==> a.mp != 0)
  }

  lemma PartsAreExact(s: Regs, a: Regs, n: nat)
    requires s.Valid() && a.Valid() && SectorField(s.da) < SECTORS && n == Min(Request(s.mp), Left(s.da)) && Parts(s, a, n)
    ensures CountedExactly(s, a)
  {
    CountIsExact(s, a, n);
    AddressIsExact(s, a, n);
    SectorIsExact(s, a, n);
  }

  lemma CountIsExact(s: Regs, a: Regs, n: nat)
    requires s.Valid() && SectorField(s.da) < SECTORS && n == Min(Request(s.mp), Left(s.da))
    requires a.mp == (s.mp + n) % 0x1_0000 && a.cs.faults == (if a.mp == 0 then {} else {Incomplete, DataLate})
    requires a.cs.err <==> a.mp != 0
    ensures var (request, left) := (Request(s.mp), Left(s.da));
      && a.mp == (if request <= left then 0 else 0x1_0000 - (request - left))
      && a.cs.faults == (if request <= left then {} else {Incomplete, DataLate}) && (a.cs.err <==> request > left)
  {
    CountLeft(s.mp, Left(s.da));
  }

  lemma AddressIsExact(s: Regs, a: Regs, n: nat)
    requires s.Valid() && a.Valid()
    requires var ma := MemoryAddress(s) + 2 * n; a.ba == ma % 0x1_0000 && a.cs.mex == ma / 0x1_0000 % 4
    ensures MemoryAddress(a) == (MemoryAddress(s) + 2 * n) % 0x4_0000
  {
    AddressWraps(MemoryAddress(s) + 2 * n);
  }

  lemma SectorIsExact(s: Regs, a: Regs, n: nat)
    requires SectorField(s.da) < SECTORS && n <= Left(s.da)
    requires a.da == DaOf(CylinderField(s.da), HeadField(s.da), SectorField(s.da) + n / SECTOR_WORDS)
    ensures CylinderField(a.da) == CylinderField(s.da) && HeadField(a.da) == HeadField(s.da)
    ensures SectorField(a.da) == SectorField(s.da) + n / SECTOR_WORDS
  {
    SectorsMoved(SectorField(s.da), n);
    DaFields(CylinderField(s.da), HeadField(s.da), SectorField(s.da) + n / SECTOR_WORDS);
  }

  lemma AdvancedParts(s: Regs, m: Moved, n: nat)
    requires s.Valid() && SectorField(s.da) < SECTORS && s.cs.faults == {} && !s.cs.err
    requires m.done == m.count == n && m.faults == {}
    ensures Parts(s, Advanced(s, m), n)
  {}

  lemma SectorsMoved(sector: nat, n: nat)
    requires sector < SECTORS && n <= (SECTORS - sector) * SECTOR_WORDS
    ensures sector + n / SECTOR_WORDS <= SECTORS
  {}

  lemma AddressWraps(x: nat)
    ensures 0x1_0000 * (x / 0x1_0000 % 4) + x % 0x1_0000 == x % 0x4_0000
  {
    var h := x / 0x1_0000;
    assert x == 0x4_0000 * (h / 4) + (0x1_0000 * (h % 4) + x % 0x1_0000);
  }

  lemma DaFields(cyl: nat, head: nat, sector: nat)
    requires cyl < 512 && head < 2 && sector < 64
    ensures var da := DaOf(cyl, head, sector);
      da < 0x1_0000 && CylinderField(da) == cyl && HeadField(da) == head && SectorField(da) == sector
  {
    var da := DaOf(cyl, head, sector);
    assert da / 64 == 2 * cyl + head && da / 128 == cyl;
  }

  // ----- Transfers that something stops -----

  // A transfer command that passes the checks.
  predicate Moves(r: Regs, u: Unit) {
    && IsTransfer(r.cs.func) && u.attached && OnDisk(r.da, u.rl02) && (r.cs.func.Write? ==> !u.readOnly)
    && u.cyl < Cylinders(u.rl02) && u.head < 2
  }

  // The words that the request, the track and, unless it is written, the image allow.
  function Offered(r: Regs, u: Unit): (n: nat)
    requires r.Valid() && SectorField(r.da) < SECTORS
    ensures n <= Request(r.mp) && n <= Left(r.da)
  {
    var n := Min(Request(r.mp), Left(r.da));
    if r.cs.func.Write? then n else Min(n, Available(u.image, OffsetOf(r.da)))
  }

  // The words of them that are in memory and, for a write check, the same on the disk.
  function Passed(r: Regs, u: Unit, mem: seq<nat>): (n: nat)
    requires r.Valid() && SectorField(r.da) < SECTORS
    ensures n <= Offered(r, u)
  {
    var k := Reach(MemoryAddress(r) / 2, Offered(r, u), |mem|);
    if r.cs.func.WriteCheck? then FirstDifference(mem, u.image, MemoryAddress(r) / 2, OffsetOf(r.da), k) else k
  }

  // The fault of what stops it.
  function Obstacle(r: Regs, u: Unit, mem: seq<nat>): set<Fault>
    requires r.Valid() && SectorField(r.da) < SECTORS
  {
    if Passed(r, u, mem) == Offered(r, u) then {}
    else if Passed(r, u, mem) < Reach(MemoryAddress(r) / 2, Offered(r, u), |mem|) then {DataCheck}
    else {NoMemory}
  }

  // Every requested word passes.
  predicate Completes(r: Regs, u: Unit, mem: seq<nat>)
    requires r.Valid() && SectorField(r.da) < SECTORS
  {
    Passed(r, u, mem) == Request(r.mp)
  }

  // There is nothing on the image, or the first sector is stopped.
  predicate NoSectorPasses(r: Regs, u: Unit, mem: seq<nat>)
    requires r.Valid() && SectorField(r.da) < SECTORS
  {
    Offered(r, u) == 0 || (Passed(r, u, mem) < Offered(r, u) && Passed(r, u, mem) < SECTOR_WORDS)
  }

  lemma TransferPasses(r: Regs, u: Unit, mem: seq<nat>)
    requires r.Valid() && Moves(r, u)
    ensures var m := Transfer(r.cs.func, mem, u.image, MemoryAddress(r) / 2, OffsetOf(r.da), Min(Request(r.mp), Left(r.da)));
      && m.count == Passed(r, u, mem) && m.faults == Obstacle(r, u, mem)
      && m.done == if m.count < Offered(r, u) then Whole(m.count, SECTOR_WORDS) else m.count
  {}

  lemma AdvancedEnd(s: Regs, m: Moved)
    requires s.Valid() && SectorField(s.da) < SECTORS && s.cs.faults == {} && !s.cs.err
    ensures var a := Advanced(s, m);
      && a.mp == (s.mp + m.done) % 0x1_0000
      && a.cs.faults == m.faults + (if a.mp != 0 then {Incomplete, DataLate} else {}) && (a.cs.err <==> a.cs.faults != {})
  {}

  lemma ResidueIsZero(mp: nat, done: nat, request: nat)
    requires mp < 0x1_0000 && done <= request == (if mp == 0 then 0x1_0000 else 0x1_0000 - mp)
    ensures (mp + done) % 0x1_0000 == 0 <==> done == request || (mp == 0 && done == 0)
  {
    if done < request && mp + done > 0 {
      assert (mp + done) % 0x1_0000 == mp + done;
    }
  }

  // What the done words of a stopped transfer come to.
  lemma DoneWords(passed: nat, offered: nat, request: nat, done: nat)
    requires passed <= offered <= request && request > 0 && done == (if passed < offered then Whole(passed, SECTOR_WORDS) else passed)
    ensures done == request <==> passed == request
    ensures done == 0 <==> offered == 0 || (passed < offered && passed < SECTOR_WORDS)
    ensures done <= request
  {}

  /** RLMP ends at zero if and only if every requested word passes, or 65536 words are
      requested and not one sector passes. The other faults are INCMP and DLT exactly if
      RLMP is not zero, and the one of the obstacle. */
  lemma ZeroResidue(r: Regs, u: Unit, mem: seq<nat>)
    requires r.Valid() && Moves(r, u)
    ensures var o := Go(r, u, mem);
      && (o.regs.mp == 0 <==> Completes(r, u, mem) || (r.mp == 0 && NoSectorPasses(r, u, mem)))
      && o.regs.cs.faults == Obstacle(r, u, mem) + (if o.regs.mp != 0 then {Incomplete, DataLate} else {})
      && (o.regs.cs.err <==> o.regs.cs.faults != {})
  {
    var m := Transfer(r.cs.func, mem, u.image, MemoryAddress(r) / 2, OffsetOf(r.da), Min(Request(r.mp), Left(r.da)));
    GoMoves(r, u, mem);
    TransferPasses(r, u, mem);
    AdvancedEnd(Cleared(r), m);
    DoneWords(Passed(r, u, mem), Offered(r, u), Request(r.mp), m.done);
    ResidueIsZero(r.mp, m.done, Request(r.mp));
  }

  /** So a transfer ends without any error if and only if every requested word passes, or
      65536 words are read or checked where the image has none. */
  lemma SilentIff(r: Regs, u: Unit, mem: seq<nat>)
    requires r.Valid() && Moves(r, u)
    ensures Go(r, u, mem).regs.cs.faults == {} <==>
      Completes(r, u, mem) || (r.mp == 0 && !r.cs.func.Write? && Available(u.image, OffsetOf(r.da)) == 0)
  {
    ZeroResidue(r, u, mem);
  }

  const READ_ALL := Regs(Cs(false, {}, 0, true, false, 0, Read, true), 0, 0, 0)

  /** 65536 words read or checked where the image has none: nothing moves and no error is seen. */
  lemma {:induction false} ShortImageIsSilent(r: Regs, u: Unit, mem: seq<nat>)
    requires r.Valid() && Moves(r, u) && !r.cs.func.Write? && r.mp == 0 && Available(u.image, OffsetOf(r.da)) == 0
    ensures var o := Go(r, u, mem);
      o.regs.mp == 0 && o.regs.cs.faults == {} && !o.regs.cs.err && o.mem == mem && o.unit.image == u.image
  {
    GoMoves(r, u, mem);
    ZeroResidue(r, u, mem);
    assert Extract(u.image, OffsetOf(r.da), 0) == [];
  }

  lemma EmptyImageExample(u: Unit, mem: seq<nat>)
    requires u == Unit(true, [], false, false, 0, 0, {})
    ensures var o := Go(READ_ALL, u, mem);
      o.regs.mp == 0 && o.regs.cs.faults == {} && !o.regs.cs.err && o.mem == mem
  {
    ShortImageIsSilent(READ_ALL, u, mem);
  }

  lemma NoneReached(r: Regs, u: Unit)
    requires r.Valid() && SectorField(r.da) < SECTORS && r.cs.func.Read? && Offered(r, u) > 0
    ensures Passed(r, u, []) == 0
    ensures Obstacle(r, u, []) == {NoMemory}
  {
    ReachIs(MemoryAddress(r) / 2, Offered(r, u), 0, 0);
  }

  /** 65536 words read where there is no memory: NXM, but neither INCMP nor DLT. */
  lemma MissingMemoryHidesResidue(r: Regs, u: Unit)
    requires r.Valid() && Moves(r, u) && r.cs.func.Read? && r.mp == 0 && Offered(r, u) > 0
    ensures var o := Go(r, u, []);
      o.regs.mp == 0 && o.regs.cs.faults == {NoMemory}
  {
    NoneReached(r, u);
    ZeroResidue(r, u, []);
  }

  lemma OneWordOffered(u: Unit)
    requires u == Unit(true, [1], false, false, 0, 0, {})
    ensures READ_ALL.Valid() && Moves(READ_ALL, u) && Offered(READ_ALL, u) > 0
  {
    assert OffsetOf(0) == 0 && Left(0) > 0;
    assert Available(u.image, 0) == 1;
  }

  lemma MissingMemoryExample()
    ensures var o := Go(READ_ALL, Unit(true, [1], false, false, 0, 0, {}), []);
      o.regs.mp == 0 && o.regs.cs.faults == {NoMemory}
  {
    var u := Unit(true, [1], false, false, 0, 0, {});
    OneWordOffered(u);
    MissingMemoryHidesResidue(READ_ALL, u);
  }

  // ----- Round trips -----

  predicate SameTransfer(w: Regs, r: Regs)
    requires w.Valid() && r.Valid()
  {
    w.da == r.da && w.mp == r.mp && MemoryAddress(w) == MemoryAddress(r)
  }

  /** WRITE, then READ of the same registers into any memory of the same size: the words
      that were written come back to where they came from, and no other word changes. */
  lemma WriteThenRead(w: Regs, r: Regs, u: Unit, mem: seq<nat>, other: seq<nat>)
    requires w.Valid() && r.Valid() && SameTransfer(w, r) && w.cs.func.Write? && r.cs.func.Read?
    requires |mem| == |other| <= SPACE && Clear(w, u, |mem|) && FullSize(u) && u.cyl < Cylinders(u.rl02) && u.head < 2
    ensures var (base, off, n) := (MemoryAddress(w) / 2, OffsetOf(w.da), Min(Request(w.mp), Left(w.da)));
      var o := Go(w, u, mem);
      o.unit.cyl < Cylinders(o.unit.rl02) && o.unit.head < 2 &&
      var p := Go(r, o.unit, other);
      && o.mem == mem && p.unit == o.unit
      && (forall a :: 0 <= a < |mem| ==> p.mem[a] == if Place(base, a) < n then mem[a] else other[a])
      && (forall k :: 0 <= k < |u.image| && !(off <= k < off + n) ==> o.unit.image[k] == u.image[k])
  {
    var (base, off, n) := (MemoryAddress(w) / 2, OffsetOf(w.da), Min(Request(w.mp), Left(w.da)));
    ClearMoves(w, u, mem);
    GoMoves(w, u, mem);
    var words := Fetched(mem, base, n);
    ExtractOverwritten(u.image, off, words);
    var v := Go(w, u, mem).unit;
    ClearMoves(r, v, other);
    GoMoves(r, v, other);
    StoreFetched(mem, other, base, n);
  }
}
