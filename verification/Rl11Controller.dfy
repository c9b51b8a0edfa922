/**
 The RL11 as it runs: registers and drives that accesses update, and transfers in loops
 over sectors and words. Each access is a step of Rl11.
 */
module Rl11Controller {
  import opened DiskTransfer
  import opened DmaLoops
  import opened Rl11

  lemma ReadIsOver(mem: seq<nat>, j: Job, done: nat, count: nat, missing: bool)
    requires j.Ok() && j.sector == SECTOR_WORDS && ReadOver(mem, j, done, count, missing)
    ensures Reading(j.mem, j.image, j.base, j.off, j.n) == Moved(mem, j.image, done, count, if missing then {NoMemory} else {})
  {}

  lemma WriteIsOver(image: seq<nat>, j: Job, done: nat, count: nat, missing: bool)
    requires j.Ok() && j.sector == SECTOR_WORDS && WriteOver(image, j, done, count, missing)
    ensures Writing(j.mem, j.image, j.base, j.off, j.n) == Moved(j.mem, image, done, count, if missing then {NoMemory} else {})
  {}

  // ----- Write checks -----

  // The words before done are the same on the disk and in memory.
  ghost predicate SameSoFar(j: Job, done: nat)
    requires j.Ok()
  {
    && done <= j.OnImage() && (done % j.sector == 0 || done == j.OnImage()) && j.Reaches(done) == done
    && forall i :: 0 <= i < done ==> SameAt(j.mem, j.image, j.base, j.off, i)
  }

  // Compares the words of a sector up to the first that differs or is not in memory.
  method CompareWords(mem: array<nat>, words: seq<nat>, ma0: nat, ghost base: nat) returns (k: nat, ma: nat, faults: set<Fault>)
    requires base == ma0 / 2
    ensures ma == ma0 + 2 * k && k <= Reach(base, |words|, mem.Length)
    ensures forall i :: 0 <= i < k ==> Slot(base, i) < mem.Length && mem[Slot(base, i)] == words[i]
    ensures faults == if k < Reach(base, |words|, mem.Length) then {DataCheck} else if k < |words| then {NoMemory} else {}
    ensures k < Reach(base, |words|, mem.Length) ==> Slot(base, k) < mem.Length && mem[Slot(base, k)] != words[k]
  {
    ma, k, faults := ma0, 0, {};
    ghost var r := Reach(base, |words|, mem.Length);
    ReachIsFirst(base, |words|, mem.Length);
    while k < |words|
      invariant k <= |words| && k <= r && ma == ma0 + 2 * k
      invariant forall i :: 0 <= i < k ==> Slot(base, i) < mem.Length && mem[Slot(base, i)] == words[i]
    {
      SlotOfAddress(ma0, k);
      var slot := ma % 0x4_0000 / 2;
      if slot >= mem.Length {
        return k, ma, {NoMemory};
      }
      if mem[slot] != words[k] {
        return k, ma, {DataCheck};
      }
      ma := ma + 2;
      k := k + 1;
    }
  }

  // A round that compared k words of a sector.
  lemma CompareMeans(j: Job, done: nat, got: seq<nat>, k: nat)
    requires j.Ok() && SameSoFar(j, done) && done < j.n && |got| == j.Got(done) <= Available(j.image, j.off + done)
    requires got == Extract(j.image, j.off + done, |got|) && k <= |got|
    requires forall i :: 0 <= i < k ==> Slot(j.base + done, i) < |j.mem| && j.mem[Slot(j.base + done, i)] == got[i]
    ensures done + k <= j.OnImage() && forall i :: 0 <= i < done + k ==> SameAt(j.mem, j.image, j.base, j.off, i)
    ensures k < |got| && Slot(j.base + done, k) < |j.mem| ==>
      (SameAt(j.mem, j.image, j.base, j.off, done + k) <==> j.mem[Slot(j.base + done, k)] == got[k])
  {
    forall i | 0 <= i < |got| ensures Slot(j.base + done, i) == Slot(j.base, done + i) && got[i] == j.image[j.off + (done + i)] {
      SlotShift(j.base, done, i);
    }
    forall i | done <= i < done + k ensures SameAt(j.mem, j.image, j.base, j.off, i) {
      assert Slot(j.base + done, i - done) == Slot(j.base, i) && got[i - done] == j.image[j.off + i];
    }
  }

  function CheckOf(j: Job): Moved { Checking(j.mem, j.image, j.base, j.off, j.n) }

  lemma CheckReach(base: nat, done: nat, got: nat, r: nat, k: nat, all: nat, size: nat)
    requires Reach(base, done, size) == done && done + got <= all && r == Reach(base + done, got, size) && k <= r && k < got
    ensures if k < r then done + k < Reach(base, all, size) else done + k == Reach(base, all, size)
  {
    ReachStops(base, done, got, r, done + r, all, size);
    ReachLess(base, all, size, done + r);
  }

  lemma CheckStops(j: Job, done: nat, got: nat, r: nat, k: nat, count: nat)
    requires j.Ok() && j.sector == SECTOR_WORDS && SameSoFar(j, done) && done < j.n
    requires got == j.Got(done) && count == done + k <= j.OnImage()
    requires r == Reach(j.base + done, got, |j.mem|) && k <= r && k < got
    requires forall i :: 0 <= i < count ==> SameAt(j.mem, j.image, j.base, j.off, i)
    requires k < r ==> count < Available(j.image, j.off) && !SameAt(j.mem, j.image, j.base, j.off, count)
    ensures CheckOf(j) == Moved(j.mem, j.image, done, count, if k < r then {DataCheck} else {NoMemory})
  {
    CheckReach(j.base, done, got, r, k, j.OnImage(), |j.mem|);
    ReadAligned(j, done, got, k);
    CheckingIs(j, done, j.Reaches(j.OnImage()), count, k < r);
  }

  lemma CheckingIs(j: Job, done: nat, r: nat, count: nat, differ: bool)
    requires j.Ok() && j.sector == SECTOR_WORDS && r == j.Reaches(j.OnImage()) && count < j.OnImage()
    requires if differ then count < r else count == r
    requires Whole(count, SECTOR_WORDS) == done && forall i :: 0 <= i < count ==> SameAt(j.mem, j.image, j.base, j.off, i)
    requires differ ==> !SameAt(j.mem, j.image, j.base, j.off, count)
    ensures CheckOf(j) == Moved(j.mem, j.image, done, count, if differ then {DataCheck} else {NoMemory})
  {
    FirstDifferenceIs(j.mem, j.image, j.base, j.off, r, count);
  }

  lemma CheckGoesOn(j: Job, done: nat, got: nat, count: nat)
    requires j.Ok() && SameSoFar(j, done) && done < j.n && got == j.Got(done) == Reach(j.base + done, got, |j.mem|) && count == done + got
    requires count <= j.OnImage() && forall i :: 0 <= i < count ==> SameAt(j.mem, j.image, j.base, j.off, i)
    ensures SameSoFar(j, count)
  {
    ReachStops(j.base, done, got, got, count, j.OnImage(), |j.mem|);
    ReadAligned(j, done, got, got);
  }

  lemma CheckEnds(j: Job, done: nat)
    requires j.Ok() && j.sector == SECTOR_WORDS && SameSoFar(j, done) && j.Got(done) == 0
    ensures CheckOf(j) == Moved(j.mem, j.image, done, done, {})
  {
    assert done == j.OnImage();
    FirstDifferenceIs(j.mem, j.image, j.base, j.off, done, done);
  }

  // One round of a write check: the words of a sector, or of the part of it that is left.
  method CheckRound(file: WordFile, mem: array<nat>, ma0: nat, n: nat, done: nat, ghost j: Job)
    returns (ma: nat, next: nat, faults: set<Fault>, ghost count: nat)
    requires j.Ok() && j.sector == SECTOR_WORDS && j.n == n > done && j.base == ma0 / 2 && j.mem == mem[..]
    requires file.pos == j.off + done && file.words == j.image && SameSoFar(j, done)
    modifies file`pos
    ensures ma == ma0 + 2 * count
    ensures faults == {} ==> next == count >= done && file.pos == j.off + next && SameSoFar(j, next)
    ensures faults == {} && next == done ==> j.Got(done) == 0
    ensures faults != {} ==> next == done && CheckOf(j) == Moved(j.mem, j.image, done, count, faults)
  {
    var got := file.Read(Min(SECTOR_WORDS, n - done));
    ghost var r := Reach(j.base + done, |got|, mem.Length);
    var k;
    k, ma, faults := CompareWords(mem, got, ma0 + 2 * done, j.base + done);
    count := done + k;
    assert ma == ma0 + 2 * count;
    CompareMeans(j, done, got, k);
    if k < |got| {
      CheckStops(j, done, |got|, r, k, count);
      next := done;
    } else {
      CheckGoesOn(j, done, |got|, count);
      next := done + |got|;
    }
  }

  method CheckSectors(file: WordFile, mem: array<nat>, ma0: nat, off: nat, n: nat)
    returns (ma: nat, done: nat, faults: set<Fault>, ghost count: nat)
    requires n <= 0x1_0000
    modifies file`pos
    ensures Checking(mem[..], file.words, ma0 / 2, off, n) == Moved(mem[..], file.words, done, count, faults) && ma == ma0 + 2 * count
  {
    ghost var j := Job(mem[..], file.words, ma0 / 2, off, n, SECTOR_WORDS);
    file.Seek(off);
    ma, done, faults, count := ma0, 0, {}, 0;
    while done < n
      invariant count == done && file.pos == j.off + done && ma == ma0 + 2 * done && faults == {} && SameSoFar(j, done)
    {
      var next;
      ma, next, faults, count := CheckRound(file, mem, ma0, n, done, j);
      if faults != {} {
        return;
      }
      if next == done {
        break;
      }
      done := next;
    }
    CheckEnds(j, done);
  }

  method RunTransfer(f: Function, file: WordFile, mem: array<nat>, ma0: nat, off: nat, n: nat)
    returns (ma: nat, done: nat, faults: set<Fault>, ghost count: nat)
    requires n <= 0x1_0000
    modifies file, mem
    ensures Transfer(f, old(mem[..]), old(file.words), ma0 / 2, off, n) == Moved(mem[..], file.words, done, count, faults)
    ensures ma == ma0 + 2 * count
  {
    ghost var j := Job(mem[..], file.words, ma0 / 2, off, n, SECTOR_WORDS);
    var missing;
    match f
    case WriteCheck =>
      ma, done, faults, count := CheckSectors(file, mem, ma0, off, n);
    case Write =>
      file.Seek(off);
      ma, done, missing, count := WriteOut(file, mem, ma0, n, SECTOR_WORDS);
      WriteIsOver(file.words, j, done, count, missing);
      faults := if missing then {NoMemory} else {};
    case _ =>
      file.Seek(off);
      ma, done, missing, count := ReadIn(file, mem, ma0, n, SECTOR_WORDS);
      ReadIsOver(mem[..], j, done, count, missing);
      faults := if missing then {NoMemory} else {};
  }

  class Controller {
    const disk: seq<WordFile?>
    const readOnly: seq<bool>
    const rl02: seq<bool>
    const mem: array<nat>
    var cs: Cs
    var ba: nat
    var da: nat
    var mp: nat
    var cyl: seq<nat>
    var head: seq<nat>
    var status: seq<set<Status>>
    var initL: bool

    ghost predicate Shape()
      reads this
    {
      && |disk| == |readOnly| == |rl02| == |cyl| == |head| == |status| == 4
      && forall i, j :: 0 <= i < j < 4 && disk[i] != null ==> disk[i] != disk[j]
    }

    ghost function Registers(): Regs
      reads this
    {
      Regs(cs, ba, da, mp)
    }

    ghost function UnitOf(file: WordFile?, d: nat): Unit
      requires Shape() && d < 4
      reads this, file
    {
      Unit(file != null, if file == null then [] else file.words, readOnly[d], rl02[d], cyl[d], head[d], status[d])
    }

    ghost function Model(): System
      requires Shape()
      reads this, mem, disk
    {
      System(Registers(), [UnitOf(disk[0], 0), UnitOf(disk[1], 1), UnitOf(disk[2], 2), UnitOf(disk[3], 3)], mem[..], initL)
    }

    ghost predicate Valid()
      reads this, mem, disk
    {
      Shape() && Model().Valid()
    }

    // Nothing of the other drives has changed.
    ghost predicate OthersKept(d: nat, cyl0: seq<nat>, head0: seq<nat>, status0: seq<set<Status>>)
      requires Shape() && d < 4 && |cyl0| == |head0| == |status0| == 4
      reads this
    {
      cyl == cyl0[d := cyl[d]] && head == head0[d := head[d]] && status == status0[d := status[d]]
    }

    constructor (disk: seq<WordFile?>, readOnly: seq<bool>, rl02: seq<bool>, mem: array<nat>)
      requires |disk| == |readOnly| == |rl02| == 4
      requires forall i, j :: 0 <= i < j < 4 && disk[i] != null ==> disk[i] != disk[j]
      ensures Valid() && initL && this.disk == disk && this.rl02 == rl02 && this.mem == mem
    {
      this.disk, this.readOnly, this.rl02, this.mem := disk, readOnly, rl02, mem;
      cs, ba, da, mp, initL := Cs(false, {}, 0, true, false, 0, Nop, false), 0, 0, 0, true;
      cyl, head := [0, 0, 0, 0], [0, 0, 0, 0];
      status := seq(4, i requires 0 <= i < 4 => if disk[i] != null then {VolumeCheck} else {});
    }

    method SetError(faults: set<Fault>)
      modifies `cs
      ensures Registers() == Raise(old(Registers()), faults)
    {
      cs := cs.(err := true, faults := cs.faults + faults);
    }

    // The registers at the end of a transfer.
    method Advance(ma: nat, done: nat, faults: set<Fault>, ghost m: Moved)
      requires Registers().Valid() && SectorField(da) < SECTORS
      requires ma == MemoryAddress(Registers()) + 2 * m.count && done == m.done && faults == m.faults
      modifies `cs, `ba, `da, `mp
      ensures Registers() == Advanced(old(Registers()), m)
    {
      if faults != {} {
        SetError(faults);
      }
      Count(ma, done, m.count);
      if mp != 0 {
        SetError({Incomplete, DataLate});
      }
    }

    // The word count, the bus address and the disk address.
    method Count(ma: nat, done: nat, ghost count: nat)
      requires Registers().Valid() && ma == MemoryAddress(Registers()) + 2 * count
      modifies `cs, `ba, `da, `mp
      ensures Registers() == Moving(old(Registers()), done, count)
    {
      mp := (mp + done) % 0x1_0000;
      ba := ma % 0x1_0000;
      cs := cs.(mex := ma / 0x1_0000 % 4);
      da := DaOf(CylinderField(da), HeadField(da), SectorField(da) + done / SECTOR_WORDS);
    }

    method Transmit(file: WordFile, d: nat)
      requires Shape() && Registers().Valid() && d < 4 && IsTransfer(cs.func)
      modifies `cs, `ba, `da, `mp, `cyl, `head, `status, file, mem
      ensures Shape() && OthersKept(d, old(cyl), old(head), old(status))
      ensures (Registers(), UnitOf(file, d), mem[..]) == TransferCommand(old(Registers()), old(UnitOf(file, d)), old(mem[..]))
    {
      if SectorField(da) >= SECTORS || CylinderField(da) >= Cylinders(rl02[d]) {
        SetError({Incomplete, DriveError});
        return;
      }
      if cs.func.Write? && readOnly[d] {
        status := status[d := status[d] + {WriteGate}];
        SetError({DriveError});
        return;
      }
      cyl, head := cyl[d := CylinderField(da)], head[d := HeadField(da)];
      Move(file);
    }

    // The transfer of a command that passed the checks, and its registers.
    method Move(file: WordFile)
      requires Registers().Valid() && SectorField(da) < SECTORS && IsTransfer(cs.func)
      modifies `cs, `ba, `da, `mp, file, mem
      ensures var (r, n) := (old(Registers()), Min(Request(old(mp)), Left(old(da))));
        var m := Transfer(r.cs.func, old(mem[..]), old(file.words), MemoryAddress(r) / 2, OffsetOf(r.da), n);
        Registers() == Advanced(r, m) && file.words == m.image && mem[..] == m.mem
    {
      var n := Min(Request(mp), Left(da));
      ghost var m := Transfer(cs.func, mem[..], file.words, MemoryAddress(Registers()) / 2, OffsetOf(da), n);
      var ma, done, faults;
      ghost var count;
      ma, done, faults, count := RunTransfer(cs.func, file, mem, 0x1_0000 * cs.mex + ba, OffsetOf(da), n);
      assert m == Moved(mem[..], file.words, done, count, faults);
      Advance(ma, done, faults, m);
    }

    method GetStatus(d: nat)
      requires Shape() && Registers().Valid() && d < 4
      modifies `cs, `mp, `status
      ensures Shape() && status == old(status)[d := if da / 8 % 2 == 1 then {} else old(status[d])]
      ensures cs == old(cs).(driveReady := true)
      ensures mp == StatusWord(Unit(true, [], readOnly[d], rl02[d], cyl[d], head[d], status[d]))
    {
      if da / 8 % 2 == 1 {
        status := status[d := {}];
      }
      mp := 29 + (if head[d] != 0 then 0x40 else 0) + (if rl02[d] then 0x80 else 0) + (if readOnly[d] then 0x2000 else 0)
        + (if SelectError in status[d] then 0x100 else 0) + (if VolumeCheck in status[d] then 0x200 else 0)
        + (if WriteGate in status[d] then 0x400 else 0);
      cs := cs.(driveReady := true);
    }

    method Seek(d: nat)
      requires Shape() && d < 4 && cyl[d] < Cylinders(rl02[d])
      modifies `cyl, `head
      ensures Shape() && cyl == old(cyl)[d := SeekTo(old(cyl[d]), da, rl02[d])] && head == old(head)[d := da / 16 % 2]
    {
      var target := if da / 4 % 2 == 1 then cyl[d] + CylinderField(da) else cyl[d] - CylinderField(da);
      if target < 0 {
        target := 0;
      }
      if target >= Cylinders(rl02[d]) {
        target := Cylinders(rl02[d]) - 1;
      }
      cyl, head := cyl[d := target], head[d := da / 16 % 2];
    }

    method Execute(file: WordFile?, d: nat)
      requires Shape() && Registers().Valid() && d < 4 && cyl[d] < Cylinders(rl02[d]) && head[d] < 2
      modifies `cs, `ba, `da, `mp, `cyl, `head, `status, mem, if file == null then {} else {file}
      ensures Shape() && OthersKept(d, old(cyl), old(head), old(status))
      ensures (Registers(), UnitOf(file, d), mem[..]) == Perform(old(Registers()), old(UnitOf(file, d)), old(mem[..]))
    {
      if cs.func.Nop? {
        return;
      }
      if file == null {
        SetError({Incomplete, DriveError});
        status := status[d := status[d] + {SelectError}];
        return;
      }
      if cs.func.GetStatus? {
        GetStatus(d);
      } else if cs.func.Seek? {
        Seek(d);
      } else if cs.func.ReadHeader? {
        mp := 128 * cyl[d] + 64 * head[d];
      } else {
        Transmit(file, d);
      }
    }

    // A command on the selected drive.
    method Go() returns (interrupt: bool)
      requires Shape() && Registers().Valid() && cyl[cs.drive] < Cylinders(rl02[cs.drive]) && head[cs.drive] < 2
      modifies `cs, `ba, `da, `mp, `cyl, `head, `status, mem, if disk[cs.drive] == null then {} else {disk[cs.drive]}
      ensures Shape() && OthersKept(old(cs.drive), old(cyl), old(head), old(status))
      ensures Outcome(Registers(), UnitOf(disk[old(cs.drive)], old(cs.drive)), mem[..], interrupt) ==
        Rl11.Go(old(Registers()), old(UnitOf(disk[cs.drive], cs.drive)), old(mem[..]))
    {
      var d := cs.drive;
      interrupt := cs.ie;
      cs := cs.(ready := false, err := false, faults := {});
      Execute(disk[d], d);
      cs := cs.(ready := true);
    }

    // ----- Accesses -----

    // A read of RLCS.
    method ReadControl()
      requires Valid()
      modifies `cs
      ensures Shape() && Model() == Step(old(Model()), ReadCs)
    {
      cs := cs.(driveReady := disk[cs.drive] != null, err := cs.faults != {});
    }

    method SetBusAddress(data: nat, lanes: Lanes)
      requires Valid()
      modifies `ba
      ensures Shape() && Model() == Step(old(Model()), SetBa(data, lanes))
    {
      if initL { ba := Merge(ba, data, lanes) / 2 * 2; }
    }

    method SetDiskAddress(data: nat, lanes: Lanes)
      requires Valid()
      modifies `da
      ensures Shape() && Model() == Step(old(Model()), SetDa(data, lanes))
    {
      if initL { da := Merge(da, data, lanes); }
    }

    method SetMultipurpose(data: nat, lanes: Lanes)
      requires Valid()
      modifies `mp
      ensures Shape() && Model() == Step(old(Model()), SetMp(data, lanes))
    {
      if initL { mp := Merge(mp, data, lanes); }
    }

    method BusInit(asserted: bool)
      requires Valid()
      modifies `cs, `ba, `da, `initL
      ensures Shape() && Model() == Step(old(Model()), Init(asserted))
    {
      initL := !asserted;
      if asserted {
        cs := Cs(status[0] != {}, if status[0] != {} then {DriveError} else {}, 0, true, false, 0, Nop, disk[0] != null);
        ba, da := 0, 0;
      }
    }

    lemma UnitsValid()
      requires Valid()
      ensures forall i :: 0 <= i < 4 ==> cyl[i] < Cylinders(rl02[i]) && head[i] < 2
    {
      forall i | 0 <= i < 4 ensures cyl[i] < Cylinders(rl02[i]) && head[i] < 2 {
        assert Model().units[i] == UnitOf(disk[i], i);
      }
    }

    // A write of RLCS.
    method SetControl(a: Access) returns (interrupt: bool)
      requires Valid() && a.Ok() && a.SetCs?
      modifies `cs, `ba, `da, `mp, `cyl, `head, `status, mem, disk
      ensures Shape() && Model() == Step(old(Model()), a)
    {
      interrupt := false;
      if !initL {
        return;
      }
      UnitsValid();
      var start := Starts(cs, a);
      cs := Loaded(cs, a);
      if start {
        interrupt := Command();
      }
    }

    // Only drive d has changed.
    twostate lemma OthersSame(d: nat)
      requires old(Shape()) && Shape() && d < 4 && OthersKept(d, old(cyl), old(head), old(status))
      requires forall i :: 0 <= i < 4 && i != d && disk[i] != null ==> disk[i].words == old(disk[i].words)
      ensures old(Model()).units[d] == old(UnitOf(disk[d], d))
      ensures Model().units == old(Model()).units[d := UnitOf(disk[d], d)]
    {
      forall i | 0 <= i < 4 && i != d ensures UnitOf(disk[i], i) == old(UnitOf(disk[i], i)) {}
      UnitsChange(old(Model()).units, Model().units, d);
    }

    // A command, with what it leaves of the other drives.
    method Command() returns (interrupt: bool)
      requires Shape() && Registers().Valid()
      requires forall i :: 0 <= i < 4 ==> cyl[i] < Cylinders(rl02[i]) && head[i] < 2
      modifies `cs, `ba, `da, `mp, `cyl, `head, `status, mem, disk
      ensures Shape()
      ensures var (s, d) := (old(Model()), old(cs.drive));
        var o := Rl11.Go(s.regs, s.units[d], s.mem);
        Model() == System(o.regs, s.units[d := o.unit], o.mem, s.initL) && interrupt == o.interrupt
    {
      ghost var d := cs.drive;
      interrupt := Go();
      OthersSame(d);
    }
  }

  // Two lists of units that differ in one place.
  lemma UnitsChange(before: seq<Unit>, after: seq<Unit>, d: nat)
    requires |before| == |after| == 4 && d < 4
    requires forall i :: 0 <= i < 4 && i != d ==> after[i] == before[i]
    ensures after == before[d := after[d]]
  {}
}
