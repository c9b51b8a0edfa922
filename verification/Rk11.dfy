/**
 The RK11-D disk controller: what GO does with the registers, the memory and the disk
 image for every function and error.
 */
module Rk11 {
  import opened DiskTransfer

  // RKER, one bit each.
  datatype Fault = WriteCheckError | NoSector | NoCylinder | NoDisk | NoMemory | WriteLockout | Overrun

  // RKCS 3-1.
  datatype Function = ControlReset | Write | Read | WriteCheck | Seek | ReadCheck | DriveReset | WriteLock

  // RKCS bits 15, 14, 13, 12-8, 7, 6, 5-4 and 3-1.
  datatype Cs = Cs(err: bool, herr: bool, scp: bool, upper: nat, done: bool, ie: bool, mex: nat, func: Function)

  datatype Regs = Regs(cs: Cs, er: set<Fault>, wc: nat, ba: nat, da: nat)
  {
    predicate Valid() {
      cs.upper < 32 && cs.mex < 4 && wc < 0x1_0000 && ba < 0x1_0000 && da < 0x1_0000
    }
  }

  datatype Drive = Absent | Disk(image: seq<nat>, readOnly: bool)

  const SECTOR_WORDS := 256
  const SECTORS := 12
  const SURFACES := 2
  const CYLINDERS := 203

  // ----- Disk addresses -----

  function SectorField(da: nat): nat { da % 16 }
  function SurfaceField(da: nat): nat { da / 16 % 2 }
  function CylinderField(da: nat): nat { da / 32 % 256 }
  function DriveField(da: nat): nat { da / 0x2000 % 8 }

  predicate OnDisk(da: nat) {
    SectorField(da) < SECTORS && CylinderField(da) < CYLINDERS
  }

  function DaToSector(da: nat): nat {
    (CylinderField(da) * SURFACES + SurfaceField(da)) * SECTORS + SectorField(da)
  }

  // Sector, surface and cylinder without the drive.
  function SectorToDa(sector: nat): nat {
    sector % SECTORS + 16 * (sector / SECTORS % SURFACES) + 32 * (sector / (SURFACES * SECTORS))
  }

  lemma FieldsOfDa(sect: nat, surf: nat, cyl: nat, drive: nat)
    requires sect < 16 && surf < 2 && cyl < 256 && drive < 8
    ensures var da := sect + 16 * surf + 32 * cyl + 0x2000 * drive;
      SectorField(da) == sect && SurfaceField(da) == surf && CylinderField(da) == cyl && DriveField(da) == drive
  {
    var da := sect + 16 * surf + 32 * cyl + 0x2000 * drive;
    assert da / 16 == surf + 2 * cyl + 512 * drive;
    assert da / 32 == cyl + 256 * drive;
    assert da / 0x2000 == drive;
  }

  /** Disk addresses and sector numbers correspond one to one: each sector number of a
      cylinder below 256 has the address that it is read from, in any drive. */
  lemma SectorRoundTrip(sector: nat, drive: nat)
    requires sector < 256 * SURFACES * SECTORS && drive < 8
    ensures var da := SectorToDa(sector) + 0x2000 * drive;
      da < 0x1_0000 && DaToSector(da) == sector && SectorField(da) < SECTORS && DriveField(da) == drive
  {
    FieldsOfDa(sector % SECTORS, sector / SECTORS % SURFACES, sector / (SURFACES * SECTORS), drive);
  }

  /** Every valid address is the address of its sector number. */
  lemma DaRoundTrip(da: nat)
    requires da < 0x1_0000 && OnDisk(da)
    ensures SectorToDa(DaToSector(da)) + 0x2000 * DriveField(da) == da
    ensures DaToSector(da) < CYLINDERS * SURFACES * SECTORS
  {
    var (c, f, s) := (CylinderField(da), SurfaceField(da), SectorField(da));
    SectorFields(c, f, s);
    DaFields(da);
  }

  lemma SectorFields(c: nat, f: nat, s: nat)
    requires f < 2 && s < 12
    ensures var n := (c * SURFACES + f) * SECTORS + s; n % 12 == s && n / 12 % 2 == f && n / 24 == c
  {
    var n := 24 * c + 12 * f + s;
    assert n / 12 == 2 * c + f;
    assert n / 24 == c;
  }

  lemma DaFields(da: nat)
    requires da < 0x1_0000
    ensures da == SectorField(da) + 16 * SurfaceField(da) + 32 * CylinderField(da) + 0x2000 * DriveField(da)
  {
    var h := da / 16;
    var c := h / 2;
    assert da / 32 == c && da / 0x2000 == c / 256;
  }

  // ----- One transfer -----

  // RKWC counts up to zero, and zero is 65536 words.
  function WordCount(wc: nat): (n: nat)
    requires wc < 0x1_0000
    ensures 1 <= n <= 0x1_0000
  {
    if wc == 0 then 0x1_0000 else 0x1_0000 - wc
  }

  function MemoryAddress(r: Regs): (ma: nat)
    requires r.Valid()
    ensures ma < 0x4_0000
  {
    0x1_0000 * r.cs.mex + r.ba
  }

  datatype Moved = Moved(mem: seq<nat>, image: seq<nat>, count: nat, faults: set<Fault>)

  // Whether memory and disk differ in the first n words.
  ghost predicate Differ(mem: seq<nat>, image: seq<nat>, base: nat, off: nat, n: nat)
    requires n <= Available(image, off) && Reach(base, n, |mem|) == n
  {
    ReachIsFirst(base, n, |mem|);
    exists i :: 0 <= i < n && mem[Slot(base, i)] != image[off + i]
  }

  // A write check past the end of the image reads nothing and goes round again, unless
  // missing memory stops it first.
  predicate Hangs(f: Function, mem: seq<nat>, image: seq<nat>, base: nat, off: nat, n: nat) {
    && f.WriteCheck?
    && Available(image, off) < n
    && Reach(base, Available(image, off), |mem|) == Available(image, off)
  }

  lemma {:induction false} ReachAgain(base: nat, n: nat, size: nat, m: nat)
    requires m <= Reach(base, n, size)
    ensures Reach(base, m, size) == m
  {
    ReachIsFirst(base, n, size);
    ReachIs(base, m, size, m);
  }

  // Words that a write brings to the disk: whole sectors if memory ends.
  function Written(base: nat, n: nat, size: nat): (w: nat)
    ensures w <= Reach(base, n, size) && Reach(base, w, size) == w
  {
    var r := Reach(base, n, size);
    var w := if r == n then n else Whole(r, SECTOR_WORDS);
    ReachAgain(base, n, size, w);
    w
  }

  function Reading(mem: seq<nat>, image: seq<nat>, base: nat, off: nat, n: nat): Moved {
    var avail := Min(n, Available(image, off));
    var r := Reach(base, avail, |mem|);
    Moved(Stored(mem, base, Extract(image, off, r)), image, r,
          if r < avail then {NoMemory} else if avail < n then {Overrun} else {})
  }

  function Writing(mem: seq<nat>, image: seq<nat>, base: nat, off: nat, n: nat): Moved {
    var r := Reach(base, n, |mem|);
    Moved(mem, Overwrite(image, off, Fetched(mem, base, Written(base, n, |mem|))), r, if r < n then {NoMemory} else {})
  }

  ghost function Checking(mem: seq<nat>, image: seq<nat>, base: nat, off: nat, n: nat): Moved {
    var avail := Min(n, Available(image, off));
    var r := Reach(base, avail, |mem|);
    ReachAgain(base, avail, |mem|, r);
    Moved(mem, image, r, (if Differ(mem, image, base, off, r) then {WriteCheckError} else {})
                         + (if r < avail then {NoMemory} else {}))
  }

  // A read check only counts what it reads. The other functions move nothing.
  ghost function Transfer(f: Function, mem: seq<nat>, image: seq<nat>, base: nat, off: nat, n: nat): Moved {
    match f
    case Read => Reading(mem, image, base, off, n)
    case Write => Writing(mem, image, base, off, n)
    case WriteCheck => Checking(mem, image, base, off, n)
    case ReadCheck =>
      var avail := Min(n, Available(image, off));
      Moved(mem, image, avail, if avail < n then {Overrun} else {})
    case _ => Moved(mem, image, 0, {})
  }

  // ----- GO -----

  const RESET := Regs(Cs(false, false, false, 0, true, false, 0, ControlReset), {}, 0, 0, 0)

  datatype Outcome = Outcome(regs: Regs, drive: Drive, mem: seq<nat>, interrupt: bool)

  // Hard errors, and DONE with its interrupt.
  function Finish(r: Regs): Regs {
    r.(cs := r.cs.(err := r.cs.err || r.er != {}, herr := r.cs.herr || r.er * {NoDisk, NoCylinder, NoSector, NoMemory} != {},
                   done := true))
  }

  function FirstError(r: Regs, drive: Drive): set<Fault> {
    if drive.Absent? then {NoDisk}
    else if drive.readOnly && (r.cs.func.Write? || r.cs.func.WriteLock?) then {WriteLockout}
    else if SectorField(r.da) >= SECTORS then {NoSector}
    else if CylinderField(r.da) >= CYLINDERS then {NoCylinder}
    else {}
  }

  function Started(r: Regs): Regs {
    r.(cs := r.cs.(err := false, herr := false, scp := false, done := false), er := {})
  }

  function OffsetOf(da: nat): nat { DaToSector(da) * SECTOR_WORDS }

  // The sector after a transfer of n words.
  function NextSector(da: nat, n: nat): nat {
    DaToSector(da) + (n + SECTOR_WORDS - 1) / SECTOR_WORDS
  }

  lemma NextSectorFits(da: nat, n: nat)
    requires OnDisk(da) && n <= 0x1_0000
    ensures NextSector(da, n) < 214 * SURFACES * SECTORS
    ensures SectorToDa(NextSector(da, n)) < 0x2000
  {
    assert CylinderField(da) <= 202;
  }

  // The registers after the transfer of a function, with its faults.
  function Advanced(r: Regs, count: nat, faults: set<Fault>): (r': Regs)
    requires r.Valid() && OnDisk(r.da)
    ensures r'.Valid()
  {
    var n := WordCount(r.wc);
    var ma := MemoryAddress(r) + 2 * count;
    NextSectorFits(r.da, n);
    Finish(r.(cs := r.cs.(scp := r.cs.func.Seek? || r.cs.func.DriveReset?, mex := ma / 0x1_0000 % 4),
              er := faults, wc := (r.wc + n % 0x1_0000) % 0x1_0000, ba := ma % 0x1_0000,
              da := 0x2000 * DriveField(r.da) + SectorToDa(NextSector(r.da, n))))
  }

  // RKCS as a write leaves it before GO.
  function Loaded(r: Regs, upper: nat, ie: bool, mex: nat, func: Function): Regs {
    r.(cs := r.cs.(upper := upper, ie := ie, mex := mex, func := func))
  }

  predicate GoHangs(r: Regs, drive: Drive, mem: seq<nat>)
    requires r.Valid()
  {
    && !r.cs.func.ControlReset? && FirstError(r, drive) == {}
    && Hangs(r.cs.func, mem, drive.image, MemoryAddress(r) / 2, OffsetOf(r.da), WordCount(r.wc))
  }

  ghost function Go(r: Regs, drive: Drive, mem: seq<nat>): (o: Outcome)
    requires r.Valid()
    ensures o.regs.Valid() && o.regs.cs.done && |o.mem| == |mem|
  {
    var s := Started(r);
    var first := FirstError(s, drive);
    if s.cs.func.ControlReset? then Outcome(RESET, drive, mem, false)
    else if first != {} then Outcome(Finish(s.(er := first)), drive, mem, s.cs.ie)
    else
      var m := Transfer(s.cs.func, mem, drive.image, MemoryAddress(s) / 2, OffsetOf(s.da), WordCount(s.wc));
      Outcome(Advanced(s, m.count, m.faults), drive.(image := m.image), m.mem, s.cs.ie)
  }

  // ----- What a GO comes to -----

  predicate Transfers(r: Regs, drive: Drive)
    requires r.Valid()
  {
    !r.cs.func.ControlReset? && FirstError(r, drive) == {}
  }

  lemma {:induction false} AdvancedFields(r: Regs, count: nat, faults: set<Fault>)
    requires r.Valid() && OnDisk(r.da)
    ensures var (a, n) := (Advanced(r, count, faults), WordCount(r.wc));
      && a.wc == 0
      && MemoryAddress(a) == (MemoryAddress(r) + 2 * count) % 0x4_0000
      && DriveField(a.da) == DriveField(r.da)
      && DaToSector(a.da) == NextSector(r.da, n)
      && SectorField(a.da) < SECTORS
  {
    var (a, n) := (Advanced(r, count, faults), WordCount(r.wc));
    AdvancedCounts(r, count, faults);
    NextSectorFits(r.da, n);
    SectorRoundTrip(NextSector(r.da, n), DriveField(r.da));
    assert a.da == SectorToDa(NextSector(r.da, n)) + 0x2000 * DriveField(r.da);
  }

  lemma {:induction false} AdvancedCounts(r: Regs, count: nat, faults: set<Fault>)
    requires r.Valid() && OnDisk(r.da)
    ensures var a := Advanced(r, count, faults);
      a.wc == 0 && MemoryAddress(a) == (MemoryAddress(r) + 2 * count) % 0x4_0000
  {
    AddressWraps(MemoryAddress(r) + 2 * count);
  }

  lemma GoTransfers(r: Regs, drive: Drive, mem: seq<nat>, m: Moved)
    requires r.Valid() && Transfers(r, drive)
    requires m == Transfer(r.cs.func, mem, drive.image, MemoryAddress(r) / 2, OffsetOf(r.da), WordCount(r.wc))
    ensures var o := Go(r, drive, mem);
      && o.mem == m.mem && o.regs.er == m.faults && o.drive == drive.(image := m.image)
      && o.regs == Advanced(Started(r), m.count, m.faults)
  {}

  lemma CountWithin(f: Function, mem: seq<nat>, image: seq<nat>, base: nat, off: nat, n: nat)
    ensures Transfer(f, mem, image, base, off, n).count <= n
  {}

  /** After every function that passes the checks RKWC is 0, RKDA names the sector after
      the last one in the same drive, and BA with its extension has moved by two for each
      word, modulo 2^18. */
  lemma RegistersAdvance(r: Regs, drive: Drive, mem: seq<nat>)
    requires r.Valid() && Transfers(r, drive)
    ensures var (o, n) := (Go(r, drive, mem), WordCount(r.wc));
      var count := Transfer(r.cs.func, mem, drive.image, MemoryAddress(r) / 2, OffsetOf(r.da), n).count;
      && o.regs.wc == 0 && count <= n
      && MemoryAddress(o.regs) == (MemoryAddress(r) + 2 * count) % 0x4_0000
      && DriveField(o.regs.da) == DriveField(r.da)
      && DaToSector(o.regs.da) == NextSector(r.da, n)
      && SectorField(o.regs.da) < SECTORS
  {
    var m := Transfer(r.cs.func, mem, drive.image, MemoryAddress(r) / 2, OffsetOf(r.da), WordCount(r.wc));
    CountWithin(r.cs.func, mem, drive.image, MemoryAddress(r) / 2, OffsetOf(r.da), WordCount(r.wc));
    GoTransfers(r, drive, mem, m);
    AdvancedFields(Started(r), m.count, m.faults);
  }

  // The functions that move or compare words.
  predicate MovesWords(f: Function) { f.Read? || f.Write? || f.WriteCheck? || f.ReadCheck? }

  lemma {:induction false} CountIsAll(f: Function, mem: seq<nat>, image: seq<nat>, base: nat, off: nat, n: nat)
    requires MovesWords(f) && !Hangs(f, mem, image, base, off, n)
    ensures var m := Transfer(f, mem, image, base, off, n);
      m.count <= n && (m.count == n <==> m.faults <= {WriteCheckError})
  {}

  lemma SameAddressIff(ma: nat, c: nat, n: nat)
    requires c <= n <= 0x1_0000
    ensures (ma + 2 * c) % 0x4_0000 == (ma + 2 * n) % 0x4_0000 <==> c == n
  {
    var (x, y) := (ma + 2 * c, ma + 2 * n);
    if x % 0x4_0000 == y % 0x4_0000 { assert y - x == 0x4_0000 * (y / 0x4_0000 - x / 0x4_0000); }
  }

  /** The bus address ends two bytes beyond each requested word, modulo 2^18, if and only if
      neither missing memory nor the end of the image stopped the transfer. */
  lemma {:induction false} AddressAdvancesIff(r: Regs, drive: Drive, mem: seq<nat>)
    requires r.Valid() && Transfers(r, drive) && MovesWords(r.cs.func) && !GoHangs(r, drive, mem)
    ensures var o := Go(r, drive, mem);
      MemoryAddress(o.regs) == (MemoryAddress(r) + 2 * WordCount(r.wc)) % 0x4_0000 <==> o.regs.er <= {WriteCheckError}
  {
    var (base, off, n) := (MemoryAddress(r) / 2, OffsetOf(r.da), WordCount(r.wc));
    var m := Transfer(r.cs.func, mem, drive.image, base, off, n);
    RegistersAdvance(r, drive, mem);
    GoTransfers(r, drive, mem, m);
    CountIsAll(r.cs.func, mem, drive.image, base, off, n);
    SameAddressIff(MemoryAddress(r), m.count, n);
  }

  lemma AddressWraps(x: nat)
    ensures 0x1_0000 * (x / 0x1_0000 % 4) + x % 0x1_0000 == x % 0x4_0000
  {
    var h := x / 0x1_0000;
    assert x == 0x4_0000 * (h / 4) + (0x1_0000 * (h % 4) + x % 0x1_0000);
  }

  /** A function that fails a check changes nothing but the status, and every function
      ends with DONE and, after all but a control reset, interrupts if IE is set. */
  lemma ChecksComeFirst(r: Regs, drive: Drive, mem: seq<nat>)
    requires r.Valid() && !r.cs.func.ControlReset?
    ensures var o := Go(r, drive, mem);
      && o.regs.cs.done && o.interrupt == r.cs.ie == o.regs.cs.ie && (o.regs.cs.err <==> o.regs.er != {})
      && (FirstError(r, drive) != {} ==>
            o.drive == drive && o.mem == mem && o.regs.er == FirstError(r, drive)
            && o.regs == r.(cs := o.regs.cs, er := o.regs.er))
  {}

  // A write that meets no error: the drive, the address and the memory are there.
  predicate GoodWrite(w: Regs, drive: Drive, size: nat)
    requires w.Valid()
  {
    && w.cs.func.Write? && drive.Disk? && !drive.readOnly && OnDisk(w.da)
    && Reach(MemoryAddress(w) / 2, WordCount(w.wc), size) == WordCount(w.wc)
  }

  predicate SameTransfer(w: Regs, r: Regs)
    requires w.Valid() && r.Valid()
  {
    w.da == r.da && w.wc == r.wc && MemoryAddress(w) == MemoryAddress(r)
  }

  lemma WriteOutcome(w: Regs, drive: Drive, mem: seq<nat>)
    requires w.Valid() && GoodWrite(w, drive, |mem|)
    ensures var (o, n) := (Go(w, drive, mem), WordCount(w.wc));
      && o.mem == mem && o.regs.er == {} && !o.regs.cs.err
      && o.drive == drive.(image := Overwrite(drive.image, OffsetOf(w.da), Fetched(mem, MemoryAddress(w) / 2, n)))
  {}

  // The outcome o of a write and p of a read of the same words into another memory.
  ghost predicate ReadsBack(w: Regs, drive: Drive, mem: seq<nat>, other: seq<nat>, o: Outcome, p: Outcome)
    requires w.Valid() && o.regs.Valid() && p.regs.Valid() && drive.Disk?
  {
    var (base, off, n) := (MemoryAddress(w) / 2, OffsetOf(w.da), WordCount(w.wc));
    && o.drive.Disk? && |o.drive.image| >= |drive.image| && |mem| == |other| == |p.mem|
    && o.mem == mem && o.regs.er == {} && p.regs.er == {} && p.drive == o.drive
    && MemoryAddress(o.regs) == MemoryAddress(p.regs) == (MemoryAddress(w) + 2 * n) % 0x4_0000
    && (forall a :: 0 <= a < |mem| ==> p.mem[a] == if Place(base, a) < n then mem[a] else other[a])
    && (forall k :: 0 <= k < |drive.image| && !(off <= k < off + n) ==> o.drive.image[k] == drive.image[k])
    && (other == mem ==> p.mem == mem)
  }

  /** WRITE, then READ of the same registers into any memory of the same size: the words
      that were written come back to where they came from, and no other word of the
      memory, and none of the disk, changes. */
  lemma {:induction false} WriteThenRead(w: Regs, r: Regs, drive: Drive, mem: seq<nat>, other: seq<nat>)
    requires w.Valid() && r.Valid() && SameTransfer(w, r) && r.cs.func.Read?
    requires |mem| == |other| <= SPACE && GoodWrite(w, drive, |mem|)
    ensures var o := Go(w, drive, mem);
      ReadsBack(w, drive, mem, other, o, Go(r, o.drive, other))
  {
    var o := Go(w, drive, mem);
    ReadBack(w, r, drive, mem, other);
    AddressOnSuccess(w, w, drive, mem);
    AddressOnSuccess(w, r, o.drive, other);
    Combined(w, drive, mem, other, o, Go(r, o.drive, other));
  }

  lemma {:induction false} Combined(w: Regs, drive: Drive, mem: seq<nat>, other: seq<nat>, o: Outcome, p: Outcome)
    requires w.Valid() && o.regs.Valid() && p.regs.Valid() && |mem| == |other| <= SPACE && GoodWrite(w, drive, |mem|)
    requires o.mem == mem && o.regs.er == {} && p.regs.er == {} && p.drive == o.drive
    requires var ma := (MemoryAddress(w) + 2 * WordCount(w.wc)) % 0x4_0000;
      MemoryAddress(o.regs) == ma && MemoryAddress(p.regs) == ma
    requires var words := Fetched(mem, MemoryAddress(w) / 2, WordCount(w.wc));
      && o.drive == drive.(image := Overwrite(drive.image, OffsetOf(w.da), words))
      && p.mem == Stored(other, MemoryAddress(w) / 2, words)
    ensures ReadsBack(w, drive, mem, other, o, p)
  {
    var (base, n) := (MemoryAddress(w) / 2, WordCount(w.wc));
    Restored(mem, other, p.mem, base, n);
    OthersKept(drive.image, o.drive.image, OffsetOf(w.da), Fetched(mem, base, n));
  }

  lemma {:induction false} Restored(mem: seq<nat>, other: seq<nat>, after: seq<nat>, base: nat, n: nat)
    requires |mem| == |other| <= SPACE && n <= 0x1_0000 && Reach(base, n, |mem|) == n
    requires after == Stored(other, base, Fetched(mem, base, n))
    ensures forall a :: 0 <= a < |mem| ==> after[a] == if Place(base, a) < n then mem[a] else other[a]
    ensures other == mem ==> after == mem
  {
    StoreFetched(mem, other, base, n);
  }

  lemma {:induction false} OthersKept(image: seq<nat>, after: seq<nat>, off: nat, words: seq<nat>)
    requires after == Overwrite(image, off, words)
    ensures |after| >= |image|
    ensures forall k :: 0 <= k < |image| && !(off <= k < off + |words|) ==> after[k] == image[k]
  {
    ExtractOverwritten(image, off, words);
  }

  lemma {:induction false} AddressOnSuccess(w: Regs, r: Regs, drive: Drive, mem: seq<nat>)
    requires w.Valid() && r.Valid() && SameTransfer(w, r) && Transfers(r, drive) && (r.cs.func.Read? || r.cs.func.Write?)
    requires Go(r, drive, mem).regs.er == {}
    ensures MemoryAddress(Go(r, drive, mem).regs) == (MemoryAddress(w) + 2 * WordCount(w.wc)) % 0x4_0000
  {
    AddressAdvancesIff(r, drive, mem);
  }

  // The words that the read stores are those that the write fetched.
  lemma {:induction false} ReadBack(w: Regs, r: Regs, drive: Drive, mem: seq<nat>, other: seq<nat>)
    requires w.Valid() && r.Valid() && SameTransfer(w, r) && r.cs.func.Read?
    requires |mem| == |other| <= SPACE && GoodWrite(w, drive, |mem|)
    ensures var words := Fetched(mem, MemoryAddress(w) / 2, WordCount(w.wc));
      var o := Go(w, drive, mem);
      var p := Go(r, o.drive, other);
      && o.mem == mem && o.regs.er == {} && p.regs.er == {} && p.drive == o.drive
      && o.drive == drive.(image := Overwrite(drive.image, OffsetOf(w.da), words))
      && p.mem == Stored(other, MemoryAddress(w) / 2, words)
  {
    WriteOutcome(w, drive, mem);
    var words := Fetched(mem, MemoryAddress(w) / 2, WordCount(w.wc));
    ExtractOverwritten(drive.image, OffsetOf(w.da), words);
    ReadOutcome(r, Go(w, drive, mem).drive, other, words);
  }

  lemma {:induction false} TransferRead(mem: seq<nat>, image: seq<nat>, base: nat, off: nat, words: seq<nat>)
    requires |words| <= Available(image, off) && Extract(image, off, |words|) == words
    requires Reach(base, |words|, |mem|) == |words|
    ensures Reading(mem, image, base, off, |words|) == Moved(Stored(mem, base, words), image, |words|, {})
  {}

  lemma {:induction false} ReadOutcome(r: Regs, drive: Drive, mem: seq<nat>, words: seq<nat>)
    requires r.Valid() && r.cs.func.Read? && drive.Disk? && OnDisk(r.da)
    requires |words| == WordCount(r.wc) <= Available(drive.image, OffsetOf(r.da))
    requires Extract(drive.image, OffsetOf(r.da), |words|) == words
    requires Reach(MemoryAddress(r) / 2, |words|, |mem|) == |words|
    ensures var o := Go(r, drive, mem);
      o.mem == Stored(mem, MemoryAddress(r) / 2, words) && o.regs.er == {} && o.drive == drive
  {
    TransferRead(mem, drive.image, MemoryAddress(r) / 2, OffsetOf(r.da), words);
    GoTransfers(r, drive, mem, Moved(Stored(mem, MemoryAddress(r) / 2, words), drive.image, |words|, {}));
  }

  lemma {:induction false} TransferCheck(mem: seq<nat>, image: seq<nat>, base: nat, off: nat, n: nat)
    requires n <= Available(image, off) && Reach(base, n, |mem|) == n
    requires Extract(image, off, n) == Fetched(mem, base, n)
    ensures Checking(mem, image, base, off, n) == Moved(mem, image, n, {})
  {
    ReachIsFirst(base, n, |mem|);
    forall i | 0 <= i < n ensures mem[Slot(base, i)] == image[off + i] {
      assert Fetched(mem, base, n)[i] == Extract(image, off, n)[i];
    }
    assert !Differ(mem, image, base, off, n);
  }

  lemma {:induction false} CheckOutcome(c: Regs, drive: Drive, mem: seq<nat>)
    requires c.Valid() && c.cs.func.WriteCheck? && drive.Disk? && OnDisk(c.da)
    requires WordCount(c.wc) <= Available(drive.image, OffsetOf(c.da))
    requires Reach(MemoryAddress(c) / 2, WordCount(c.wc), |mem|) == WordCount(c.wc)
    requires Extract(drive.image, OffsetOf(c.da), WordCount(c.wc)) == Fetched(mem, MemoryAddress(c) / 2, WordCount(c.wc))
    ensures !GoHangs(c, drive, mem) && Go(c, drive, mem).regs.er == {} && Go(c, drive, mem).drive == drive
  {
    TransferCheck(mem, drive.image, MemoryAddress(c) / 2, OffsetOf(c.da), WordCount(c.wc));
    GoTransfers(c, drive, mem, Moved(mem, drive.image, WordCount(c.wc), {}));
  }

  /** A write check between them ends and finds no error. */
  lemma WriteThenCheck(w: Regs, c: Regs, drive: Drive, mem: seq<nat>)
    requires w.Valid() && c.Valid() && SameTransfer(w, c) && c.cs.func.WriteCheck?
    requires GoodWrite(w, drive, |mem|)
    ensures var o := Go(w, drive, mem);
      !GoHangs(c, o.drive, mem) && Go(c, o.drive, mem).regs.er == {} && Go(c, o.drive, mem).drive == o.drive
  {
    WriteOutcome(w, drive, mem);
    ExtractOverwritten(drive.image, OffsetOf(w.da), Fetched(mem, MemoryAddress(w) / 2, WordCount(w.wc)));
    CheckOutcome(c, Go(w, drive, mem).drive, mem);
  }

  // ----- Write checks that never end -----

  datatype Progress = Going(done: nat) | Stopped

  predicate Ended(p: Progress, n: nat) { p.Stopped? || p.done >= n }

  // One round of the write check: up to a sector is read and compared, and missing
  // memory stops it.
  function Round(p: Progress, size: nat, image: seq<nat>, base: nat, off: nat, n: nat): Progress {
    if Ended(p, n) then p
    else
      var got := Min(Min(SECTOR_WORDS, n - p.done), Available(image, off + p.done));
      if Reach(base + p.done, got, size) < got then Stopped else Going(p.done + got)
  }

  function Rounds(k: nat, size: nat, image: seq<nat>, base: nat, off: nat, n: nat): Progress {
    if k == 0 then Going(0) else Round(Rounds(k - 1, size, image, base, off, n), size, image, base, off, n)
  }

  // A round keeps what was read within the image and the memory.
  predicate Within(d: nat, size: nat, base: nat, avail: nat) {
    d <= avail && Reach(base, d, size) == d
  }

  lemma {:induction false} RoundFacts(d: nat, size: nat, image: seq<nat>, base: nat, off: nat, n: nat, avail: nat)
    requires avail == Available(image, off) && d < n && Within(d, size, base, avail)
    ensures var p := Round(Going(d), size, image, base, off, n);
      if p.Stopped? then Reach(base, avail, size) < avail
      else Within(p.done, size, base, avail) && p.done >= d && (p.done == d ==> d == avail)
  {
    assert Available(image, off + d) == avail - d;
    var got := Min(Min(SECTOR_WORDS, n - d), avail - d);
    RoundReach(base, d, got, avail, size);
  }

  lemma RoundReach(base: nat, d: nat, got: nat, avail: nat, size: nat)
    requires Reach(base, d, size) == d && d + got <= avail
    ensures if Reach(base + d, got, size) < got then Reach(base, avail, size) < avail else Reach(base, d + got, size) == d + got
  {
    ReachOn(base, d, got, size);
    ReachLess(base, avail, size, d + got);
  }

  lemma {:induction false} RoundsFacts(k: nat, size: nat, image: seq<nat>, base: nat, off: nat, n: nat, avail: nat)
    requires avail == Available(image, off)
    ensures var p := Rounds(k, size, image, base, off, n);
      if p.Stopped? then Reach(base, avail, size) < avail
      else Within(p.done, size, base, avail) && (p.done < k && p.done < n ==> p.done == avail)
  {
    if k > 0 {
      RoundsFacts(k - 1, size, image, base, off, n, avail);
      var p := Rounds(k - 1, size, image, base, off, n);
      if !Ended(p, n) {
        RoundFacts(p.done, size, image, base, off, n, avail);
      }
    }
  }

  /** A write check ends if and only if the image holds all the words, or memory ends
      before the image does. */
  lemma {:induction false} CheckEndsIffNotHangs(mem: seq<nat>, image: seq<nat>, base: nat, off: nat, n: nat)
    ensures (exists k: nat :: Ended(Rounds(k, |mem|, image, base, off, n), n)) <==> !Hangs(WriteCheck, mem, image, base, off, n)
  {
    var avail := Available(image, off);
    if Hangs(WriteCheck, mem, image, base, off, n) {
      forall k: nat ensures !Ended(Rounds(k, |mem|, image, base, off, n), n) {
        RoundsFacts(k, |mem|, image, base, off, n, avail);
      }
    } else {
      RoundsFacts(n, |mem|, image, base, off, n, avail);
      assert Ended(Rounds(n, |mem|, image, base, off, n), n);
    }
  }

  /** One word checked against an empty image: no number of rounds ends it. */
  lemma {:induction false} EmptyImageHangs(r: Regs, mem: seq<nat>)
    requires r == Regs(Cs(false, false, false, 0, true, false, 0, WriteCheck), {}, 0xFFFF, 0, 0)
    ensures GoHangs(r, Disk([], false), mem)
    ensures forall k: nat :: !Ended(Rounds(k, |mem|, [], 0, OffsetOf(0), 1), 1)
  {
    CheckEndsIffNotHangs(mem, [], 0, OffsetOf(0), 1);
  }
}
