/**
 The RK11-D as it runs: registers written by the processor, and transfers in loops over
 sectors and words between the memory and a file. Each GO comes to what Rk11 says.
 */
module Rk11Controller {
  import opened DiskTransfer
  import opened DmaLoops
  import opened Rk11

  // Compares all the words of a sector, up to the end of memory.
  method CompareWords(mem: array<nat>, words: seq<nat>, ma0: nat, ghost base: nat) returns (differ: bool, ma: nat, nxm: bool)
    requires base == ma0 / 2
    ensures var r := Reach(base, |words|, mem.Length);
      && ma == ma0 + 2 * r && (nxm <==> r < |words|)
      && (differ <==> DifferHere(mem[..], words, base, r))
  {
    differ, ma := false, ma0;
    var i := 0;
    while i < |words|
      invariant 0 <= i <= |words| && ma == ma0 + 2 * i
      invariant forall j :: 0 <= j < i ==> Slot(base, j) < mem.Length
      invariant differ <==> DifferHere(mem[..], words, base, i)
    {
      SlotOfAddress(ma0, i);
      var slot := ma % 0x4_0000 / 2;
      if slot >= mem.Length {
        ReachIs(base, |words|, mem.Length, i);
        return differ, ma, true;
      }
      if mem[slot] != words[i] {
        differ := true;
      }
      ma := ma + 2;
      i := i + 1;
    }
    ReachIs(base, |words|, mem.Length, |words|);
    nxm := false;
  }

  // Some of the first r words are not the ones in memory.
  ghost predicate DifferHere(mem: seq<nat>, words: seq<nat>, base: nat, r: nat)
    requires r <= |words|
  {
    exists i :: 0 <= i < r && Slot(base, i) < |mem| && mem[Slot(base, i)] != words[i]
  }

  lemma ReadIsOver(mem: seq<nat>, j: Job, done: nat, count: nat, missing: bool)
    requires j.Ok() && j.sector == SECTOR_WORDS && ReadOver(mem, j, done, count, missing)
    ensures Reading(j.mem, j.image, j.base, j.off, j.n) ==
      Moved(mem, j.image, count, if missing then {NoMemory} else if done < j.n then {Overrun} else {})
  {}

  lemma WriteIsOver(image: seq<nat>, j: Job, done: nat, count: nat, missing: bool)
    requires j.Ok() && j.sector == SECTOR_WORDS && WriteOver(image, j, done, count, missing)
    ensures Writing(j.mem, j.image, j.base, j.off, j.n) == Moved(j.mem, image, count, if missing then {NoMemory} else {})
  {}

  // ----- Checking -----

  ghost function CheckOf(j: Job): Moved { Checking(j.mem, j.image, j.base, j.off, j.n) }

  // The words before done are compared, and differ says whether one was not the same.
  ghost predicate CheckedSoFar(j: Job, done: nat, differ: bool) {
    && done <= j.n && done <= Available(j.image, j.off) && j.Reaches(done) == done
    && (differ <==> Differ(j.mem, j.image, j.base, j.off, done))
  }

  function WceSet(differ: bool): set<Fault> {
    if differ then {WriteCheckError} else {}
  }

  lemma DifferOn(j: Job, done: nat, got: seq<nat>, r: nat)
    requires done + |got| <= Available(j.image, j.off) && r <= |got|
    requires |got| <= Available(j.image, j.off + done) && got == Extract(j.image, j.off + done, |got|)
    requires j.Reaches(done) == done && j.Reaches(done + r) == done + r
    ensures Differ(j.mem, j.image, j.base, j.off, done + r) <==>
      Differ(j.mem, j.image, j.base, j.off, done) || DifferHere(j.mem, got, j.base + done, r)
  {
    ReachIsFirst(j.base, done + r, |j.mem|);
    forall i | 0 <= i < r ensures Slot(j.base + done, i) == Slot(j.base, done + i) && got[i] == j.image[j.off + done + i] {
      SlotShift(j.base, done, i);
    }
    if DifferHere(j.mem, got, j.base + done, r) {
      var i :| 0 <= i < r && Slot(j.base + done, i) < |j.mem| && j.mem[Slot(j.base + done, i)] != got[i];
      assert j.mem[Slot(j.base, done + i)] != j.image[j.off + (done + i)];
    }
    if i :| 0 <= i < done + r && j.mem[Slot(j.base, i)] != j.image[j.off + i] && i >= done {
      assert j.mem[Slot(j.base + done, i - done)] != got[i - done];
    }
  }

  lemma {:induction false} CheckContinues(j: Job, done: nat, differ: bool, got: seq<nat>, r: nat, differ': bool, count: nat)
    requires j.Ok() && CheckedSoFar(j, done, differ) && |got| == j.Got(done) <= Available(j.image, j.off + done)
    requires got == Extract(j.image, j.off + done, |got|)
    requires r == Reach(j.base + done, |got|, |j.mem|) && differ' == (differ || DifferHere(j.mem, got, j.base + done, r))
    requires count == done + r
    ensures r < |got| ==> CheckOf(j) == Moved(j.mem, j.image, count, WceSet(differ') + {NoMemory})
    ensures r == |got| ==> CheckedSoFar(j, count, differ')
  {
    var avail := Min(j.n, Available(j.image, j.off));
    ReachStops(j.base, done, |got|, r, count, avail, |j.mem|);
    DifferOn(j, done, got, r);
    if r < |got| {
      CheckingIs(j, avail, count, differ');
    }
  }

  lemma CheckingIs(j: Job, avail: nat, count: nat, differ: bool)
    requires avail == Min(j.n, Available(j.image, j.off)) && count == j.Reaches(avail) && j.Reaches(count) == count
    requires differ <==> Differ(j.mem, j.image, j.base, j.off, count)
    ensures CheckOf(j) == Moved(j.mem, j.image, count, WceSet(differ) + (if count < avail then {NoMemory} else {}))
  {}

  lemma CheckEnds(j: Job, differ: bool)
    requires CheckedSoFar(j, j.n, differ)
    ensures CheckOf(j) == Moved(j.mem, j.image, j.n, WceSet(differ))
  {
    CheckingIs(j, j.n, j.n, differ);
  }

  // One round of a write check: the words of a sector, or of the part of it that is left.
  method CheckRound(file: WordFile, mem: array<nat>, ma0: nat, n: nat, done: nat, wce: bool, ghost j: Job)
    returns (ma: nat, next: nat, wce': bool, stopped: bool, ghost count: nat)
    requires j.Ok() && j.sector == SECTOR_WORDS && j.n == n > done && j.base == ma0 / 2 && j.mem == mem[..]
    requires file.pos == j.off + done && file.words == j.image && CheckedSoFar(j, done, wce)
    requires !Hangs(WriteCheck, j.mem, j.image, j.base, j.off, n)
    modifies file`pos
    ensures ma == ma0 + 2 * count
    ensures !stopped ==> next == count > done && file.pos == j.off + next && CheckedSoFar(j, next, wce')
    ensures stopped ==> CheckOf(j) == Moved(j.mem, j.image, count, WceSet(wce') + {NoMemory})
    ensures Round(Going(done), |j.mem|, j.image, j.base, j.off, n) == if stopped then Stopped else Going(next)
  {
    var got := file.Read(Min(SECTOR_WORDS, n - done));
    ghost var r := Reach(j.base + done, |got|, mem.Length);
    count := done + r;
    var differ;
    differ, ma, stopped := CompareWords(mem, got, ma0 + 2 * done, j.base + done);
    assert ma == ma0 + 2 * count;
    wce' := wce || differ;
    CheckContinues(j, done, wce, got, r, wce', count);
    CheckProgresses(j, done);
    next := done + |got|;
    assert !stopped ==> next == count;
  }

  // n words of a write check that does not hang, with the number of its rounds.
  method CheckSectors(file: WordFile, mem: array<nat>, ma0: nat, n: nat) returns (ma: nat, faults: set<Fault>, ghost rounds: nat)
    requires mem.Length <= SPACE && n <= 0x1_0000
    requires !Hangs(WriteCheck, mem[..], file.words, ma0 / 2, file.pos, n)
    modifies file`pos
    ensures var m := Checking(mem[..], file.words, ma0 / 2, old(file.pos), n);
      ma == ma0 + 2 * m.count && faults == m.faults
    ensures Ended(Rounds(rounds, mem.Length, file.words, ma0 / 2, old(file.pos), n), n)
  {
    ghost var j := Job(mem[..], file.words, ma0 / 2, file.pos, n, SECTOR_WORDS);
    ma, rounds := ma0, 0;
    var done, wce := 0, false;
    while done < n
      invariant file.pos == j.off + done && ma == ma0 + 2 * done && CheckedSoFar(j, done, wce)
      invariant Rounds(rounds, mem.Length, j.image, j.base, j.off, n) == Going(done)
    {
      ghost var count;
      var stopped;
      ma, done, wce, stopped, count := CheckRound(file, mem, ma0, n, done, wce, j);
      rounds := rounds + 1;
      if stopped {
        return ma, WceSet(wce) + {NoMemory}, rounds;
      }
    }
    CheckEnds(j, wce);
    faults := WceSet(wce);
  }

  lemma CheckProgresses(j: Job, done: nat)
    requires j.Ok() && done < j.n && done <= Available(j.image, j.off) && j.Reaches(done) == done
    requires !Hangs(WriteCheck, j.mem, j.image, j.base, j.off, j.n)
    ensures j.Got(done) > 0
  {}

  // ----- The functions -----

  // n words of a read check, which only reads the image.
  method CountSectors(file: WordFile, ma0: nat, n: nat) returns (ma: nat, faults: set<Fault>)
    modifies file`pos
    ensures var avail := Min(n, Available(file.words, old(file.pos)));
      ma == ma0 + 2 * avail && faults == if avail < n then {Overrun} else {}
  {
    ghost var off := file.pos;
    ma := ma0;
    var done := 0;
    while done < n
      invariant done <= Min(n, Available(file.words, off)) && file.pos == off + done && ma == ma0 + 2 * done
    {
      var got := file.Read(Min(SECTOR_WORDS, n - done));
      if |got| == 0 {
        return ma, {Overrun};
      }
      ma := ma + 2 * |got|;
      done := done + |got|;
    }
    faults := {};
  }

  method ReadSectors(file: WordFile, mem: array<nat>, ma0: nat, off: nat, n: nat) returns (ma: nat, faults: set<Fault>)
    requires n <= 0x1_0000
    modifies file`pos, mem
    ensures var m := Reading(old(mem[..]), file.words, ma0 / 2, off, n);
      mem[..] == m.mem && ma == ma0 + 2 * m.count && faults == m.faults
  {
    ghost var j := Job(mem[..], file.words, ma0 / 2, off, n, SECTOR_WORDS);
    file.Seek(off);
    var done, missing;
    ghost var count;
    ma, done, missing, count := ReadIn(file, mem, ma0, n, SECTOR_WORDS);
    ReadIsOver(mem[..], j, done, count, missing);
    faults := if missing then {NoMemory} else if done < n then {Overrun} else {};
  }

  method WriteSectors(file: WordFile, mem: array<nat>, ma0: nat, off: nat, n: nat) returns (ma: nat, faults: set<Fault>)
    requires n <= 0x1_0000
    modifies file
    ensures var m := Writing(mem[..], old(file.words), ma0 / 2, off, n);
      file.words == m.image && ma == ma0 + 2 * m.count && faults == m.faults
  {
    ghost var j := Job(mem[..], file.words, ma0 / 2, off, n, SECTOR_WORDS);
    file.Seek(off);
    var done, missing;
    ghost var count;
    ma, done, missing, count := WriteOut(file, mem, ma0, n, SECTOR_WORDS);
    WriteIsOver(file.words, j, done, count, missing);
    faults := if missing then {NoMemory} else {};
  }

  method RunTransfer(f: Function, file: WordFile, mem: array<nat>, ma0: nat, off: nat, n: nat) returns (ma: nat, faults: set<Fault>)
    requires mem.Length <= SPACE && n <= 0x1_0000
    requires !Hangs(f, mem[..], file.words, ma0 / 2, off, n)
    modifies file, mem
    ensures var m := Transfer(f, old(mem[..]), old(file.words), ma0 / 2, off, n);
      mem[..] == m.mem && file.words == m.image && ma == ma0 + 2 * m.count && faults == m.faults
  {
    ma, faults := ma0, {};
    match f
    case Read =>
      ma, faults := ReadSectors(file, mem, ma0, off, n);
    case Write =>
      ma, faults := WriteSectors(file, mem, ma0, off, n);
    case WriteCheck =>
      file.Seek(off);
      ghost var rounds;
      ma, faults, rounds := CheckSectors(file, mem, ma0, n);
    case ReadCheck =>
      file.Seek(off);
      ma, faults := CountSectors(file, ma0, n);
    case _ =>
  }

  class Controller {
    const disk: seq<WordFile?>
    const readOnly: seq<bool>
    const mem: array<nat>
    var cs: Cs
    var er: set<Fault>
    var wc: nat
    var ba: nat
    var da: nat
    var initL: bool

    ghost function Registers(): Regs
      reads this
    {
      Regs(cs, er, wc, ba, da)
    }

    ghost predicate Valid()
      reads this
    {
      |disk| == |readOnly| == 8 && mem.Length <= SPACE && Registers().Valid()
    }

    // The drive that RKDA selects, and its file.
    function Selected(): WordFile?
      requires |disk| == 8
      reads `da
    {
      disk[DriveField(da)]
    }

    ghost function DriveOn(file: WordFile?, locked: bool): Drive
      reads file
    {
      if file == null then Absent else Disk(file.words, locked)
    }

    constructor (disk: seq<WordFile?>, readOnly: seq<bool>, mem: array<nat>)
      requires |disk| == |readOnly| == 8 && mem.Length <= SPACE
      ensures Valid() && Registers() == RESET && initL
      ensures this.disk == disk && this.readOnly == readOnly && this.mem == mem
    {
      this.disk, this.readOnly, this.mem := disk, readOnly, mem;
      cs, er, wc, ba, da, initL := RESET.cs, {}, 0, 0, 0, true;
    }

    method Fail(fault: Fault) returns (interrupt: bool)
      requires Valid()
      modifies `cs, `er
      ensures Valid() && Registers() == Finish(old(Registers()).(er := old(er) + {fault})) && interrupt == old(cs.ie)
    {
      er := er + {fault};
      interrupt := Complete();
    }

    method Complete() returns (interrupt: bool)
      requires Valid()
      modifies `cs
      ensures Valid() && Registers() == Finish(old(Registers())) && interrupt == old(cs.ie)
    {
      var herr := er * {NoDisk, NoCylinder, NoSector, NoMemory} != {};
      cs := cs.(err := cs.err || er != {}, herr := cs.herr || herr, done := true);
      interrupt := cs.ie;
    }

    // The registers at the end of a transfer.
    method Advance(ma: nat, faults: set<Fault>, ghost count: nat) returns (interrupt: bool)
      requires Valid() && OnDisk(da) && !cs.scp && ma == MemoryAddress(Registers()) + 2 * count
      modifies `cs, `er, `wc, `ba, `da
      ensures Valid() && Registers() == Advanced(old(Registers()), count, faults) && interrupt == old(cs.ie)
    {
      ghost var r := Registers();
      er := faults;
      if cs.func.Seek? || cs.func.DriveReset? {
        cs := cs.(scp := true);
      }
      Count(ma, WordCount(wc));
      assert Finish(Registers()) == Advanced(r, count, faults);
      interrupt := Complete();
    }

    // The word count, the bus address and the disk address after n words.
    method Count(ma: nat, n: nat)
      requires Valid() && OnDisk(da) && n <= 0x1_0000
      modifies `cs, `wc, `ba, `da
      ensures Valid() && Registers() == old(Registers()).(cs := old(cs).(mex := ma / 0x1_0000 % 4),
        wc := (old(wc) + n % 0x1_0000) % 0x1_0000, ba := ma % 0x1_0000,
        da := 0x2000 * DriveField(old(da)) + SectorToDa(NextSector(old(da), n)))
    {
      NextSectorFits(da, n);
      wc := (wc + n % 0x1_0000) % 0x1_0000;
      ba := ma % 0x1_0000;
      cs := cs.(mex := ma / 0x1_0000 % 4);
      da := 0x2000 * DriveField(da) + SectorToDa(NextSector(da, n));
    }

    // The transfer of a function that passed the checks.
    method Execute(file: WordFile) returns (interrupt: bool)
      requires Valid() && OnDisk(da) && !cs.scp
      requires !Hangs(cs.func, mem[..], file.words, MemoryAddress(Registers()) / 2, OffsetOf(da), WordCount(wc))
      modifies `cs, `er, `wc, `ba, `da, mem, file
      ensures Valid()
      ensures var r := old(Registers());
        var m := Transfer(r.cs.func, old(mem[..]), old(file.words), MemoryAddress(r) / 2, OffsetOf(r.da), WordCount(r.wc));
        && mem[..] == m.mem && file.words == m.image && Registers() == Advanced(r, m.count, m.faults) && interrupt == r.cs.ie
    {
      ghost var r := Registers();
      ghost var m := Transfer(r.cs.func, mem[..], file.words, MemoryAddress(r) / 2, OffsetOf(r.da), WordCount(r.wc));
      var ma, faults := RunTransfer(cs.func, file, mem, 0x1_0000 * cs.mex + ba, OffsetOf(da), WordCount(wc));
      interrupt := Advance(ma, faults, m.count);
    }

    // GO, unless it is a write check that never ends.
    method Go() returns (interrupt: bool)
      requires Valid() && !GoHangs(Registers(), DriveOn(Selected(), readOnly[DriveField(da)]), mem[..])
      modifies `cs, `er, `wc, `ba, `da, mem, if Selected() == null then {} else {Selected()}
      ensures Valid()
      ensures var (file, locked) := (old(Selected()), readOnly[DriveField(old(da))]);
        Outcome(Registers(), DriveOn(file, locked), mem[..], interrupt) ==
          Rk11.Go(old(Registers()), old(DriveOn(file, locked)), old(mem[..]))
    {
      var (file, locked) := (Selected(), readOnly[DriveField(da)]);
      cs, er := cs.(err := false, herr := false, scp := false, done := false), {};
      if cs.func.ControlReset? {
        cs, er, wc, ba, da := RESET.cs, {}, 0, 0, 0;
        return false;
      }
      if file == null {
        interrupt := Fail(NoDisk);
      } else if locked && (cs.func.Write? || cs.func.WriteLock?) {
        interrupt := Fail(WriteLockout);
      } else if SectorField(da) >= SECTORS {
        interrupt := Fail(NoSector);
      } else if CylinderField(da) >= CYLINDERS {
        interrupt := Fail(NoCylinder);
      } else {
        interrupt := Execute(file);
      }
    }

    // A write of RKCS. GO counts when the controller is done, and nothing while INIT is
    // asserted.
    method SetCs(upper: nat, ie: bool, mex: nat, func: Function, go: bool) returns (interrupt: bool)
      requires Valid() && upper < 32 && mex < 4
      requires initL && go && cs.done ==>
        !GoHangs(Loaded(Registers(), upper, ie, mex, func), DriveOn(Selected(), readOnly[DriveField(da)]), mem[..])
      modifies `cs, `er, `wc, `ba, `da, mem, if Selected() == null then {} else {Selected()}
      ensures Valid()
      ensures var (file, locked, r) := (old(Selected()), readOnly[DriveField(old(da))], Loaded(old(Registers()), upper, ie, mex, func));
        var drive := old(DriveOn(file, locked));
        Outcome(Registers(), DriveOn(file, locked), mem[..], interrupt) ==
          if !initL then Outcome(old(Registers()), drive, old(mem[..]), false)
          else if go && r.cs.done then Rk11.Go(r, drive, old(mem[..]))
          else Outcome(r, drive, old(mem[..]), false)
    {
      interrupt := false;
      if !initL {
        return;
      }
      cs := cs.(upper := upper, ie := ie, mex := mex, func := func);
      if go && cs.done {
        interrupt := Go();
      }
    }

    method SetWc(data: nat)
      requires Valid() && data < 0x1_0000
      modifies `wc
      ensures Valid() && Registers() == old(Registers()).(wc := if initL then data else old(wc))
    {
      if initL { wc := data; }
    }

    method SetBa(data: nat)
      requires Valid() && data < 0x1_0000
      modifies `ba
      ensures Valid() && Registers() == old(Registers()).(ba := if initL then data else old(ba))
    {
      if initL { ba := data; }
    }

    method SetDa(data: nat)
      requires Valid() && data < 0x1_0000
      modifies `da
      ensures Valid() && Registers() == old(Registers()).(da := if initL then data else old(da))
    {
      if initL { da := data; }
    }

    method BusInit(asserted: bool)
      requires Valid()
      modifies `cs, `er, `wc, `ba, `da, `initL
      ensures Valid() && initL == !asserted && Registers() == if asserted then RESET else old(Registers())
    {
      initL := !asserted;
      if asserted {
        cs, er, wc, ba, da := RESET.cs, {}, 0, 0, 0;
      }
    }
  }
}
