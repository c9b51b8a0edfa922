/**
 Where the words of an RK11 disk address lie, and what the transfers and checks do with
 them: each word goes to its own place, other sectors stay, and a write check finds
 exactly a difference.
 */
module Rk11Places {
  import opened DiskTransfer
  import opened Rk11

  // ----- Disk addresses as places -----

  // The sectors before an address: 12 on a track, and the surface below the cylinder.
  function SectorsBefore(da: nat): nat { 12 * (da / 16 % 512) + da % 16 }

  /** A sector starts 256 words after each one before it, in any drive. */
  lemma OffsetIs(da: nat)
    ensures OffsetOf(da) == 256 * SectorsBefore(da)
  {
    var track := da / 16;
    assert da / 32 == track / 2;
    assert track % 512 == 2 * (track / 2 % 256) + track % 2;
  }

  /** Different addresses on one disk are sectors that do not overlap. */
  lemma PlacesDiffer(da: nat, db: nat)
    requires da < 0x1_0000 && db < 0x1_0000 && OnDisk(da) && OnDisk(db) && da % 0x2000 != db % 0x2000
    ensures OffsetOf(da) + 256 <= OffsetOf(db) || OffsetOf(db) + 256 <= OffsetOf(da)
  {
    OffsetIs(da);
    OffsetIs(db);
    Digits(da);
    Digits(db);
    SectorsApart(da / 16 % 512, da % 16, db / 16 % 512, db % 16);
  }

  lemma Digits(da: nat)
    ensures da % 0x2000 == 16 * (da / 16 % 512) + da % 16
  {
    var (q, t, s) := (da / 0x2000, da % 0x2000 / 16, da % 0x2000 % 16);
    DigitsOf(da, q, t, s);
  }

  lemma DigitsOf(da: nat, q: nat, t: nat, s: nat)
    requires da == 0x2000 * q + 16 * t + s && t < 512 && s < 16
    ensures da / 16 % 512 == t && da % 16 == s
  {
    var track := 512 * q + t;
    assert da == 16 * track + s;
    assert da / 16 == track;
  }

  lemma SectorsApart(t: nat, s: nat, t': nat, s': nat)
    requires s < 12 && s' < 12 && (t != t' || s != s')
    ensures 12 * t + s < 12 * t' + s' || 12 * t' + s' < 12 * t + s
  {}

  /** The sectors of a disk are exactly the 203 * 2 * 12 * 256 words of an image: each one
      lies in it, */
  lemma PlaceIsOnImage(da: nat)
    requires OnDisk(da)
    ensures OffsetOf(da) + 256 <= 203 * 2 * 12 * 256
  {}

  /** and each place in it is a sector. */
  lemma PlaceIsSector(n: nat) returns (da: nat)
    requires n < 203 * 2 * 12
    ensures da < 0x2000 && OnDisk(da) && OffsetOf(da) == 256 * n
  {
    var (track, sector) := (n / 12, n % 12);
    da := 16 * track + sector;
    assert da / 16 == track && da % 16 == sector && da / 32 == track / 2;
    OffsetIs(da);
  }

  // ----- Errors -----

  /** The first check that fails, in this order, is the one error of a function, and then
      nothing moves. A function that passes them can only run into missing memory, the end
      of the image, or a difference. */
  lemma ErrorsInOrder(r: Regs, drive: Drive, mem: seq<nat>)
    requires r.Valid() && !r.cs.func.ControlReset?
    ensures var o := Go(r, drive, mem);
      var failed := if drive.Absent? then {NoDisk}
        else if drive.readOnly && (r.cs.func.Write? || r.cs.func.WriteLock?) then {WriteLockout}
        else if r.da % 16 >= 12 then {NoSector}
        else if r.da / 32 % 256 >= 203 then {NoCylinder} else {};
      && (failed != {} ==>
            && o.regs.er == failed && o.mem == mem && o.drive == drive
            && o.regs.wc == r.wc && o.regs.ba == r.ba && o.regs.da == r.da && o.regs.cs.mex == r.cs.mex)
      && (failed == {} <==> Transfers(r, drive))
      && (failed == {} ==> o.regs.er <= {NoMemory, Overrun, WriteCheckError})
  {}

  /** Every function ends done, with the summaries of its errors, and interrupts exactly if
      IE is set. A seek or drive reset that passes the checks tells that it was one. */
  lemma EveryFunctionEnds(r: Regs, drive: Drive, mem: seq<nat>)
    requires r.Valid() && !r.cs.func.ControlReset?
    ensures var o := Go(r, drive, mem);
      && o.regs.cs.done && o.interrupt == r.cs.ie
      && (o.regs.cs.err <==> o.regs.er != {})
      && (o.regs.cs.herr <==> NoDisk in o.regs.er || NoCylinder in o.regs.er || NoSector in o.regs.er || NoMemory in o.regs.er)
      && (o.regs.cs.scp <==> Transfers(r, drive) && (r.cs.func.Seek? || r.cs.func.DriveReset?))
  {}

  /** A control reset clears every register, is done at once and does not interrupt. */
  lemma ResetClears(r: Regs, drive: Drive, mem: seq<nat>)
    requires r.Valid() && r.cs.func.ControlReset?
    ensures var o := Go(r, drive, mem);
      && o.drive == drive && o.mem == mem && !o.interrupt
      && o.regs.er == {} && o.regs.wc == 0 && o.regs.ba == 0 && o.regs.da == 0
      && o.regs.cs == Cs(false, false, false, 0, true, false, 0, ControlReset)
  {}

  // ----- Words and places -----

  // A read that gets all its words.
  predicate GoodRead(r: Regs, drive: Drive, size: nat)
    requires r.Valid()
  {
    && r.cs.func.Read? && drive.Disk? && OnDisk(r.da)
    && WordCount(r.wc) <= Available(drive.image, OffsetOf(r.da))
    && Reach(MemoryAddress(r) / 2, WordCount(r.wc), size) == WordCount(r.wc)
  }

  lemma {:induction false} GoodReadMoves(r: Regs, drive: Drive, mem: seq<nat>)
    requires r.Valid() && GoodRead(r, drive, |mem|)
    ensures var o := Go(r, drive, mem);
      && o.mem == Stored(mem, MemoryAddress(r) / 2, Extract(drive.image, OffsetOf(r.da), WordCount(r.wc)))
      && o.regs.er == {} && o.drive == drive
  {
    ReadOutcome(r, drive, mem, Extract(drive.image, OffsetOf(r.da), WordCount(r.wc)));
  }

  /** READ brings the words from their places on the disk into memory, in order, at
      addresses that wrap at 2^18. */
  lemma {:induction false} ReadBrings(r: Regs, drive: Drive, mem: seq<nat>, base: nat, first: nat, i: nat)
    requires r.Valid() && GoodRead(r, drive, |mem|) && |mem| <= SPACE && i < WordCount(r.wc)
    requires base == MemoryAddress(r) / 2 && first == 256 * SectorsBefore(r.da)
    ensures first + i < |drive.image| && (base + i) % 0x2_0000 < |mem|
    ensures Go(r, drive, mem).mem[(base + i) % 0x2_0000] == drive.image[first + i]
  {
    GoodReadMoves(r, drive, mem);
    OffsetIs(r.da);
    StoredPlace(mem, base, drive.image, first, WordCount(r.wc), i);
  }

  /** WRITE brings the words from memory to their places, and no other word of the disk
      changes. */
  lemma {:induction false} WriteBrings(w: Regs, drive: Drive, mem: seq<nat>, base: nat, first: nat, k: nat)
    requires w.Valid() && GoodWrite(w, drive, |mem|) && |mem| <= SPACE
    requires base == MemoryAddress(w) / 2 && first == 256 * SectorsBefore(w.da)
    requires k < Max(|drive.image|, first + WordCount(w.wc))
    ensures var after := Go(w, drive, mem).drive;
      && after.Disk? && |after.image| == Max(|drive.image|, first + WordCount(w.wc))
      && if first <= k < first + WordCount(w.wc) then
           var a := (base + (k - first)) % 0x2_0000; a < |mem| && after.image[k] == mem[a]
         else after.image[k] == if k < |drive.image| then drive.image[k] else 0
  {
    WriteOutcome(w, drive, mem);
    OffsetIs(w.da);
    OverwrittenPlace(drive.image, first, mem, base, WordCount(w.wc), k);
  }

  /** WRITE, then READ of sectors that it does not reach: the words that come are those
      from before the write. */
  lemma {:induction false} WriteElsewhere(w: Regs, r: Regs, drive: Drive, mem: seq<nat>, other: seq<nat>)
    requires w.Valid() && r.Valid() && GoodWrite(w, drive, |mem|) && GoodRead(r, drive, |other|)
    requires var (a, b) := (256 * SectorsBefore(w.da), 256 * SectorsBefore(r.da));
      a + WordCount(w.wc) <= b || b + WordCount(r.wc) <= a
    ensures Go(r, Go(w, drive, mem).drive, other).mem == Go(r, drive, other).mem
  {
    OffsetIs(w.da);
    OffsetIs(r.da);
    WriteOutcome(w, drive, mem);
    ExtractElsewhere(drive.image, OffsetOf(w.da), Fetched(mem, MemoryAddress(w) / 2, WordCount(w.wc)), OffsetOf(r.da), WordCount(r.wc));
    GoodReadMoves(r, drive, other);
    GoodReadMoves(r, Go(w, drive, mem).drive, other);
  }

  /** A write check reports a difference if and only if a word that it reaches, of the image
      and in memory, differs. */
  lemma {:induction false} CheckFinds(r: Regs, drive: Drive, mem: seq<nat>, base: nat, first: nat, k: nat)
    requires r.Valid() && Transfers(r, drive) && r.cs.func.WriteCheck?
    requires base == MemoryAddress(r) / 2 && first == 256 * SectorsBefore(r.da)
    requires k == Reach(base, Min(WordCount(r.wc), Available(drive.image, first)), |mem|)
    ensures WriteCheckError in Go(r, drive, mem).regs.er <==>
      exists i :: 0 <= i < k && Differs(mem, drive.image, base, first, i)
  {
    OffsetIs(r.da);
    ReachIsFirst(base, Min(WordCount(r.wc), Available(drive.image, first)), |mem|);
    CheckMeans(mem, drive.image, base, first, WordCount(r.wc), k);
    GoTransfers(r, drive, mem, Transfer(r.cs.func, mem, drive.image, base, first, WordCount(r.wc)));
  }

  // Word i of a transfer is not the same in memory as on the disk.
  predicate Differs(mem: seq<nat>, image: seq<nat>, base: nat, first: nat, i: nat) {
    (base + i) % 0x2_0000 < |mem| && first + i < |image| && mem[(base + i) % 0x2_0000] != image[first + i]
  }

  lemma {:induction false} CheckMeans(mem: seq<nat>, image: seq<nat>, base: nat, off: nat, n: nat, k: nat)
    requires k == Reach(base, Min(n, Available(image, off)), |mem|)
    ensures WriteCheckError in Checking(mem, image, base, off, n).faults <==>
      exists i :: 0 <= i < k && Differs(mem, image, base, off, i)
  {
    var avail := Min(n, Available(image, off));
    ReachIsFirst(base, avail, |mem|);
    ReachAgain(base, avail, |mem|, k);
    if Differ(mem, image, base, off, k) {
      var i :| 0 <= i < k && mem[Slot(base, i)] != image[off + i];
      assert Differs(mem, image, base, off, i);
    }
    if i :| 0 <= i < k && Differs(mem, image, base, off, i) {
      assert mem[Slot(base, i)] != image[off + i];
    }
  }
}
