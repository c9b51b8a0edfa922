/**
 Where the words of an RL11 disk address lie, and what follows for transfers: each word
 goes to its own place, and a transfer leaves every other sector alone.
 */
module Rl11Places {
  import opened DiskTransfer
  import opened Rl11

  // ----- Disk addresses as places -----

  // The sectors before an address: 40 on a track, and two heads on a cylinder.
  function SectorsBefore(da: nat): nat {
    40 * (2 * (da / 128 % 512) + da / 64 % 2) + da % 64
  }

  /** A sector starts 128 words after each one before it. */
  lemma OffsetIs(da: nat)
    ensures OffsetOf(da) == 128 * SectorsBefore(da)
  {}

  /** Different addresses on the disk are sectors that do not overlap. */
  lemma PlacesDiffer(da: nat, db: nat, rl02: bool)
    requires da < 0x1_0000 && db < 0x1_0000 && da != db && OnDisk(da, rl02) && OnDisk(db, rl02)
    ensures OffsetOf(da) + 128 <= OffsetOf(db) || OffsetOf(db) + 128 <= OffsetOf(da)
  {
    TrackPlace(da);
    TrackPlace(db);
    SectorsApart(da / 64, da % 64, db / 64, db % 64);
  }

  lemma SectorsApart(t: nat, s: nat, t': nat, s': nat)
    requires s < 40 && s' < 40 && (t != t' || s != s')
    ensures 40 * t + s < 40 * t' + s' || 40 * t' + s' < 40 * t + s
  {}

  // Heads and cylinders together number the tracks.
  lemma TrackPlace(da: nat)
    requires da < 0x1_0000
    ensures OffsetOf(da) == 128 * (40 * (da / 64) + da % 64)
  {
    TrackOf(da);
    OffsetIs(da);
  }

  /** An image has its full size from 2621440 words of an RL01 on, or 5242880 of an RL02. */
  lemma FullSizeIs(u: Unit)
    ensures FullSize(u) <==> |u.image| >= if u.rl02 then 5_242_880 else 2_621_440
  {}

  /** The sectors of the disk are exactly the image, 256 cylinders of an RL01 or 512 of an
      RL02: each one lies in it, */
  lemma PlaceIsOnImage(da: nat, rl02: bool)
    requires OnDisk(da, rl02)
    ensures OffsetOf(da) + 128 <= 2 * 40 * 128 * Cylinders(rl02)
  {
    OffsetIs(da);
  }

  /** and each place in it is a sector. */
  lemma PlaceIsSector(n: nat, rl02: bool) returns (da: nat)
    requires n < 2 * 40 * Cylinders(rl02)
    ensures da < 0x1_0000 && OnDisk(da, rl02) && OffsetOf(da) == 128 * n
  {
    var (track, sector) := (n / 40, n % 40);
    da := 64 * track + sector;
    assert da / 64 == track && da % 64 == sector && da / 128 == track / 2;
    OffsetIs(da);
  }

  /** After a sector comes the next of its track, */
  lemma NextSector(da: nat)
    requires da % 64 < 39 && da + 1 < 0x1_0000
    ensures OffsetOf(da + 1) == OffsetOf(da) + 128
  {
    SplitAddress(da + 1, da / 64, da % 64 + 1);
    TrackPlace(da);
    TrackPlace(da + 1);
  }

  /** and after the last one of a track the other head, and then the next cylinder. */
  lemma NextTrack(track: nat)
    requires track + 1 < 1024
    ensures OffsetOf(64 * track + 64) == OffsetOf(64 * track + 39) + 128
  {
    SplitAddress(64 * track + 39, track, 39);
    SplitAddress(64 * track + 64, track + 1, 0);
    TrackPlace(64 * track + 39);
    TrackPlace(64 * track + 64);
  }

  lemma SplitAddress(da: nat, track: nat, sector: nat)
    requires da == 64 * track + sector && sector < 64
    ensures da / 64 == track && da % 64 == sector
  {}

  // ----- Words and places -----

  // The words that a transfer moves if nothing stops it.
  function Count(r: Regs): (n: nat)
    requires r.Valid() && r.da % 64 < 40
  {
    Min(Request(r.mp), 128 * (40 - r.da % 64))
  }

  /** READ brings the words from their places on the disk into memory, in order, at
      addresses that wrap at 2^18. */
  lemma {:induction false} ReadBrings(r: Regs, u: Unit, mem: seq<nat>, base: nat, first: nat, i: nat)
    requires r.Valid() && Clear(r, u, |mem|) && r.cs.func.Read? && |mem| <= SPACE
    requires u.cyl < Cylinders(u.rl02) && u.head < 2 && i < Count(r)
    requires base == MemoryAddress(r) / 2 && first == 128 * SectorsBefore(r.da)
    ensures first + i < |u.image| && (base + i) % 0x2_0000 < |mem|
    ensures Go(r, u, mem).mem[(base + i) % 0x2_0000] == u.image[first + i]
  {
    ReadMoves(r, u, mem);
    OffsetIs(r.da);
    StoredPlace(mem, base, u.image, first, Count(r), i);
  }

  // What a read and a write that nothing stops come to.
  lemma {:induction false} ReadMoves(r: Regs, u: Unit, mem: seq<nat>)
    requires r.Valid() && Clear(r, u, |mem|) && r.cs.func.Read? && u.cyl < Cylinders(u.rl02) && u.head < 2
    ensures Count(r) <= Available(u.image, OffsetOf(r.da))
    ensures Go(r, u, mem).mem == Stored(mem, MemoryAddress(r) / 2, Extract(u.image, OffsetOf(r.da), Count(r)))
  {
    ClearMoves(r, u, mem);
    GoMoves(r, u, mem);
  }

  lemma {:induction false} WriteMoves(w: Regs, u: Unit, mem: seq<nat>)
    requires w.Valid() && Clear(w, u, |mem|) && w.cs.func.Write? && u.cyl < Cylinders(u.rl02) && u.head < 2
    ensures var v := Go(w, u, mem).unit;
      && v.image == Overwrite(u.image, OffsetOf(w.da), Fetched(mem, MemoryAddress(w) / 2, Count(w)))
      && v.rl02 == u.rl02 && v.attached && v.cyl < Cylinders(u.rl02) && v.head < 2
  {
    ClearMoves(w, u, mem);
    GoMoves(w, u, mem);
  }

  /** WRITE brings the words from memory to their places, and no other word of the disk
      changes. */
  lemma {:induction false} WriteBrings(w: Regs, u: Unit, mem: seq<nat>, base: nat, first: nat, k: nat)
    requires w.Valid() && Clear(w, u, |mem|) && w.cs.func.Write? && FullSize(u) && |mem| <= SPACE
    requires u.cyl < Cylinders(u.rl02) && u.head < 2 && k < |u.image|
    requires base == MemoryAddress(w) / 2 && first == 128 * SectorsBefore(w.da)
    ensures var image := Go(w, u, mem).unit.image;
      && |image| == |u.image|
      && if first <= k < first + Count(w) then
           var a := (base + (k - first)) % 0x2_0000; a < |mem| && image[k] == mem[a]
         else image[k] == u.image[k]
  {
    WriteMoves(w, u, mem);
    TrackIsOnImage(w.da, u);
    OffsetIs(w.da);
    OverwrittenPlace(u.image, first, mem, base, Count(w), k);
  }

  // Transfers on different tracks, or on different parts of one.
  predicate Apart(w: Regs, r: Regs)
    requires w.Valid() && r.Valid() && w.da % 64 < 40 && r.da % 64 < 40
  {
    || w.da / 64 != r.da / 64
    || 128 * (w.da % 64) + Count(w) <= 128 * (r.da % 64)
    || 128 * (r.da % 64) + Count(r) <= 128 * (w.da % 64)
  }

  lemma ApartPlaces(w: Regs, r: Regs, rl02: bool)
    requires w.Valid() && r.Valid() && OnDisk(w.da, rl02) && OnDisk(r.da, rl02) && Apart(w, r)
    ensures OffsetOf(w.da) + Count(w) <= OffsetOf(r.da) || OffsetOf(r.da) + Count(r) <= OffsetOf(w.da)
  {
    TrackPlace(w.da);
    TrackPlace(r.da);
    TracksApart(w.da / 64, w.da % 64, Count(w), r.da / 64, r.da % 64, Count(r));
  }

  lemma TracksApart(t: nat, s: nat, n: nat, t': nat, s': nat, n': nat)
    requires s < 40 && s' < 40 && n <= 128 * (40 - s) && n' <= 128 * (40 - s')
    requires t != t' || 128 * s + n <= 128 * s' || 128 * s' + n' <= 128 * s
    ensures 128 * (40 * t + s) + n <= 128 * (40 * t' + s') || 128 * (40 * t' + s') + n' <= 128 * (40 * t + s)
  {}

  lemma TrackOf(da: nat)
    requires da < 0x1_0000
    ensures 2 * (da / 128 % 512) + da / 64 % 2 == da / 64
  {
    assert da / 128 == da / 64 / 2 && da / 128 < 512;
  }

  /** WRITE, then READ of other sectors, also under the other head or on another cylinder:
      the words that come are those from before the write. */
  lemma {:induction false} WriteElsewhere(w: Regs, r: Regs, u: Unit, mem: seq<nat>, other: seq<nat>)
    requires w.Valid() && r.Valid() && w.cs.func.Write? && r.cs.func.Read? && FullSize(u)
    requires Clear(w, u, |mem|) && Clear(r, u, |other|) && Apart(w, r)
    requires u.cyl < Cylinders(u.rl02) && u.head < 2
    ensures var v := Go(w, u, mem).unit;
      v.cyl < Cylinders(v.rl02) && v.head < 2 && Go(r, v, other).mem == Go(r, u, other).mem
  {
    WriteMoves(w, u, mem);
    TrackIsOnImage(w.da, u);
    ReadMoves(r, u, other);
    KeepsElsewhere(w, r, u, Fetched(mem, MemoryAddress(w) / 2, Count(w)));
    ReadsTheSame(r, u, Go(w, u, mem).unit, other);
  }

  lemma {:induction false} KeepsElsewhere(w: Regs, r: Regs, u: Unit, words: seq<nat>)
    requires w.Valid() && r.Valid() && OnDisk(w.da, u.rl02) && OnDisk(r.da, u.rl02) && Apart(w, r) && |words| == Count(w)
    requires OffsetOf(w.da) + Count(w) <= |u.image| && Count(r) <= Available(u.image, OffsetOf(r.da))
    ensures var after := Overwrite(u.image, OffsetOf(w.da), words);
      |after| == |u.image| && Extract(after, OffsetOf(r.da), Count(r)) == Extract(u.image, OffsetOf(r.da), Count(r))
  {
    ApartPlaces(w, r, u.rl02);
    ExtractElsewhere(u.image, OffsetOf(w.da), words, OffsetOf(r.da), Count(r));
  }

  lemma {:induction false} ReadsTheSame(r: Regs, u: Unit, v: Unit, other: seq<nat>)
    requires r.Valid() && r.cs.func.Read? && Clear(r, u, |other|) && u.cyl < Cylinders(u.rl02) && u.head < 2
    requires v.cyl < Cylinders(v.rl02) && v.head < 2
    requires v.attached && v.rl02 == u.rl02 && |v.image| == |u.image| && Count(r) <= Available(u.image, OffsetOf(r.da))
    requires Extract(v.image, OffsetOf(r.da), Count(r)) == Extract(u.image, OffsetOf(r.da), Count(r))
    ensures Go(r, v, other).mem == Go(r, u, other).mem
  {
    ReadMoves(r, u, other);
    ReadMoves(r, v, other);
  }
}
