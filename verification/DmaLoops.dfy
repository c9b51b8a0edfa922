/**
 The transfer loops that both disk controllers run: over the words of a sector, and
 over the sectors of a transfer, each against a file and the memory.
 */
module DmaLoops {
  import opened DiskTransfer

  // ----- Loops over the words of one sector -----

  method StoreWords(mem: array<nat>, words: seq<nat>, ma0: nat, ghost base: nat) returns (ma: nat, nxm: bool)
    requires base == ma0 / 2
    modifies mem
    ensures var r := Reach(base, |words|, mem.Length);
      mem[..] == Stored(old(mem[..]), base, words[..r]) && ma == ma0 + 2 * r && (nxm <==> r < |words|)
  {
    ma := ma0;
    var i := 0;
    while i < |words|
      invariant 0 <= i <= |words| && ma == ma0 + 2 * i
      invariant forall j :: 0 <= j < i ==> Slot(ma0 / 2, j) < mem.Length
      invariant mem[..] == Stored(old(mem[..]), ma0 / 2, words[..i])
    {
      SlotOfAddress(ma0, i);
      var slot := ma % 0x4_0000 / 2;
      if slot >= mem.Length {
        ReachIs(ma0 / 2, |words|, mem.Length, i);
        return ma, true;
      }
      StoreOne(old(mem[..]), ma0 / 2, words[..i], words[i]);
      assert words[..i + 1] == words[..i] + [words[i]];
      mem[slot] := words[i];
      ma := ma + 2;
      i := i + 1;
    }
    ReachIs(ma0 / 2, |words|, mem.Length, |words|);
    assert words[..|words|] == words;
    nxm := false;
  }

  method FetchWords(mem: array<nat>, n: nat, ma0: nat, ghost base: nat) returns (buf: seq<nat>, ma: nat, nxm: bool)
    requires base == ma0 / 2
    ensures var r := Reach(base, n, mem.Length);
      ma == ma0 + 2 * r && (nxm <==> r < n) && (!nxm ==> buf == Fetched(mem[..], base, n))
  {
    buf, ma := [], ma0;
    var i := 0;
    while i < n
      invariant 0 <= i <= n && ma == ma0 + 2 * i && |buf| == i
      invariant forall j :: 0 <= j < i ==> Slot(base, j) < mem.Length
      invariant forall j :: 0 <= j < i ==> buf[j] == mem[Slot(base, j)]
    {
      SlotOfAddress(ma0, i);
      var slot := ma % 0x4_0000 / 2;
      if slot >= mem.Length {
        ReachIs(base, n, mem.Length, i);
        return buf, ma, true;
      }
      buf := buf + [mem[slot]];
      ma := ma + 2;
      i := i + 1;
    }
    ReachIs(base, n, mem.Length, n);
    nxm := false;
  }

  // ----- Loops over the sectors of a transfer -----

  // A transfer as it starts: the memory, the image, the word address in memory, the
  // offset in the image, the words to move, and the words of a sector.
  datatype Job = Job(mem: seq<nat>, image: seq<nat>, base: nat, off: nat, n: nat, sector: nat)
  {
    predicate Ok() { n <= 0x1_0000 && (sector == 128 || sector == 256) }

    function Reaches(m: nat): nat { Reach(base, m, |mem|) }

    function OnImage(): nat { Min(n, Available(image, off)) }

    // Words that one call of fread gets.
    function Got(done: nat): nat
      requires done <= n
    {
      Min(Min(sector, n - done), Available(image, off + done))
    }
  }

  lemma WholeOfPart(done: nat, r: nat, sector: nat)
    requires (sector == 128 || sector == 256) && done % sector == 0
    ensures r < sector ==> Whole(done + r, sector) == done
    ensures (done + sector) % sector == 0
  {}

  // ----- Into memory -----

  // The words before done are read into memory.
  ghost predicate ReadSoFar(mem: seq<nat>, j: Job, done: nat)
    requires j.Ok()
  {
    && done <= j.OnImage() && (done % j.sector == 0 || done == j.OnImage())
    && j.Reaches(done) == done && mem == Stored(j.mem, j.base, Extract(j.image, j.off, done))
  }

  // A read is over: count words went to memory, and done of them in complete rounds.
  ghost predicate ReadOver(mem: seq<nat>, j: Job, done: nat, count: nat, missing: bool)
    requires j.Ok()
  {
    && count == j.Reaches(j.OnImage()) && mem == Stored(j.mem, j.base, Extract(j.image, j.off, count))
    && (missing <==> count < j.OnImage()) && done == if missing then Whole(count, j.sector) else count
  }

  lemma ReachStops(base: nat, done: nat, got: nat, r: nat, count: nat, all: nat, size: nat)
    requires Reach(base, done, size) == done && done + got <= all && r == Reach(base + done, got, size) && count == done + r
    ensures Reach(base, count, size) == count && (r < got ==> Reach(base, all, size) == count)
  {
    ReachOn(base, done, got, size);
    ReachLess(base, all, size, done + got);
    ReachLess(base, done + got, size, count);
  }

  // Memory after r more words of the sector that follows.
  lemma {:induction false} ReadStored(mem: seq<nat>, j: Job, done: nat, r: nat, count: nat)
    requires j.Ok() && ReadSoFar(mem, j, done) && r <= j.Got(done) && count == done + r
    ensures count <= j.OnImage() && r <= Available(j.image, j.off + done)
    ensures Stored(mem, j.base + done, Extract(j.image, j.off + done, r)) == Stored(j.mem, j.base, Extract(j.image, j.off, count))
  {
    ExtractOn(j.image, j.off, done, r);
    StoreAgain(j.mem, j.base, Extract(j.image, j.off, done), Extract(j.image, j.off + done, r));
  }

  lemma ReadAligned(j: Job, done: nat, got: nat, r: nat)
    requires j.Ok() && done < j.n && done <= j.OnImage() && (done % j.sector == 0 || done == j.OnImage())
    requires got == j.Got(done) && r <= got
    ensures (done + got) % j.sector == 0 || done + got == j.OnImage()
    ensures r < got ==> Whole(done + r, j.sector) == done
  {
    assert Available(j.image, j.off + done) == Available(j.image, j.off) - done;
    if got > 0 {
      WholeOfPart(done, r, j.sector);
    }
    if got < j.sector {
      assert done + got == j.OnImage();
    }
  }

  lemma ReadStops(mem: seq<nat>, after: seq<nat>, j: Job, done: nat, got: nat, r: nat, count: nat)
    requires j.Ok() && ReadSoFar(mem, j, done) && done < j.n && got == j.Got(done) && count == done + r
    requires r == Reach(j.base + done, got, |j.mem|) < got && r <= Available(j.image, j.off + done)
    requires after == Stored(mem, j.base + done, Extract(j.image, j.off + done, r))
    ensures ReadOver(after, j, done, count, true)
  {
    ReadStored(mem, j, done, r, count);
    ReachStops(j.base, done, got, r, count, j.OnImage(), |j.mem|);
    ReadAligned(j, done, got, r);
  }

  lemma ReadGoesOn(mem: seq<nat>, after: seq<nat>, j: Job, done: nat, got: nat, count: nat)
    requires j.Ok() && ReadSoFar(mem, j, done) && done < j.n && got == j.Got(done) && count == done + got
    requires got == Reach(j.base + done, got, |j.mem|) && got <= Available(j.image, j.off + done)
    requires after == Stored(mem, j.base + done, Extract(j.image, j.off + done, got))
    ensures ReadSoFar(after, j, count)
  {
    ReadStored(mem, j, done, got, count);
    ReachStops(j.base, done, got, got, count, j.OnImage(), |j.mem|);
    ReadAligned(j, done, got, got);
  }

  lemma {:induction false} ReadContinues(mem: seq<nat>, after: seq<nat>, j: Job, done: nat, got: seq<nat>, r: nat, count: nat)
    requires j.Ok() && ReadSoFar(mem, j, done) && done < j.n && |got| == j.Got(done) <= Available(j.image, j.off + done)
    requires got == Extract(j.image, j.off + done, |got|)
    requires r == Reach(j.base + done, |got|, |j.mem|) && after == Stored(mem, j.base + done, got[..r]) && count == done + r
    ensures if r < |got| then ReadOver(after, j, done, count, true) else ReadSoFar(after, j, count)
  {
    ExtractPrefix(j.image, j.off + done, |got|, r);
    if r < |got| {
      ReadStops(mem, after, j, done, |got|, r, count);
    } else {
      ReadGoesOn(mem, after, j, done, |got|, count);
    }
  }

  lemma ReadEnds(mem: seq<nat>, j: Job, done: nat)
    requires j.Ok() && ReadSoFar(mem, j, done) && j.Got(done) == 0
    ensures done == j.OnImage() && ReadOver(mem, j, done, done, false)
  {}

  // One round of a read: the words of a sector, or of the part of it that is left.
  method ReadRound(file: WordFile, mem: array<nat>, ma0: nat, n: nat, sector: nat, done: nat, ghost j: Job)
    returns (ma: nat, next: nat, missing: bool, ghost count: nat)
    requires j.Ok() && j.n == n > done && j.sector == sector && j.base == ma0 / 2 && |j.mem| == mem.Length
    requires file.pos == j.off + done && file.words == j.image && ReadSoFar(mem[..], j, done)
    modifies file`pos, mem
    ensures ma == ma0 + 2 * count
    ensures missing ==> next == done && ReadOver(mem[..], j, done, count, true)
    ensures !missing ==> next == count >= done && file.pos == j.off + next && ReadSoFar(mem[..], j, next)
    ensures !missing && next == done ==> j.Got(done) == 0
  {
    ghost var before := mem[..];
    var got := file.Read(Min(sector, n - done));
    assert mem[..] == before && |got| == j.Got(done);
    ghost var r := Reach(j.base + done, |got|, mem.Length);
    ma, missing := StoreWords(mem, got, ma0 + 2 * done, j.base + done);
    count := done + r;
    assert ma == ma0 + 2 * count;
    ghost var after := mem[..];
    assert after == Stored(before, j.base + done, got[..r]);
    ReadContinues(before, after, j, done, got, r, count);
    next := if missing then done else done + |got|;
    assert !missing ==> next == count;
  }

  /** Reads n words of a file into memory, up to the end of either. */
  method ReadIn(file: WordFile, mem: array<nat>, ma0: nat, n: nat, sector: nat)
    returns (ma: nat, done: nat, missing: bool, ghost count: nat)
    requires n <= 0x1_0000 && (sector == 128 || sector == 256)
    modifies file`pos, mem
    ensures ReadOver(mem[..], Job(old(mem[..]), file.words, ma0 / 2, old(file.pos), n, sector), done, count, missing)
    ensures ma == ma0 + 2 * count
  {
    ghost var j := Job(mem[..], file.words, ma0 / 2, file.pos, n, sector);
    ma, done, missing, count := ma0, 0, false, 0;
    while done < n
      invariant count == done && file.pos == j.off + done && ma == ma0 + 2 * done && !missing && ReadSoFar(mem[..], j, done)
    {
      var next;
      ma, next, missing, count := ReadRound(file, mem, ma0, n, sector, done, j);
      if missing {
        return;
      }
      if next == done {
        break;
      }
      done := next;
    }
    ReadEnds(mem[..], j, done);
  }

  // ----- Out of memory -----

  // The words before done are on the disk.
  ghost predicate WrittenSoFar(image: seq<nat>, j: Job, done: nat)
    requires j.Ok()
  {
    && done <= j.n && (done % j.sector == 0 || done == j.n)
    && j.Reaches(done) == done && image == Overwrite(j.image, j.off, Fetched(j.mem, j.base, done))
  }

  // A write is over: count words left memory, and done of them are on the disk.
  ghost predicate WriteOver(image: seq<nat>, j: Job, done: nat, count: nat, missing: bool)
    requires j.Ok()
  {
    && count == j.Reaches(j.n) && (missing <==> count < j.n) && done == (if missing then Whole(count, j.sector) else count)
    && j.Reaches(done) == done && image == Overwrite(j.image, j.off, Fetched(j.mem, j.base, done))
  }

  lemma WriteStops(image: seq<nat>, j: Job, done: nat, put: nat, r: nat, count: nat)
    requires j.Ok() && WrittenSoFar(image, j, done) && done < j.n && put == Min(j.sector, j.n - done) && count == done + r
    requires r == Reach(j.base + done, put, |j.mem|) < put
    ensures WriteOver(image, j, done, count, true)
  {
    ReachStops(j.base, done, put, r, count, j.n, |j.mem|);
    WholeOfPart(done, r, j.sector);
  }

  lemma {:induction false} WriteFetched(j: Job, done: nat, buf: seq<nat>, count: nat)
    requires j.Ok() && j.Reaches(done) == done < j.n && done % j.sector == 0
    requires count == done + |buf| && |buf| == Min(j.sector, j.n - done)
    requires Reach(j.base + done, |buf|, |j.mem|) == |buf| && buf == Fetched(j.mem, j.base + done, |buf|)
    ensures j.Reaches(count) == count && Fetched(j.mem, j.base, count) == Fetched(j.mem, j.base, done) + buf
    ensures count % j.sector == 0 || count == j.n
  {
    WholeOfPart(done, 0, j.sector);
    FetchAgain(j.mem, j.base, done, |buf|);
  }

  lemma {:induction false} WriteContinues(image: seq<nat>, after: seq<nat>, j: Job, done: nat, buf: seq<nat>, count: nat)
    requires j.Ok() && WrittenSoFar(image, j, done) && done < j.n && count == done + |buf| && |buf| == Min(j.sector, j.n - done)
    requires Reach(j.base + done, |buf|, |j.mem|) == |buf| && buf == Fetched(j.mem, j.base + done, |buf|)
    requires after == Overwrite(image, j.off + done, buf)
    ensures WrittenSoFar(after, j, count)
  {
    WriteFetched(j, done, buf, count);
    OverwriteAgain(j.image, j.off, Fetched(j.mem, j.base, done), buf);
  }

  /** Writes n words of memory to a file. Words of a sector that memory does not hold in
      full stay off the disk. */
  method WriteOut(file: WordFile, mem: array<nat>, ma0: nat, n: nat, sector: nat)
    returns (ma: nat, done: nat, missing: bool, ghost count: nat)
    requires n <= 0x1_0000 && (sector == 128 || sector == 256)
    modifies file
    ensures WriteOver(file.words, Job(mem[..], old(file.words), ma0 / 2, old(file.pos), n, sector), done, count, missing)
    ensures ma == ma0 + 2 * count
  {
    ghost var j := Job(mem[..], file.words, ma0 / 2, file.pos, n, sector);
    ma, done, missing, count := ma0, 0, false, 0;
    while done < n
      invariant count == done && file.pos == j.off + done && ma == ma0 + 2 * done && WrittenSoFar(file.words, j, done)
    {
      ghost var r := Reach(j.base + done, Min(sector, n - done), mem.Length);
      var buf, nxm;
      buf, ma, nxm := FetchWords(mem, Min(sector, n - done), ma, j.base + done);
      if nxm {
        count := done + r;
        WriteStops(file.words, j, done, Min(sector, n - done), r, count);
        missing := true;
        return;
      }
      ghost var before := file.words;
      file.Write(buf);
      count := done + |buf|;
      WriteContinues(before, file.words, j, done, buf, count);
      done := done + |buf|;
    }
    assert WriteOver(file.words, j, done, done, false);
  }
}
