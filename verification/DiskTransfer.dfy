/**
 What both disk controllers share: direct memory access at 18-bit addresses that wrap,
 and a disk image as a file of words that grows when it is written past its end.
 */
module DiskTransfer {

  // Words in the 18-bit address space.
  const SPACE := 0x2_0000

  // The word that a transfer from word address base reaches i words on.
  function Slot(base: nat, i: nat): (s: nat)
    ensures s < SPACE
  {
    (base + i) % SPACE
  }

  lemma SlotOfAddress(ma: nat, i: nat)
    ensures (ma + 2 * i) % 0x4_0000 / 2 == Slot(ma / 2, i)
  {
    var x := ma / 2 + i;
    assert ma + 2 * i == 0x4_0000 * (x / SPACE) + (2 * (x % SPACE) + ma % 2);
  }

  /** Where in a transfer from base the word w comes. */
  function Place(base: nat, w: nat): nat {
    (w - base) % SPACE
  }

  lemma PlaceOfSlot(base: nat, i: nat)
    requires i < SPACE
    ensures Place(base, Slot(base, i)) == i
  {}

  lemma SlotOfPlace(base: nat, w: nat)
    requires w < SPACE
    ensures Slot(base, Place(base, w)) == w
  {}

  /** How many of n words exist before the first one past the memory. */
  function Reach(base: nat, n: nat, size: nat): (r: nat)
    ensures r <= n
  {
    if n == 0 then 0
    else
      var r := Reach(base, n - 1, size);
      if r == n - 1 && Slot(base, r) < size then n else r
  }

  lemma {:induction false} ReachIsFirst(base: nat, n: nat, size: nat)
    ensures var r := Reach(base, n, size);
      (forall i :: 0 <= i < r ==> Slot(base, i) < size) && (r < n ==> Slot(base, r) >= size)
  {
    if n > 0 { ReachIsFirst(base, n - 1, size); }
  }

  lemma {:induction false} ReachIs(base: nat, n: nat, size: nat, r: nat)
    requires r <= n && (forall i :: 0 <= i < r ==> Slot(base, i) < size) && (r < n ==> Slot(base, r) >= size)
    ensures Reach(base, n, size) == r
  {
    ReachIsFirst(base, n, size);
  }

  /** Memory after words came in from base on, one after the other. */
  function Stored(mem: seq<nat>, base: nat, words: seq<nat>): (m: seq<nat>)
    ensures |m| == |mem|
  {
    if words == [] then mem
    else
      var last := |words| - 1;
      var m := Stored(mem, base, words[..last]);
      if Slot(base, last) < |m| then m[Slot(base, last) := words[last]] else m
  }

  /** Each word of it is the one whose place in the transfer it is, if there is one. */
  lemma {:induction false} StoredAt(mem: seq<nat>, base: nat, words: seq<nat>, w: nat)
    requires |mem| <= SPACE && |words| <= SPACE && w < |mem|
    ensures Stored(mem, base, words)[w] == if Place(base, w) < |words| then words[Place(base, w)] else mem[w]
  {
    if words != [] {
      var last := |words| - 1;
      StoredAt(mem, base, words[..last], w);
      PlaceOfSlot(base, last);
      SlotOfPlace(base, w);
    }
  }

  /** The words that go out of memory from base on. */
  function Fetched(mem: seq<nat>, base: nat, n: nat): (words: seq<nat>)
    requires Reach(base, n, |mem|) == n
    ensures |words| == n
  {
    ReachIsFirst(base, n, |mem|);
    seq(n, i requires 0 <= i < n => mem[Slot(base, i)])
  }

  lemma {:induction false} StoreOne(mem: seq<nat>, base: nat, words: seq<nat>, x: nat)
    requires Slot(base, |words|) < |mem|
    ensures Stored(mem, base, words + [x]) == Stored(mem, base, words)[Slot(base, |words|) := x]
  {
    assert (words + [x])[..|words|] == words;
  }

  lemma SlotShift(base: nat, d: nat, i: nat)
    ensures Slot(base + d, i) == Slot(base, d + i)
  {}

  // The part of a transfer that a later part continues.
  lemma ReachOn(base: nat, d: nat, n: nat, size: nat)
    requires Reach(base, d, size) == d
    ensures Reach(base, d + n, size) == d + Reach(base + d, n, size)
  {
    var r := Reach(base + d, n, size);
    ReachIsFirst(base, d, size);
    ReachIsFirst(base + d, n, size);
    forall i | 0 <= i < d + r ensures Slot(base, i) < size {
      if i >= d { SlotShift(base, d, i - d); }
    }
    if r < n { SlotShift(base, d, r); }
    ReachIs(base, d + n, size, d + r);
  }

  lemma {:induction false} ReachLess(base: nat, n: nat, size: nat, m: nat)
    requires m <= n
    ensures Reach(base, m, size) == Min(m, Reach(base, n, size))
  {
    ReachIsFirst(base, n, size);
    ReachIs(base, m, size, Min(m, Reach(base, n, size)));
  }

  lemma {:induction false} StoreAgain(mem: seq<nat>, base: nat, ws: seq<nat>, vs: seq<nat>)
    ensures Stored(Stored(mem, base, ws), base + |ws|, vs) == Stored(mem, base, ws + vs)
  {
    if vs == [] {
      assert ws + vs == ws;
    } else {
      var last := |vs| - 1;
      StoreAgain(mem, base, ws, vs[..last]);
      assert (ws + vs)[..|ws| + last] == ws + vs[..last];
      SlotShift(base, |ws|, last);
    }
  }

  lemma FetchAgain(mem: seq<nat>, base: nat, d: nat, n: nat)
    requires Reach(base, d, |mem|) == d && Reach(base + d, n, |mem|) == n
    ensures Reach(base, d + n, |mem|) == d + n
    ensures Fetched(mem, base, d + n) == Fetched(mem, base, d) + Fetched(mem, base + d, n)
  {
    ReachOn(base, d, n, |mem|);
    forall i | d <= i < d + n ensures Slot(base, i) == Slot(base + d, i - d) {
      SlotShift(base, d, i - d);
    }
  }

  /** What is stored is fetched back. */
  lemma {:induction false} FetchStored(mem: seq<nat>, base: nat, words: seq<nat>)
    requires |mem| <= SPACE && |words| <= SPACE && Reach(base, |words|, |mem|) == |words|
    ensures Fetched(Stored(mem, base, words), base, |words|) == words
  {
    var f := Fetched(Stored(mem, base, words), base, |words|);
    ReachIsFirst(base, |words|, |mem|);
    forall i | 0 <= i < |words| ensures f[i] == words[i] {
      StoredAt(mem, base, words, Slot(base, i));
      PlaceOfSlot(base, i);
    }
  }

  /** Fetched words stored into another memory bring exactly their slots back. */
  lemma {:induction false} StoreFetched(mem: seq<nat>, other: seq<nat>, base: nat, n: nat)
    requires |mem| == |other| <= SPACE && n <= SPACE && Reach(base, n, |mem|) == n
    ensures var m := Stored(other, base, Fetched(mem, base, n));
      forall w :: 0 <= w < |mem| ==> m[w] == if Place(base, w) < n then mem[w] else other[w]
  {
    var words := Fetched(mem, base, n);
    forall w | 0 <= w < |mem| ensures Stored(other, base, words)[w] == if Place(base, w) < n then mem[w] else other[w] {
      StoredAt(other, base, words, w);
      SlotOfPlace(base, w);
    }
  }

  // Words of the sectors before the one that word k is in.
  function Whole(k: nat, sector: nat): (w: nat)
    requires sector > 0
    ensures w <= k
  {
    k / sector * sector
  }

  // ----- Images -----

  function Min(a: nat, b: nat): nat { if a < b then a else b }
  function Max(a: nat, b: nat): nat { if a < b then b else a }

  // Words from an offset to the end.
  function Available(image: seq<nat>, off: nat): nat {
    if off <= |image| then |image| - off else 0
  }

  function Extract(image: seq<nat>, off: nat, n: nat): (words: seq<nat>)
    requires n <= Available(image, off)
    ensures |words| == n
  {
    if n == 0 then [] else image[off..off + n]
  }

  lemma ExtractOn(image: seq<nat>, off: nat, d: nat, n: nat)
    requires d + n <= Available(image, off)
    ensures n <= Available(image, off + d)
    ensures Extract(image, off, d + n) == Extract(image, off, d) + Extract(image, off + d, n)
  {}

  lemma ExtractPrefix(image: seq<nat>, off: nat, n: nat, r: nat)
    requires r <= n <= Available(image, off)
    ensures Extract(image, off, n)[..r] == Extract(image, off, r)
  {}

  /** An image after words were written at an offset. A gap before them reads as zero. */
  function Overwrite(image: seq<nat>, off: nat, words: seq<nat>): seq<nat> {
    if words == [] then image else seq(Max(|image|, off + |words|), k requires 0 <= k => WordAfter(image, off, words, k))
  }

  function WordAfter(image: seq<nat>, off: nat, words: seq<nat>, k: nat): nat {
    if off <= k < off + |words| then words[k - off] else if k < |image| then image[k] else 0
  }

  lemma OverwriteAgain(image: seq<nat>, off: nat, ws: seq<nat>, vs: seq<nat>)
    ensures Overwrite(Overwrite(image, off, ws), off + |ws|, vs) == Overwrite(image, off, ws + vs)
  {
    if ws == [] {
      assert ws + vs == vs;
    } else if vs == [] {
      assert ws + vs == ws;
    } else {
      OverwriteBoth(image, off, ws, vs, Overwrite(image, off, ws));
    }
  }

  lemma OverwriteBoth(image: seq<nat>, off: nat, ws: seq<nat>, vs: seq<nat>, first: seq<nat>)
    requires ws != [] && vs != [] && |first| == Max(|image|, off + |ws|)
    requires forall k :: 0 <= k < |first| ==> first[k] == WordAfter(image, off, ws, k)
    ensures Overwrite(first, off + |ws|, vs) == Overwrite(image, off, ws + vs)
  {
    forall k | 0 <= k < Max(|image|, off + |ws| + |vs|)
      ensures WordAfter(first, off + |ws|, vs, k) == WordAfter(image, off, ws + vs, k)
    {
      if off <= k < off + |ws| { assert (ws + vs)[k - off] == ws[k - off]; }
    }
  }

  lemma ExtractOverwritten(image: seq<nat>, off: nat, words: seq<nat>)
    ensures |words| <= Available(Overwrite(image, off, words), off)
    ensures Extract(Overwrite(image, off, words), off, |words|) == words
  {}

  // ----- Words and their places -----

  /** Word i that comes from the image is at its address in memory. */
  lemma {:induction false} StoredPlace(mem: seq<nat>, base: nat, image: seq<nat>, off: nat, n: nat, i: nat)
    requires |mem| <= SPACE && i < n <= SPACE && n <= Available(image, off) && Reach(base, n, |mem|) == n
    ensures (base + i) % 0x2_0000 < |mem| && off + i < |image|
    ensures Stored(mem, base, Extract(image, off, n))[(base + i) % 0x2_0000] == image[off + i]
  {
    ReachIsFirst(base, n, |mem|);
    StoredAt(mem, base, Extract(image, off, n), Slot(base, i));
    PlaceOfSlot(base, i);
  }

  /** Word k of the image is the one from its address in memory, or the old one. A gap reads
      as zero. */
  lemma {:induction false} OverwrittenPlace(image: seq<nat>, off: nat, mem: seq<nat>, base: nat, n: nat, k: nat)
    requires |mem| <= SPACE && 0 < n && Reach(base, n, |mem|) == n && k < Max(|image|, off + n)
    ensures var after := Overwrite(image, off, Fetched(mem, base, n));
      && |after| == Max(|image|, off + n)
      && if off <= k < off + n then
           var a := (base + (k - off)) % 0x2_0000; a < |mem| && after[k] == mem[a]
         else after[k] == if k < |image| then image[k] else 0
  {
    ReachIsFirst(base, n, |mem|);
    if off <= k < off + n { assert Slot(base, k - off) < |mem|; }
  }

  /** Words elsewhere stay. */
  lemma {:induction false} ExtractElsewhere(image: seq<nat>, off: nat, words: seq<nat>, at: nat, n: nat)
    requires n <= Available(image, at) && (off + |words| <= at || at + n <= off)
    ensures n <= Available(Overwrite(image, off, words), at)
    ensures Extract(Overwrite(image, off, words), at, n) == Extract(image, at, n)
  {
    var after := Overwrite(image, off, words);
    assert n > 0 ==> after[at..at + n] == image[at..at + n];
  }

  // A disk image and its file position.
  class WordFile {
    var words: seq<nat>
    var pos: nat

    constructor (contents: seq<nat>)
      ensures words == contents && pos == 0
    {
      words, pos := contents, 0;
    }

    method Seek(to: nat)
      modifies `pos
      ensures pos == to
    {
      pos := to;
    }

    method Read(n: nat) returns (got: seq<nat>)
      modifies `pos
      ensures got == Extract(words, old(pos), Min(n, Available(words, old(pos))))
      ensures pos == old(pos) + |got|
    {
      var k := Min(n, Available(words, pos));
      got := Extract(words, pos, k);
      pos := pos + k;
    }

    method Write(ws: seq<nat>)
      modifies `pos, `words
      ensures words == Overwrite(old(words), old(pos), ws)
      ensures pos == old(pos) + |ws|
    {
      words := Overwrite(words, pos, ws);
      pos := pos + |ws|;
    }
  }
}
