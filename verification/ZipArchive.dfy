/**
 The stored ZIP archive that holds a session: the writer of the exporter, and a
 reader after sections 4.3.7, 4.3.12 and 4.3.16 of PKWARE APPNOTE.
 */
module ZipArchive {
  import opened Bytes
  import opened Crc32

  const MAX_ENTRIES: nat := 64
  const MAX_NAME: nat := 15
  const LOCAL_SIG: nat := 0x0403_4b50
  const CENTRAL_SIG: nat := 0x0201_4b50
  const END_SIG: nat := 0x0605_4b50

  datatype Entry = Entry(name: seq<Byte>, data: seq<Byte>)

  // What the directory remembers of an entry.
  datatype Record = Record(name: seq<Byte>, crc: nat, size: nat, offset: nat)

  // The directory keeps names in 16 bytes, the last one a NUL.
  function Kept(name: seq<Byte>): seq<Byte> {
    if |name| <= MAX_NAME then name else name[..MAX_NAME]
  }

  // ----- Layout -----

  // CRC and both sizes of a stored entry.
  function Sizes(crc: nat, size: nat): (h: seq<Byte>)
    ensures |h| == 12
  {
    ToLe(crc, 4) + ToLe(size, 4) + ToLe(size, 4)
  }

  // Signature, version 1.0, no flags, stored, 1980-01-01.
  function LocalTag(): (h: seq<Byte>)
    ensures |h| == 14
  {
    ToLe(LOCAL_SIG, 4) + ToLe(10, 2) + ToLe(0, 2) + ToLe(0, 2) + ToLe(0, 2) + ToLe(0x21, 2)
  }

  function LocalTail(nameLen: nat): (h: seq<Byte>)
    ensures |h| == 4
  {
    ToLe(nameLen, 2) + ToLe(0, 2)
  }

  function LocalHeader(e: Entry): (h: seq<Byte>)
    ensures |h| == 30
  {
    LocalTag() + Sizes(Crc(e.data), |e.data|) + LocalTail(|e.name|)
  }

  function Local(e: Entry): seq<Byte> {
    LocalHeader(e) + e.name + e.data
  }

  function CentralTag(): (h: seq<Byte>)
    ensures |h| == 16
  {
    ToLe(CENTRAL_SIG, 4) + ToLe(10, 2) + ToLe(10, 2) + ToLe(0, 2) + ToLe(0, 2) + ToLe(0, 2) + ToLe(0x21, 2)
  }

  function CentralTail(nameLen: nat, offset: nat): (h: seq<Byte>)
    ensures |h| == 18
  {
    ToLe(nameLen, 2) + ToLe(0, 2) + ToLe(0, 2) + ToLe(0, 2) + ToLe(0, 2) + ToLe(0, 4) + ToLe(offset, 4)
  }

  function CentralHeader(r: Record): (h: seq<Byte>)
    ensures |h| == 46
  {
    CentralTag() + Sizes(r.crc, r.size) + CentralTail(|r.name|, r.offset)
  }

  function Central(r: Record): seq<Byte> {
    CentralHeader(r) + r.name
  }

  function End(n: nat, size: nat, start: nat): (h: seq<Byte>)
    ensures |h| == 22
  {
    (ToLe(END_SIG, 4) + ToLe(0, 2) + ToLe(0, 2))
    + (ToLe(n, 2) + ToLe(n, 2))
    + (ToLe(size, 4) + ToLe(start, 4) + ToLe(0, 2))
  }

  function Locals(es: seq<Entry>): seq<Byte> {
    if es == [] then [] else Locals(es[..|es| - 1]) + Local(es[|es| - 1])
  }

  function RecordOf(es: seq<Entry>, i: nat): Record
    requires i < |es|
  {
    Record(Kept(es[i].name), Crc(es[i].data), |es[i].data|, |Locals(es[..i])|)
  }

  function Records(es: seq<Entry>): (rs: seq<Record>)
    ensures |rs| == |es|
  {
    seq(|es|, i requires 0 <= i < |es| => RecordOf(es, i))
  }

  // The directory from record i on.
  function Directory(rs: seq<Record>): seq<Byte> {
    if rs == [] then [] else Central(rs[0]) + Directory(rs[1..])
  }

  /** A complete archive. */
  function Archive(es: seq<Entry>): seq<Byte> {
    var start := |Locals(es)|;
    var dir := Directory(Records(es));
    Locals(es) + dir + End(|es|, |dir|, start)
  }

  // ----- Reader -----

  datatype Option<+T> = None | Some(value: T)

  function Field(file: seq<Byte>, at: nat, n: nat): nat
    requires at + n <= |file|
  {
    LeWord(file[at..at + n])
  }

  // The data behind the local header at `offset`.
  function ReadLocal(file: seq<Byte>, offset: nat, size: nat): Option<seq<Byte>> {
    if offset + 30 > |file| || Field(file, offset, 4) != LOCAL_SIG then None else
    var data := offset + 30 + Field(file, offset + 26, 2) + Field(file, offset + 28, 2);
    if data + size > |file| || Field(file, offset + 18, 4) != size then None else
    Some(file[data..data + size])
  }

  /** The entry that a directory record at `at` points to, if all is in order. */
  function ReadEntry(file: seq<Byte>, at: nat): Option<Entry>
    requires at + 46 <= |file|
  {
    var nameLen := Field(file, at + 28, 2);
    if Field(file, at, 4) != CENTRAL_SIG || at + 46 + nameLen > |file| then None else
    var size := Field(file, at + 20, 4);
    var data := ReadLocal(file, Field(file, at + 42, 4), size);
    if data.None? || Field(file, at + 24, 4) != size || Crc(data.value) != Field(file, at + 16, 4) then None else
    Some(Entry(file[at + 46..at + 46 + nameLen], data.value))
  }

  function NextRecord(file: seq<Byte>, at: nat): nat
    requires at + 46 <= |file|
  {
    at + 46 + Field(file, at + 28, 2) + Field(file, at + 30, 2) + Field(file, at + 32, 2)
  }

  // Where the n records of a directory start, as far as the file goes.
  function Places(file: seq<Byte>, at: nat, n: nat): (ps: seq<nat>)
    ensures forall i :: 0 <= i < |ps| ==> ps[i] + 46 <= |file|
    decreases n
  {
    if n == 0 || at + 46 > |file| then [] else [at] + Places(file, NextRecord(file, at), n - 1)
  }

  function ReadDirectory(file: seq<Byte>, at: nat, n: nat): Option<seq<Entry>> {
    var ps := Places(file, at, n);
    if |ps| < n || exists i :: 0 <= i < |ps| && ReadEntry(file, ps[i]).None? then None else
    Some(seq(|ps|, i requires 0 <= i < |ps| => ReadEntry(file, ps[i]).value))
  }

  /** All entries of an archive without a comment. */
  function ReadArchive(file: seq<Byte>): Option<seq<Entry>> {
    if |file| < 22 then None else
    var end := |file| - 22;
    if Field(file, end, 4) != END_SIG || Field(file, end + 20, 2) != 0 then None else
    ReadDirectory(file, Field(file, end + 16, 4), Field(file, end + 10, 2))
  }

  // ----- Reading back what was written -----

  // part lies in the file at `at`.
  predicate Lies(file: seq<Byte>, at: nat, part: seq<Byte>) {
    at + |part| <= |file| && file[at..at + |part|] == part
  }

  lemma LiesWithin(file: seq<Byte>, at: nat, part: seq<Byte>, k: nat, piece: seq<Byte>)
    requires Lies(file, at, part) && Lies(part, k, piece)
    ensures Lies(file, at + k, piece)
  {
    forall i | 0 <= i < |piece| ensures file[at + k + i] == piece[i] {
      assert file[at + k + i] == file[at..at + |part|][k + i] == part[k..k + |piece|][i];
    }
  }

  lemma LiesMiddle(a: seq<Byte>, b: seq<Byte>, c: seq<Byte>)
    ensures Lies(a + b + c, 0, a) && Lies(a + b + c, |a|, b) && Lies(a + b + c, |a| + |b|, c)
  {}

  lemma {:induction false} FieldWritten(file: seq<Byte>, at: nat, x: nat, n: nat)
    requires Lies(file, at, ToLe(x, n)) && x < Pow256(n)
    ensures Field(file, at, n) == x
  {
    ToLeRoundTrip(x, n);
  }

  lemma Pow256Of()
    ensures Pow256(2) == 65536 && Pow256(4) == WORD32
  {}

  lemma {:induction false} SizesFields(crc: nat, size: nat)
    ensures var h := Sizes(crc, size);
      Lies(h, 0, ToLe(crc, 4)) && Lies(h, 4, ToLe(size, 4)) && Lies(h, 8, ToLe(size, 4))
  {}

  lemma LocalFields(e: Entry)
    ensures var h := LocalHeader(e);
      && Lies(h, 0, ToLe(LOCAL_SIG, 4)) && Lies(h, 18, ToLe(|e.data|, 4))
      && Lies(h, 26, ToLe(|e.name|, 2)) && Lies(h, 28, ToLe(0, 2))
  {
    var h, tag, sizes, tail := LocalHeader(e), LocalTag(), Sizes(Crc(e.data), |e.data|), LocalTail(|e.name|);
    LiesMiddle(tag, sizes, tail);
    SizesFields(Crc(e.data), |e.data|);
    assert Lies(tag, 0, ToLe(LOCAL_SIG, 4)) && Lies(tail, 0, ToLe(|e.name|, 2)) && Lies(tail, 2, ToLe(0, 2));
    LiesWithin(h, 0, tag, 0, ToLe(LOCAL_SIG, 4));
    LiesWithin(h, 14, sizes, 4, ToLe(|e.data|, 4));
    LiesWithin(h, 26, tail, 0, ToLe(|e.name|, 2));
    LiesWithin(h, 26, tail, 2, ToLe(0, 2));
  }

  lemma {:induction false} TailFields(nameLen: nat, offset: nat)
    ensures var h := CentralTail(nameLen, offset);
      && Lies(h, 0, ToLe(nameLen, 2)) && Lies(h, 2, ToLe(0, 2)) && Lies(h, 4, ToLe(0, 2))
      && Lies(h, 14, ToLe(offset, 4))
  {
    var (a, b) := (ToLe(nameLen, 2) + ToLe(0, 2) + ToLe(0, 2), ToLe(0, 2) + ToLe(0, 2) + ToLe(0, 4));
    var h := CentralTail(nameLen, offset);
    assert h == a + b + ToLe(offset, 4);
    LiesMiddle(a, b, ToLe(offset, 4));
    LiesMiddle(ToLe(nameLen, 2), ToLe(0, 2), ToLe(0, 2));
    LiesWithin(h, 0, a, 0, ToLe(nameLen, 2));
    LiesWithin(h, 0, a, 2, ToLe(0, 2));
    LiesWithin(h, 0, a, 4, ToLe(0, 2));
  }

  lemma CentralFields(r: Record)
    ensures var h := CentralHeader(r);
      && Lies(h, 0, ToLe(CENTRAL_SIG, 4)) && Lies(h, 16, ToLe(r.crc, 4))
      && Lies(h, 20, ToLe(r.size, 4)) && Lies(h, 24, ToLe(r.size, 4))
      && Lies(h, 28, ToLe(|r.name|, 2)) && Lies(h, 30, ToLe(0, 2)) && Lies(h, 32, ToLe(0, 2))
      && Lies(h, 42, ToLe(r.offset, 4))
  {
    var h, tag, sizes, tail := CentralHeader(r), CentralTag(), Sizes(r.crc, r.size), CentralTail(|r.name|, r.offset);
    LiesMiddle(tag, sizes, tail);
    SizesFields(r.crc, r.size);
    TailFields(|r.name|, r.offset);
    assert Lies(tag, 0, ToLe(CENTRAL_SIG, 4));
    LiesWithin(h, 0, tag, 0, ToLe(CENTRAL_SIG, 4));
    LiesWithin(h, 16, sizes, 0, ToLe(r.crc, 4));
    LiesWithin(h, 16, sizes, 4, ToLe(r.size, 4));
    LiesWithin(h, 16, sizes, 8, ToLe(r.size, 4));
    LiesWithin(h, 28, tail, 0, ToLe(|r.name|, 2));
    LiesWithin(h, 28, tail, 2, ToLe(0, 2));
    LiesWithin(h, 28, tail, 4, ToLe(0, 2));
    LiesWithin(h, 28, tail, 14, ToLe(r.offset, 4));
  }

  lemma {:induction false} EndFields(n: nat, size: nat, start: nat)
    ensures var h := End(n, size, start);
      && Lies(h, 0, ToLe(END_SIG, 4)) && Lies(h, 10, ToLe(n, 2))
      && Lies(h, 16, ToLe(start, 4)) && Lies(h, 20, ToLe(0, 2))
  {
    var a := ToLe(END_SIG, 4) + ToLe(0, 2) + ToLe(0, 2);
    var b := ToLe(n, 2) + ToLe(n, 2);
    var c := ToLe(size, 4) + ToLe(start, 4) + ToLe(0, 2);
    var h := a + b + c;
    assert h[0..4] == a[0..4] == ToLe(END_SIG, 4);
    assert h[10..12] == b[2..4] == ToLe(n, 2);
    assert h[16..20] == c[4..8] == ToLe(start, 4);
    assert h[20..22] == c[8..10] == ToLe(0, 2);
  }

  /** The signatures are the letters PK, and 3 4, 1 2 and 5 6. */
  lemma SignatureBytes()
    ensures ToLe(LOCAL_SIG, 4) == [0x50, 0x4B, 3, 4]
    ensures ToLe(CENTRAL_SIG, 4) == [0x50, 0x4B, 1, 2]
    ensures ToLe(END_SIG, 4) == [0x50, 0x4B, 5, 6]
  {
    FourBytes(LOCAL_SIG);
    FourBytes(CENTRAL_SIG);
    FourBytes(END_SIG);
  }

  /** A local header then has version 1.0, no flags, no compression and 1980-01-01 at
      midnight, and a directory record the same with both versions. Between name length and
      offset, and after them, all fields are zero. */
  lemma HeaderBytes(nameLen: nat, offset: nat, n: nat, size: nat, start: nat)
    ensures LocalTag() == [0x50, 0x4B, 3, 4, 10, 0, 0, 0, 0, 0, 0, 0, 0x21, 0]
    ensures CentralTag() == [0x50, 0x4B, 1, 2, 10, 0, 10, 0, 0, 0, 0, 0, 0, 0, 0x21, 0]
    ensures LocalTail(nameLen)[2..] == [0, 0]
    ensures CentralTail(nameLen, offset)[2..14] == [0, 0, 0, 0, 0, 0, 0, 0, 0, 0, 0, 0]
    ensures End(n, size, start)[4..8] == [0, 0, 0, 0] && End(n, size, start)[20..] == [0, 0]
  {
    SignatureBytes();
    FourBytes(0);
    TwoBytes(0);
    TwoBytes(10);
    TwoBytes(0x21);
  }

  lemma TwoBytes(x: nat)
    ensures ToLe(x, 2) == [x % 0x100, x / 0x100 % 0x100]
  {
    assert ToLe(x, 2) == [x % 256] + ToLe(x / 256, 1);
    assert ToLe(x / 256, 1) == [x / 256 % 256] + ToLe(x / 256 / 256, 0);
  }

  lemma FourBytes(x: nat)
    ensures ToLe(x, 4) == [x % 0x100, x / 0x100 % 0x100, x / 0x1_0000 % 0x100, x / 0x100_0000 % 0x100]
  {
    assert x / 0x100 / 0x100 == x / 0x1_0000 && x / 0x1_0000 / 0x100 == x / 0x100_0000;
    assert ToLe(x, 4) == [x % 256] + ToLe(x / 256, 3);
    assert ToLe(x / 256, 3) == [x / 256 % 256] + ToLe(x / 256 / 256, 2);
    assert ToLe(x / 256 / 256, 2) == [x / 256 / 256 % 256] + ToLe(x / 256 / 256 / 256, 1);
    assert ToLe(x / 256 / 256 / 256, 1) == [x / 256 / 256 / 256 % 256] + ToLe(x / 256 / 256 / 256 / 256, 0);
  }

  // What the 16- and 32-bit fields of the format can hold.
  predicate Fits(es: seq<Entry>) {
    && |Archive(es)| < WORD32 && |es| < 65536
    && forall i :: 0 <= i < |es| ==> |es[i].name| < 65536
  }

  lemma HeaderParts(a: seq<Byte>, b: seq<Byte>)
    ensures Lies(a + b, 0, a) && Lies(a + b, |a|, b)
  {}

  lemma {:induction false} LocalLies(es: seq<Entry>, i: nat)
    requires i < |es|
    ensures Lies(Locals(es), |Locals(es[..i])|, Local(es[i]))
  {
    var (n, init) := (|es| - 1, es[..|es| - 1]);
    HeaderParts(Locals(init), Local(es[n]));
    if i < n {
      LocalLies(init, i);
      assert init[..i] == es[..i] && init[i] == es[i];
      LiesWithin(Locals(es), 0, Locals(init), |Locals(es[..i])|, Local(es[i]));
    }
  }

  lemma CentralReads(file: seq<Byte>, at: nat, r: Record)
    requires Lies(file, at, CentralHeader(r))
    requires r.crc < WORD32 && r.size < WORD32 && r.offset < WORD32 && |r.name| < 65536
    ensures at + 46 <= |file|
    ensures Field(file, at, 4) == CENTRAL_SIG && Field(file, at + 16, 4) == r.crc
    ensures Field(file, at + 20, 4) == Field(file, at + 24, 4) == r.size
    ensures Field(file, at + 28, 2) == |r.name| && Field(file, at + 42, 4) == r.offset
    ensures Field(file, at + 30, 2) == 0 && Field(file, at + 32, 2) == 0
  {
    Pow256Of();
    CentralFields(r);
    var c := CentralHeader(r);
    ReadBack(file, at, c, 0, CENTRAL_SIG, 4);
    ReadBack(file, at, c, 16, r.crc, 4);
    ReadBack(file, at, c, 20, r.size, 4);
    ReadBack(file, at, c, 24, r.size, 4);
    ReadBack(file, at, c, 28, |r.name|, 2);
    ReadBack(file, at, c, 30, 0, 2);
    ReadBack(file, at, c, 32, 0, 2);
    ReadBack(file, at, c, 42, r.offset, 4);
  }

  lemma LocalFieldsRead(file: seq<Byte>, at: nat, e: Entry)
    requires Lies(file, at, Local(e)) && |e.data| < WORD32 && |e.name| < 65536
    ensures at + 30 <= |file| && Lies(file, at + 30 + |e.name|, e.data)
    ensures Field(file, at, 4) == LOCAL_SIG && Field(file, at + 18, 4) == |e.data|
    ensures Field(file, at + 26, 2) == |e.name| && Field(file, at + 28, 2) == 0
  {
    HeaderLies(file, at, LocalHeader(e) + e.name, e.data);
    HeaderLies(file, at, LocalHeader(e), e.name);
    LocalHeaderReads(file, at, e);
  }

  lemma LocalHeaderReads(file: seq<Byte>, at: nat, e: Entry)
    requires Lies(file, at, LocalHeader(e)) && |e.data| < WORD32 && |e.name| < 65536
    ensures at + 30 <= |file|
    ensures Field(file, at, 4) == LOCAL_SIG && Field(file, at + 18, 4) == |e.data|
    ensures Field(file, at + 26, 2) == |e.name| && Field(file, at + 28, 2) == 0
  {
    Pow256Of();
    LocalFields(e);
    var l := LocalHeader(e);
    ReadBack(file, at, l, 0, LOCAL_SIG, 4);
    ReadBack(file, at, l, 18, |e.data|, 4);
    ReadBack(file, at, l, 26, |e.name|, 2);
    ReadBack(file, at, l, 28, 0, 2);
  }

  lemma LocalReads(file: seq<Byte>, at: nat, e: Entry)
    requires Lies(file, at, Local(e)) && |e.data| < WORD32 && |e.name| < 65536
    ensures ReadLocal(file, at, |e.data|) == Some(e.data)
  {
    LocalFieldsRead(file, at, e);
    DataIsRead(file, at, |e.name|, e.data);
  }

  lemma DataIsRead(file: seq<Byte>, at: nat, nameLen: nat, data: seq<Byte>)
    requires at + 30 <= |file| && Lies(file, at + 30 + nameLen, data)
    requires Field(file, at, 4) == LOCAL_SIG && Field(file, at + 18, 4) == |data|
    requires Field(file, at + 26, 2) == nameLen && Field(file, at + 28, 2) == 0
    ensures ReadLocal(file, at, |data|) == Some(data)
  {}

  /** A directory record is read as its entry, under the name it keeps. */
  lemma {:induction false} ReadsEntry(file: seq<Byte>, at: nat, r: Record, e: Entry)
    requires Lies(file, at, Central(r)) && Lies(file, r.offset, Local(e))
    requires r.name == Kept(e.name) && r.crc == Crc(e.data) && r.size == |e.data|
    requires r.size < WORD32 && r.offset < WORD32 && |e.name| < 65536
    ensures at + 46 <= |file| && ReadEntry(file, at) == Some(Entry(r.name, e.data))
    ensures Field(file, at + 28, 2) == |r.name| && Field(file, at + 30, 2) == 0 && Field(file, at + 32, 2) == 0
  {
    HeaderLies(file, at, CentralHeader(r), r.name);
    CentralReads(file, at, r);
    LocalReads(file, r.offset, e);
    EntryIsRead(file, at, r.name, r.size, r.offset, e.data);
  }

  lemma {:induction false} EntryIsRead(file: seq<Byte>, at: nat, name: seq<Byte>, size: nat, offset: nat, data: seq<Byte>)
    requires at + 46 <= |file| && Field(file, at, 4) == CENTRAL_SIG && Field(file, at + 16, 4) == Crc(data)
    requires Field(file, at + 20, 4) == size && Field(file, at + 24, 4) == size && Field(file, at + 28, 2) == |name|
    requires Field(file, at + 42, 4) == offset && Lies(file, at + 46, name) && ReadLocal(file, offset, size) == Some(data)
    ensures ReadEntry(file, at) == Some(Entry(name, data))
  {}

  lemma HeaderLies(file: seq<Byte>, at: nat, h: seq<Byte>, name: seq<Byte>)
    requires Lies(file, at, h + name)
    ensures Lies(file, at, h) && Lies(file, at + |h|, name)
  {
    assert Lies(h + name, 0, h) && Lies(h + name, |h|, name);
    LiesWithin(file, at, h + name, 0, h);
    LiesWithin(file, at, h + name, |h|, name);
  }

  lemma {:induction false} ReadBack(file: seq<Byte>, at: nat, h: seq<Byte>, k: nat, x: nat, n: nat)
    requires Lies(file, at, h) && Lies(h, k, ToLe(x, n)) && x < Pow256(n)
    ensures at + k + n <= |file| && Field(file, at + k, n) == x
  {
    LiesWithin(file, at, h, k, ToLe(x, n));
    FieldWritten(file, at + k, x, n);
  }

  // The entries as the directory names them.
  function KeptEntries(es: seq<Entry>): seq<Entry> {
    seq(|es|, i requires 0 <= i < |es| => Entry(Kept(es[i].name), es[i].data))
  }

  predicate ReadsAs(file: seq<Byte>, at: nat, e: Entry) {
    at + 46 <= |file| && ReadEntry(file, at) == Some(e)
  }

  // Where the parts of record i lie.
  lemma {:induction false} RecordLies(file: seq<Byte>, es: seq<Entry>, i: nat, at: nat)
    requires i < |es| && Lies(file, at, Directory(Records(es)[i..])) && Lies(file, 0, Locals(es))
    ensures var r := RecordOf(es, i);
      && Lies(file, at, Central(r)) && Lies(file, at + |Central(r)|, Directory(Records(es)[i + 1..]))
      && Lies(file, r.offset, Local(es[i])) && r.offset + r.size <= |file|
  {
    var rs := Records(es)[i..];
    assert rs[0] == RecordOf(es, i) && rs[1..] == Records(es)[i + 1..];
    LocalLies(es, i);
    LiesWithin(file, 0, Locals(es), |Locals(es[..i])|, Local(es[i]));
    assert Directory(rs) == Central(rs[0]) + Directory(rs[1..]);
    HeaderLies(file, at, Central(rs[0]), Directory(rs[1..]));
  }

  lemma {:induction false} ReadsRecord(file: seq<Byte>, es: seq<Entry>, i: nat, at: nat)
    requires i < |es| && Lies(file, at, Directory(Records(es)[i..]))
    requires Lies(file, 0, Locals(es)) && |file| < WORD32 && |es[i].name| < 65536
    ensures ReadsAs(file, at, KeptEntries(es)[i])
    ensures Lies(file, NextRecord(file, at), Directory(Records(es)[i + 1..]))
  {
    RecordLies(file, es, i, at);
    RecordRead(file, at, RecordOf(es, i), es[i]);
    assert KeptEntries(es)[i] == Entry(Kept(es[i].name), es[i].data);
  }

  lemma {:induction false} RecordRead(file: seq<Byte>, at: nat, r: Record, e: Entry)
    requires Lies(file, at, Central(r)) && Lies(file, r.offset, Local(e)) && r.offset + r.size <= |file| < WORD32
    requires r.name == Kept(e.name) && r.crc == Crc(e.data) && r.size == |e.data| && |e.name| < 65536
    ensures ReadsAs(file, at, Entry(Kept(e.name), e.data)) && NextRecord(file, at) == at + |Central(r)|
  {
    ReadsEntry(file, at, r, e);
  }

  // The places hold the entries from i on.
  predicate AllRead(file: seq<Byte>, ps: seq<nat>, es: seq<Entry>, i: nat) {
    i <= |es| && |ps| == |es| - i && forall k :: 0 <= k < |ps| ==> ReadsAs(file, ps[k], es[i + k])
  }

  lemma {:induction false} ReadOneMore(file: seq<Byte>, at: nat, rest: seq<nat>, es: seq<Entry>, i: nat)
    requires i < |es| && ReadsAs(file, at, es[i]) && AllRead(file, rest, es, i + 1)
    ensures AllRead(file, [at] + rest, es, i)
  {
    var ps := [at] + rest;
    forall k | 0 <= k < |ps| ensures ReadsAs(file, ps[k], es[i + k]) {
      if k > 0 { assert ps[k] == rest[k - 1]; }
    }
  }

  lemma {:induction false} ReadsDirectory(file: seq<Byte>, es: seq<Entry>, i: nat, at: nat)
    requires i <= |es| && Lies(file, at, Directory(Records(es)[i..]))
    requires Lies(file, 0, Locals(es)) && |file| < WORD32
    requires forall j :: 0 <= j < |es| ==> |es[j].name| < 65536
    ensures AllRead(file, Places(file, at, |es| - i), KeptEntries(es), i)
    decreases |es| - i
  {
    if i < |es| {
      ReadsRecord(file, es, i, at);
      ReadsDirectory(file, es, i + 1, NextRecord(file, at));
      ReadOneMore(file, at, Places(file, NextRecord(file, at), |es| - i - 1), KeptEntries(es), i);
    }
  }

  lemma EndReads(file: seq<Byte>, at: nat, n: nat, size: nat, start: nat)
    requires Lies(file, at, End(n, size, start)) && n < 65536 && start < WORD32
    ensures at + 22 <= |file|
    ensures Field(file, at, 4) == END_SIG && Field(file, at + 10, 2) == n
    ensures Field(file, at + 16, 4) == start && Field(file, at + 20, 2) == 0
  {
    Pow256Of();
    EndFields(n, size, start);
    var tail := End(n, size, start);
    ReadBack(file, at, tail, 0, END_SIG, 4);
    ReadBack(file, at, tail, 10, n, 2);
    ReadBack(file, at, tail, 16, start, 4);
    ReadBack(file, at, tail, 20, 0, 2);
  }

  lemma {:induction false} DirectoryIsRead(file: seq<Byte>, at: nat, es: seq<Entry>)
    requires AllRead(file, Places(file, at, |es|), es, 0)
    ensures ReadDirectory(file, at, |es|) == Some(es)
  {
    assert ReadDirectory(file, at, |es|).value == es;
  }

  lemma EndIsRead(file: seq<Byte>, n: nat, start: nat)
    requires |file| >= 22 && var end := |file| - 22;
      && Field(file, end, 4) == END_SIG && Field(file, end + 20, 2) == 0
      && Field(file, end + 16, 4) == start && Field(file, end + 10, 2) == n
    ensures ReadArchive(file) == ReadDirectory(file, start, n)
  {}

  /** Reading an archive gives its entries back, under the names it keeps. */
  lemma ArchiveRoundTrip(es: seq<Entry>)
    requires Fits(es)
    ensures ReadArchive(Archive(es)) == Some(KeptEntries(es))
  {
    var file, locals, dir := Archive(es), Locals(es), Directory(Records(es));
    LiesMiddle(locals, dir, End(|es|, |dir|, |locals|));
    EndReads(file, |file| - 22, |es|, |dir|, |locals|);
    EndIsRead(file, |es|, |locals|);
    assert Records(es)[0..] == Records(es);
    ReadsDirectory(file, es, 0, |locals|);
    DirectoryIsRead(file, |locals|, KeptEntries(es));
  }

  /** It is the identity exactly when no name is longer than 15 bytes. */
  lemma RoundTripIffShortNames(es: seq<Entry>)
    requires Fits(es)
    ensures ReadArchive(Archive(es)) == Some(es) <==> forall i :: 0 <= i < |es| ==> |es[i].name| <= MAX_NAME
  {
    ArchiveRoundTrip(es);
    if forall i :: 0 <= i < |es| ==> |es[i].name| <= MAX_NAME {
      assert KeptEntries(es) == es;
    } else {
      var i :| 0 <= i < |es| && |es[i].name| > MAX_NAME;
      assert KeptEntries(es)[i] != es[i];
    }
  }

  /** Every directory record points at the local header of its entry. */
  lemma OffsetsPointHome(es: seq<Entry>, i: nat)
    requires i < |es|
    ensures Lies(Archive(es), Records(es)[i].offset, LocalHeader(es[i]) + es[i].name)
  {
    var file := Archive(es);
    LocalLies(es, i);
    LiesMiddle(Locals(es), Directory(Records(es)), End(|es|, |Directory(Records(es))|, |Locals(es)|));
    LiesWithin(file, 0, Locals(es), Records(es)[i].offset, Local(es[i]));
    HeaderLies(file, Records(es)[i].offset, LocalHeader(es[i]) + es[i].name, es[i].data);
  }

  // ----- The writer -----

  class Zip {
    var out: seq<Byte>
    var names: seq<seq<Byte>>
    var crcs: seq<nat>
    var sizes: seq<nat>
    var offsets: seq<nat>
    ghost var entries: seq<Entry>

    ghost predicate Valid()
      reads this
    {
      && out == Locals(entries) && |entries| <= MAX_ENTRIES
      && |names| == |crcs| == |sizes| == |offsets| == |entries|
      && forall i :: 0 <= i < |entries| ==> Record(names[i], crcs[i], sizes[i], offsets[i]) == RecordOf(entries, i)
    }

    constructor ()
      ensures Valid() && entries == []
    {
      out, names, crcs, sizes, offsets, entries := [], [], [], [], [], [];
    }

    method Add(table: Table, name: seq<Byte>, data: seq<Byte>) returns (ok: bool)
      requires Valid() && table.Valid()
      modifies this, table.entry
      ensures Valid() && table.Valid()
      ensures ok <==> |old(entries)| < MAX_ENTRIES
      ensures entries == old(entries) + if ok then [Entry(name, data)] else []
    {
      if |names| >= MAX_ENTRIES { return false; }
      UpdateComposes(data, []);
      var crc := table.Update(0, data);
      Append(name, data, crc);
      ok := true;
    }

    method Append(name: seq<Byte>, data: seq<Byte>, crc: nat)
      requires Valid() && |entries| < MAX_ENTRIES && crc == Crc(data)
      modifies this
      ensures Valid() && entries == old(entries) + [Entry(name, data)]
    {
      ghost var e := Entry(name, data);
      AddStep(entries, e);
      var header := LocalTag() + Sizes(crc, |data|) + LocalTail(|name|);
      LocalJoined(out, e);
      names, crcs, sizes, offsets := names + [Kept(name)], crcs + [crc], sizes + [|data|], offsets + [|out|];
      out := out + header + name + data;
      entries := entries + [e];
    }

    method Close()
      requires Valid()
      modifies this`out
      ensures out == Archive(entries)
    {
      var start := |out|;
      var ns, cs, ss, os := names, crcs, sizes, offsets;
      var records := seq(|ns|, i requires 0 <= i < |ns| == |cs| == |ss| == |os| => Record(ns[i], cs[i], ss[i], os[i]));
      assert records == Records(entries);
      var dir := WriteDirectory(records);
      out := out + dir + End(|names|, |dir|, start);
    }
  }

  lemma {:induction false} LocalJoined(out: seq<Byte>, e: Entry)
    ensures out + LocalHeader(e) + e.name + e.data == out + Local(e)
  {}

  lemma {:induction false} AddStep(es: seq<Entry>, e: Entry)
    ensures Locals(es + [e]) == Locals(es) + Local(e)
    ensures forall i :: 0 <= i < |es| ==> RecordOf(es + [e], i) == RecordOf(es, i)
    ensures RecordOf(es + [e], |es|) == Record(Kept(e.name), Crc(e.data), |e.data|, |Locals(es)|)
  {
    assert (es + [e])[..|es|] == es;
    forall i | 0 <= i < |es| ensures RecordOf(es + [e], i) == RecordOf(es, i) {
      assert (es + [e])[..i] == es[..i];
    }
  }

  lemma {:induction false} DirectoryStep(dir: seq<Byte>, rs: seq<Record>, i: nat)
    requires i < |rs|
    ensures dir + Directory(rs[i..]) == dir + CentralTag() + Sizes(rs[i].crc, rs[i].size) + CentralTail(|rs[i].name|, rs[i].offset)
                                        + rs[i].name + Directory(rs[i + 1..])
  {
    assert rs[i..][1..] == rs[i + 1..] && rs[i..][0] == rs[i];
    Joined(dir, CentralTag(), Sizes(rs[i].crc, rs[i].size), CentralTail(|rs[i].name|, rs[i].offset), rs[i].name, Directory(rs[i + 1..]));
  }

  lemma Joined(a: seq<Byte>, b: seq<Byte>, c: seq<Byte>, d: seq<Byte>, e: seq<Byte>, f: seq<Byte>)
    ensures a + (b + c + d + e + f) == a + b + c + d + e + f
  {}

  method WriteDirectory(rs: seq<Record>) returns (dir: seq<Byte>)
    ensures dir == Directory(rs)
  {
    dir := [];
    for i := 0 to |rs|
      invariant Directory(rs) == dir + Directory(rs[i..])
    {
      DirectoryStep(dir, rs, i);
      dir := dir + CentralTag() + Sizes(rs[i].crc, rs[i].size) + CentralTail(|rs[i].name|, rs[i].offset) + rs[i].name;
    }
  }
}
