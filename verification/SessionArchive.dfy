/**
 The archive of an exported session: its entries are named "version", "metadata" and
 "logic-1-1" onwards, fit into the archive, and are read back as they are.
 */
module SessionArchive {
  import opened Bytes
  import opened Crc32
  import opened SigrokExport
  import opened ZipArchive

  const MAX_META: nat := 8192

  // ----- Names -----

  function Ascii(s: string): (b: seq<Byte>)
    ensures |b| == |s|
  {
    seq(|s|, i requires 0 <= i < |s| => s[i] as int % 256)
  }

  // %d
  function Decimal(n: nat): (d: seq<Byte>)
    ensures d != []
  {
    if n < 10 then [48 + n] else Decimal(n / 10) + [48 + n % 10]
  }

  // The number that digits stand for, most significant first.
  function ValueOf(digits: seq<Byte>): int {
    if digits == [] then 0 else 10 * ValueOf(digits[..|digits| - 1]) + (digits[|digits| - 1] as int - 48)
  }

  lemma {:induction false} DecimalIs(n: nat)
    ensures ValueOf(Decimal(n)) == n && forall i :: 0 <= i < |Decimal(n)| ==> 48 <= Decimal(n)[i] <= 57
  {
    var d := Decimal(n);
    if n >= 10 {
      DecimalIs(n / 10);
      assert d[..|d| - 1] == Decimal(n / 10);
    } else {
      assert d[..0] == [];
    }
  }

  lemma {:induction false} DecimalsDiffer(m: nat, n: nat)
    requires Decimal(m) == Decimal(n)
    ensures m == n
  {
    if m >= 10 && n >= 10 {
      var (a, b) := (Decimal(m), Decimal(n));
      assert a[..|a| - 1] == Decimal(m / 10) && b[..|b| - 1] == Decimal(n / 10);
      assert a[|a| - 1] == 48 + m % 10 && b[|b| - 1] == 48 + n % 10;
      DecimalsDiffer(m / 10, n / 10);
    }
  }

  const PREFIX := Ascii("logic-1-")

  function LogicName(i: nat): seq<Byte> { PREFIX + Decimal(i + 1) }

  lemma {:induction false} NamesDiffer(i: nat, j: nat)
    requires LogicName(i) == LogicName(j)
    ensures i == j
  {
    assert LogicName(i)[|PREFIX|..] == Decimal(i + 1) && LogicName(j)[|PREFIX|..] == Decimal(j + 1);
    DecimalsDiffer(i + 1, j + 1);
  }

  lemma {:induction false} LogicNameFits(i: nat)
    requires i < MAX_LOGIC_FILES
    ensures |LogicName(i)| <= 10
  {
    assert |Decimal((i + 1) / 10)| == 1;
  }

  // ----- Entries -----

  function SessionEntries(meta: seq<Byte>, files: seq<seq<Byte>>): seq<Entry> {
    [Entry(Ascii("version"), Ascii("2")), Entry(Ascii("metadata"), meta)] + LogicEntries(files)
  }

  function LogicEntries(files: seq<seq<Byte>>): (es: seq<Entry>)
    ensures |es| == |files|
  {
    seq(|files|, i requires 0 <= i < |files| => Entry(LogicName(i), files[i]))
  }

  // Small enough for the table of entries, and each for its place there.
  predicate SmallEntry(e: Entry) {
    |e.name| <= MAX_NAME && |e.data| <= CHUNK
  }

  predicate Small(es: seq<Entry>) {
    |es| <= MAX_ENTRIES && forall i :: 0 <= i < |es| ==> SmallEntry(es[i])
  }

  lemma {:induction false} SessionIsSmall(meta: seq<Byte>, files: seq<seq<Byte>>)
    requires |meta| <= MAX_META && FullButLast(files) && |files| <= MAX_LOGIC_FILES
    ensures Small(SessionEntries(meta, files)) && |SessionEntries(meta, files)| == |files| + 2
  {
    var es := SessionEntries(meta, files);
    forall i | 0 <= i < |es| ensures SmallEntry(es[i]) {
      if i >= 2 {
        assert es[i] == LogicEntries(files)[i - 2];
        LogicNameFits(i - 2);
      }
    }
  }

  // ----- Size -----

  lemma {:induction false} LocalsLength(es: seq<Entry>, most: nat)
    requires forall i :: 0 <= i < |es| ==> |Local(es[i])| <= most
    ensures |Locals(es)| <= |es| * most
  {
    if es != [] {
      var (init, last) := (es[..|es| - 1], es[|es| - 1]);
      LocalsLength(init, most);
      OneMore(|init|, most, |Locals(init)|, |Local(last)|);
      assert |Local(last)| <= most;
    }
  }

  lemma OneMore(n: nat, most: nat, total: nat, more: nat)
    requires total <= n * most && more <= most
    ensures total + more <= (n + 1) * most
  {}

  lemma SmallLocal(e: Entry)
    requires SmallEntry(e)
    ensures |Local(e)| <= CHUNK + 45
  {}

  lemma {:induction false} DirectoryLength(rs: seq<Record>)
    requires forall i :: 0 <= i < |rs| ==> |rs[i].name| <= MAX_NAME
    ensures |Directory(rs)| <= |rs| * 61
  {
    if rs != [] { DirectoryLength(rs[1..]); }
  }

  lemma {:induction false} ArchiveLength(es: seq<Entry>)
    ensures |Archive(es)| == |Locals(es)| + |Directory(Records(es))| + 22
  {}

  lemma RoomIsEnough(n: nat, locals: nat, directory: nat)
    requires n <= MAX_ENTRIES && locals <= n * (CHUNK + 45) && directory <= n * 61
    ensures locals + directory + 22 < WORD32
  {
    assert n * (CHUNK + 45) <= MAX_ENTRIES * (CHUNK + 45);
  }

  lemma {:induction false} SmallFits(es: seq<Entry>)
    requires Small(es)
    ensures Fits(es)
  {
    forall i | 0 <= i < |es| ensures |Local(es[i])| <= CHUNK + 45 { SmallLocal(es[i]); }
    LocalsLength(es, CHUNK + 45);
    DirectoryLength(Records(es));
    ArchiveLength(es);
    RoomIsEnough(|es|, |Locals(es)|, |Directory(Records(es))|);
    forall i | 0 <= i < |es| ensures |es[i].name| < 65536 { assert SmallEntry(es[i]); }
  }

  /** Its entries: version 2, the metadata, and logic-1-1, logic-1-2 and so on with one file
      each, in order. */
  lemma {:induction false} EntriesAre(meta: seq<Byte>, files: seq<seq<Byte>>, i: nat)
    requires i < |files|
    ensures var es := SessionEntries(meta, files);
      && |es| == |files| + 2
      && es[0] == Entry(Ascii("version"), [50]) && es[1] == Entry(Ascii("metadata"), meta)
      && es[i + 2].data == files[i] && |es[i + 2].name| > 8
      && es[i + 2].name[..8] == Ascii("logic-1-") && ValueOf(es[i + 2].name[8..]) == i + 1
  {
    var es := SessionEntries(meta, files);
    DecimalIs(i + 1);
    assert es[i + 2].name == Ascii("logic-1-") + Decimal(i + 1);
    assert es[i + 2].name[8..] == Decimal(i + 1);
    assert Ascii("2") == [50];
  }

  /** A session is read back entry by entry, under its own names. */
  lemma {:induction false} SessionRoundTrip(meta: seq<Byte>, files: seq<seq<Byte>>)
    requires |meta| <= MAX_META && FullButLast(files) && |files| <= MAX_LOGIC_FILES
    ensures ReadArchive(Archive(SessionEntries(meta, files))) == Some(SessionEntries(meta, files))
    ensures forall i, j :: 0 <= i < j < |files| ==> LogicEntries(files)[i].name != LogicEntries(files)[j].name
  {
    var es := SessionEntries(meta, files);
    SessionIsSmall(meta, files);
    SmallFits(es);
    RoundTripIffShortNames(es);
    forall i | 0 <= i < |es| ensures |es[i].name| <= MAX_NAME { assert SmallEntry(es[i]); }
    forall i, j | 0 <= i < j < |files| ensures LogicEntries(files)[i].name != LogicEntries(files)[j].name {
      if LogicName(i) == LogicName(j) { NamesDiffer(i, j); }
    }
  }

  // The two entries before the samples.
  method SaveHead(z: Zip, table: Table, meta: seq<Byte>)
    requires z.Valid() && table.Valid() && z.entries == []
    modifies z, table.entry
    ensures z.Valid() && table.Valid()
    ensures z.entries == [Entry(Ascii("version"), Ascii("2")), Entry(Ascii("metadata"), meta)]
  {
    var ok := z.Add(table, Ascii("version"), Ascii("2"));
    ok := z.Add(table, Ascii("metadata"), meta);
  }

  lemma OnePlace(head: seq<Entry>, es: seq<Entry>, i: nat)
    requires i < |es|
    ensures head + es[..i] + [es[i]] == head + es[..i + 1]
    ensures i + 1 == |es| ==> head + es[..i + 1] == head + es
  {}

  method SaveFiles(z: Zip, table: Table, files: seq<seq<Byte>>)
    requires z.Valid() && table.Valid() && |z.entries| + |files| <= MAX_ENTRIES
    modifies z, table.entry
    ensures z.Valid() && table.Valid() && z.entries == old(z.entries) + LogicEntries(files)
  {
    ghost var head, es := z.entries, LogicEntries(files);
    for i := 0 to |files|
      invariant z.Valid() && table.Valid() && z.entries == head + es[..i]
    {
      assert es[i] == Entry(LogicName(i), files[i]);
      var ok := z.Add(table, LogicName(i), files[i]);
      OnePlace(head, es, i);
    }
  }

  /** Writes a session. No entry is refused. */
  method Save(table: Table, meta: seq<Byte>, files: seq<seq<Byte>>) returns (out: seq<Byte>)
    requires table.Valid() && |meta| <= MAX_META && FullButLast(files) && |files| <= MAX_LOGIC_FILES
    modifies table.entry
    ensures out == Archive(SessionEntries(meta, files)) && ReadArchive(out) == Some(SessionEntries(meta, files))
  {
    var z := new Zip();
    SaveHead(z, table, meta);
    SaveFiles(z, table, files);
    SessionRoundTrip(meta, files);
    z.Close();
    out := z.out;
  }
}
