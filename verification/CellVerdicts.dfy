/**
 What the verdicts of a qualification mean, told from the samples and the channels: which
 samples make up a run, and what disables, shortens, unsettles or measures it.
 */
module CellVerdicts {
  import opened Bits
  import opened CycleDecode
  import opened Qualification

  // Two samples agree on the channels that are there.
  predicate Agree(ch: seq<int>, v: nat, w: nat) {
    forall b :: 0 <= b < |ch| && ch[b] >= 0 ==> Bit(v, ch[b]) == Bit(w, ch[b])
  }

  lemma {:induction false} MaskMeans(ch: seq<int>, v: nat, w: nat)
    ensures And(v, MaskOf(ch)) == And(w, MaskOf(ch)) <==> Agree(ch, v, w)
  {
    MaskedEqual(v, w, ch);
    forall c: nat | c in ch && Agree(ch, v, w) ensures Bit(v, c) == Bit(w, c) {
      var b :| 0 <= b < |ch| && ch[b] == c;
    }
    if And(v, MaskOf(ch)) == And(w, MaskOf(ch)) {
      forall b | 0 <= b < |ch| && ch[b] >= 0 ensures Bit(v, ch[b]) == Bit(w, ch[b]) {
        var c: nat := ch[b];
        assert c in ch;
      }
    }
  }

  lemma AgreeOnBoth(a: seq<int>, c: seq<int>, v: nat, w: nat)
    ensures Agree(a + c, v, w) <==> Agree(a, v, w) && Agree(c, v, w)
  {
    if Agree(a + c, v, w) {
      forall b | 0 <= b < |a| && a[b] >= 0 ensures Bit(v, a[b]) == Bit(w, a[b]) { assert (a + c)[b] == a[b]; }
      forall b | 0 <= b < |c| && c[b] >= 0 ensures Bit(v, c[b]) == Bit(w, c[b]) { assert (a + c)[|a| + b] == c[b]; }
    }
  }

  /** Two samples have one key if and only if they agree on every address and every chip
      enable channel. */
  lemma {:induction false} SameKey(l: Layout, words: seq<nat>, i: nat, j: nat)
    requires i < |words| && j < |words|
    ensures l.KeysOf(words)[i] == l.KeysOf(words)[j] <==> Agree(l.addr, words[i], words[j]) && Agree(l.ce, words[i], words[j])
  {
    MaskMeans(l.addr + l.ce, words[i], words[j]);
    AgreeOnBoth(l.addr, l.ce, words[i], words[j]);
  }

  /** So an interior run is the longest stretch of samples that agree on them, away from
      both ends of the capture. */
  lemma {:induction false} RunMeans(l: Layout, words: seq<nat>, s: nat, e: nat)
    requires 0 < s < e < |words|
    ensures InteriorRun(l.KeysOf(words), s, e) <==>
      && (forall i :: s <= i < e ==> Agree(l.addr, words[i], words[s]) && Agree(l.ce, words[i], words[s]))
      && !(Agree(l.addr, words[s - 1], words[s]) && Agree(l.ce, words[s - 1], words[s]))
      && !(Agree(l.addr, words[e - 1], words[e]) && Agree(l.ce, words[e - 1], words[e]))
  {
    SameKey(l, words, s - 1, s);
    SameKey(l, words, e - 1, e);
    forall i | s <= i < e
      ensures l.KeysOf(words)[i] == l.KeysOf(words)[s] <==> Agree(l.addr, words[i], words[s]) && Agree(l.ce, words[i], words[s])
    {
      SameKey(l, words, i, s);
    }
  }

  // ----- Channels of a masked word -----

  lemma {:induction false} MaskedBit(w: nat, all: seq<int>, ch: seq<int>, b: nat)
    requires forall c :: c in ch ==> c in all
    ensures Bit(FromLevels(Levels(And(w, MaskOf(all)), ch)), b) == ReadBit(w, ch, b)
  {
    ReadsBit(And(w, MaskOf(all)), ch, b);
    if b < |ch| && ch[b] >= 0 {
      MaskBits(all, ch[b]);
      AndBits(w, MaskOf(all), ch[b]);
    }
  }

  lemma {:induction false} SomeBit(x: nat) returns (b: nat)
    requires x != 0
    ensures Bit(x, b) == 1
  {
    if x % 2 == 1 {
      b := 0;
    } else {
      b := SomeBit(x / 2);
      b := b + 1;
    }
  }

  // Some of the first sixteen channels is high.
  predicate SomeHigh(ch: seq<int>, w: nat) {
    exists b :: 0 <= b < |ch| && b < 16 && ch[b] >= 0 && Bit(w, ch[b]) != 0
  }

  lemma {:induction false} NotZeroMeans(w: nat, all: seq<int>, ch: seq<int>)
    requires forall c :: c in ch ==> c in all
    ensures FromLevels(Levels(And(w, MaskOf(all)), ch)) != 0 <==> SomeHigh(ch, w)
  {
    var x := FromLevels(Levels(And(w, MaskOf(all)), ch));
    if x != 0 {
      var b := SomeBit(x);
      MaskedBit(w, all, ch, b);
    }
    if SomeHigh(ch, w) {
      var b :| 0 <= b < |ch| && b < 16 && ch[b] >= 0 && Bit(w, ch[b]) != 0;
      MaskedBit(w, all, ch, b);
      ZeroBit(b);
    }
  }

  // ----- The settled window -----

  /** A time in samples is the least number of them that lasts as long. */
  lemma {:induction false} SamplesIsCeiling(l: Layout, ns: nat)
    ensures var n := l.Samples(ns); n * 1_000_000_000 >= ns * l.hz && (n > 0 ==> (n - 1) * 1_000_000_000 < ns * l.hz)
  {
    Ceiling(ns * l.hz);
  }

  lemma Ceiling(x: nat)
    ensures var n := (x + 999_999_999) / 1_000_000_000; n * 1_000_000_000 >= x && (n > 0 ==> (n - 1) * 1_000_000_000 < x)
  {}

  // Two samples of the window, 80 ns after the start up to 20 ns before the end, differ on
  // an output channel.
  predicate Moves(l: Layout, words: seq<nat>, s: nat, e: nat)
    requires e <= |words|
  {
    exists i, j :: s + l.Samples(80) <= i < e - l.Samples(20) && s + l.Samples(80) <= j < e - l.Samples(20)
      && !Agree(l.outs, words[i], words[j])
  }

  lemma {:induction false} SettledMeans(l: Layout, words: seq<nat>, s: nat, e: nat)
    requires s + l.Minimum() <= e <= |words|
    ensures l.Settled(words, s, e) <==> !Moves(l, words, s, e)
  {
    var first := s + l.Pre();
    forall j | first <= j < e - l.Post()
      ensures And(words[j], l.OutMask()) == And(words[first], l.OutMask()) <==> Agree(l.outs, words[j], words[first])
    {
      MaskMeans(l.outs, words[j], words[first]);
    }
    if l.Settled(words, s, e) {
      forall i, j | first <= i < e - l.Post() && first <= j < e - l.Post() ensures Agree(l.outs, words[i], words[j]) {
        MaskMeans(l.outs, words[i], words[j]);
      }
    }
  }

  // ----- Verdicts -----

  // The length from which a run is judged: 160 ns, or a sample more than 80 and 20 ns.
  function Shortest(l: Layout): nat {
    Max(l.Samples(160), l.Samples(80) + l.Samples(20) + 1)
  }

  function Max(a: nat, b: nat): nat { if a < b then b else a }

  /** A run is disabled if and only if a chip enable is high in it, and otherwise short by
      its length alone, and otherwise unstable if and only if an output moves in the settled
      window. */
  lemma {:induction false} VerdictKind(l: Layout, words: seq<nat>, s: nat, e: nat)
    requires s < e <= |words|
    ensures var v := l.Judge(words, s, e);
      && (v.Disabled? <==> SomeHigh(l.ce, words[s]))
      && (v.Short? <==> !SomeHigh(l.ce, words[s]) && e - s < Shortest(l))
      && (v.Unstable? <==> !SomeHigh(l.ce, words[s]) && e - s >= Shortest(l) && Moves(l, words, s, e))
  {
    NotZeroMeans(words[s], l.addr + l.ce, l.ce);
    if e - s >= Shortest(l) { SettledMeans(l, words, s, e); }
  }

  /** A stable run measures a cell: bit b of its address is address channel b anywhere in
      the run, and bit b of its data is output channel b anywhere in the settled window. */
  lemma {:induction false} VerdictCell(l: Layout, words: seq<nat>, s: nat, e: nat, i: nat, j: nat, b: nat)
    requires InteriorRun(l.KeysOf(words), s, e) && l.Judge(words, s, e).Stable?
    requires s <= i < e && s + l.Samples(80) <= j < e - l.Samples(20)
    ensures var v := l.Judge(words, s, e);
      && Bit(v.address, b) == (if b < |l.addr| && b < 16 && l.addr[b] >= 0 && Bit(words[i], l.addr[b]) != 0 then 1 else 0)
      && Bit(v.data, b) == (if b < |l.outs| && b < 16 && l.outs[b] >= 0 && Bit(words[j], l.outs[b]) != 0 then 1 else 0)
  {
    VerdictKind(l, words, s, e);
    var first := s + l.Samples(80);
    MaskedBit(words[s], l.addr + l.ce, l.addr, b);
    MaskedBit(words[first], l.outs, l.outs, b);
    RunMeans(l, words, s, e);
    assert Agree(l.addr, words[i], words[s]);
    assert Agree(l.outs, words[first], words[j]);
  }

  /** The enables are the same anywhere in a run. */
  lemma {:induction false} EnablesOfRun(l: Layout, words: seq<nat>, s: nat, e: nat, i: nat)
    requires InteriorRun(l.KeysOf(words), s, e) && s <= i < e
    ensures SomeHigh(l.ce, words[i]) <==> SomeHigh(l.ce, words[s])
  {
    RunMeans(l, words, s, e);
    assert Agree(l.ce, words[i], words[s]);
  }

  // ----- The report -----

  lemma {:induction false} RunOfVerdict(vs: seq<Verdict>, run: CellRun) returns (i: nat)
    requires run in StableRuns(vs)
    ensures i < |vs| && vs[i] == Stable(run.address, run.data)
  {
    var n := |vs| - 1;
    if vs[n].Stable? && run == CellRun(vs[n].address, vs[n].data) {
      i := n;
    } else {
      i := RunOfVerdict(vs[..n], run);
    }
  }

  lemma CellIffRun(r: Report, vs: seq<Verdict>, cell: CellRun)
    requires r.Counts(vs)
    ensures CellCount(r.cells, cell) > 0 <==> cell in StableRuns(vs)
  {
    assert CellCount(r.cells, cell) == multiset(r.runs)[cell];
  }

  /** Every cell of a report was measured in a stable interior run. */
  lemma {:induction false} CellWasMeasured(l: Layout, words: seq<nat>, r: Report, cell: CellRun) returns (s: nat, e: nat)
    requires |words| > 0 && CellCount(r.cells, cell) > 0
    requires Ascending(Starts(l.KeysOf(words), |words|)) && r.Counts(Verdicts(l, words, Starts(l.KeysOf(words), |words|)))
    ensures InteriorRun(l.KeysOf(words), s, e) && l.Judge(words, s, e) == Stable(cell.address, cell.data)
  {
    var ss := Starts(l.KeysOf(words), |words|);
    CellIffRun(r, Verdicts(l, words, ss), cell);
    var i := RunOfVerdict(Verdicts(l, words, ss), cell);
    VerdictCount(l, words, ss);
    s, e := ss[i + 1], ss[i + 2];
    RunsBetweenStarts(l.KeysOf(words), i + 1);
  }

  lemma {:induction false} VerdictHasRun(vs: seq<Verdict>, i: nat)
    requires i < |vs| && vs[i].Stable?
    ensures CellRun(vs[i].address, vs[i].data) in StableRuns(vs)
  {
    if i < |vs| - 1 { VerdictHasRun(vs[..|vs| - 1], i); }
  }

  /** And every stable interior run is in it. */
  lemma {:induction false} RunIsMeasured(l: Layout, words: seq<nat>, r: Report, s: nat, e: nat)
    requires InteriorRun(l.KeysOf(words), s, e) && l.Judge(words, s, e).Stable?
    requires Ascending(Starts(l.KeysOf(words), |words|)) && r.Counts(Verdicts(l, words, Starts(l.KeysOf(words), |words|)))
    ensures var v := l.Judge(words, s, e); CellCount(r.cells, CellRun(v.address, v.data)) > 0
  {
    var (ss, v) := (Starts(l.KeysOf(words), |words|), l.Judge(words, s, e));
    var i := EveryRunFound(l.KeysOf(words), s, e);
    VerdictCount(l, words, ss);
    VerdictHasRun(Verdicts(l, words, ss), i - 1);
    CellIffRun(r, Verdicts(l, words, ss), CellRun(v.address, v.data));
  }
}
