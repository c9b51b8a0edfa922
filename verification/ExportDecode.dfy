/**
 The two independent programs agree: decoding an exported session gives back the
 captured micro-cycles, one event each, in order and with their channel bits.
 */
module ExportDecode {
  import opened Bits
  import opened Bytes
  import opened SigrokExport
  import opened CycleDecode

  // Every cycle has a sample with PROC CLK L high and one with it low: a sample
  // step of 40 ns or less, and cycles of 40 ns and a step or more.
  predicate Resolvable(tl: Timeline) {
    && |tl.ends| >= 2 && NS_PER_S <= tl.low
    && tl.start == tl.ends[0] - (tl.ends[1] - tl.ends[0])
    && forall k :: 1 <= k < |tl.ends| ==> tl.ends[k] - tl.ends[k - 1] >= tl.low + NS_PER_S
  }

  lemma {:induction false} CycleBounds(tl: Timeline, j: nat)
    ensures var k := tl.CycleOf(j);
      && (0 < k ==> tl.ends[k - 1] <= tl.At(j))
      && (k < |tl.ends| ==> tl.At(j) < tl.ends[k])
  {
    if j == 0 {
      tl.SeekBounds(0, tl.At(0));
    } else {
      CycleBounds(tl, j - 1);
      tl.SeekBounds(tl.CycleOf(j - 1), tl.At(j));
    }
  }

  /** A sample shows the cycle it is taken in, in units of 1 / rate ns: sample 0 is one cycle,
      of the length of the second, before the end of the first. */
  lemma {:induction false} CycleShown(snaps: seq<Snapshot>, rate: nat, j: nat)
    requires |snaps| >= 2
    ensures var k := TimelineOf(snaps, rate).CycleOf(j);
      var t := (2 * snaps[0].ns - snaps[1].ns) * rate + j * 1_000_000_000;
      k <= |snaps| && (0 < k ==> snaps[k - 1].ns * rate <= t) && (k < |snaps| ==> t < snaps[k].ns * rate)
  {
    CycleBounds(TimelineOf(snaps, rate), j);
    assert snaps[0].ns - (snaps[1].ns - snaps[0].ns) == 2 * snaps[0].ns - snaps[1].ns;
  }

  lemma {:induction false} FirstSample(tl: Timeline)
    requires Resolvable(tl)
    ensures tl.CycleOf(0) == 0 && tl.Early(0)
  {
    assert tl.ends[1] - tl.ends[0] >= tl.low + NS_PER_S;
  }

  // One sample later, at most one cycle has ended.
  lemma {:induction false} SeekStep(tl: Timeline, k: nat, t: int)
    requires Resolvable(tl) && k < |tl.ends| && t - NS_PER_S < tl.ends[k]
    ensures tl.Seek(k, t) == if tl.ends[k] <= t then k + 1 else k
    ensures tl.ends[k] <= t && k + 1 < |tl.ends| ==> tl.ends[k + 1] - t > tl.low
  {
    if tl.ends[k] <= t {
      assert k + 1 < |tl.ends| ==> tl.ends[k + 1] - tl.ends[k] >= tl.low + NS_PER_S;
      assert tl.Seek(k + 1, t) == k + 1;
    }
  }

  /** From one sample to the next the clock falls within a cycle, or the next
      cycle begins: low before, high after. */
  lemma {:induction false} NextSample(tl: Timeline, j: nat)
    requires Resolvable(tl) && tl.CycleOf(j) < |tl.ends|
    ensures var k, k' := tl.CycleOf(j), tl.CycleOf(j + 1);
      if k' == k then tl.Early(j + 1) ==> tl.Early(j)
      else k' == k + 1 && !tl.Early(j) && (k' < |tl.ends| ==> tl.Early(j + 1))
  {
    CycleBounds(tl, j);
    SeekStep(tl, tl.CycleOf(j), tl.At(j + 1));
    assert tl.CycleOf(j + 1) == tl.Seek(tl.CycleOf(j), tl.At(j + 1));
  }

  // A capture on its grid, and the channels that are drawn.
  datatype Drawing = Drawing(tl: Timeline, snaps: seq<Snapshot>, channels: seq<Channel>)
  {
    ghost predicate Valid() {
      |tl.ends| == |snaps| && AllReadable(channels, snaps)
    }

    // A word that shows sample j.
    ghost predicate ShownBy(w: nat, j: nat)
      requires Valid()
    {
      tl.CycleOf(j) < |snaps| &&
      forall c :: 0 <= c < |channels| ==>
        (Bit(w, c) != 0 <==> Level(channels[c], snaps[tl.CycleOf(j)], tl.Early(j)))
    }

    // Words that show it from its first sample on.
    ghost predicate Shown(words: seq<nat>)
      requires Valid()
    {
      forall j :: 0 <= j < |words| ==> ShownBy(words[j], j)
    }

    // Words that show it from its first sample to its last.
    ghost predicate ShownToEnd(words: seq<nat>)
      requires Valid()
    {
      Shown(words) && tl.CycleOf(|words|) == |snaps|
    }
  }

  // The channels whose bits make up an event are plain signals, or missing.
  predicate Signals(ch: seq<int>, channels: seq<Channel>) {
    forall b :: 0 <= b < |ch| && ch[b] >= 0 ==> ch[b] < |channels| && channels[ch[b]].Value?
  }

  // What a cycle itself says about channel b of them. Only 16 are kept.
  function CycleBit(ch: seq<int>, channels: seq<Channel>, snap: Snapshot, b: nat): nat
    requires Signals(ch, channels) && Readable(channels, snap)
  {
    if b < |ch| && b < 16 && ch[b] >= 0 then Bit(snap.values[channels[ch[b]].def], channels[ch[b]].bit) else 0
  }

  lemma {:induction false} WordGivesCycle(d: Drawing, words: seq<nat>, ch: seq<int>, j: nat)
    requires d.Valid() && j < |words| && d.ShownBy(words[j], j) && Signals(ch, d.channels)
    ensures forall b: nat ::
      Bit(FromLevels(Levels(words[j], ch)), b) == CycleBit(ch, d.channels, d.snaps[d.tl.CycleOf(j)], b)
  {
    forall b: nat
      ensures Bit(FromLevels(Levels(words[j], ch)), b) == CycleBit(ch, d.channels, d.snaps[d.tl.CycleOf(j)], b)
    {
      LevelBit(Levels(words[j], ch), b);
      if b < |ch| && b < 16 && ch[b] >= 0 {
        var c := d.channels[ch[b]];
        BitIsBit(d.snaps[d.tl.CycleOf(j)].values[c.def], c.bit);
      }
    }
  }

  // Channel b of the event is a signal. The others read 0.
  predicate HasSignal(ch: seq<int>, b: nat) { b < |ch| && b < 16 && ch[b] >= 0 }

  // An event that carries the captured bits of a cycle.
  ghost predicate IsDatapathEvent(e: Event, ch: seq<int>, channels: seq<Channel>, snap: Snapshot)
    requires Signals(ch, channels) && Readable(channels, snap)
  {
    && e.data == 0
    && (forall b: nat :: HasSignal(ch, b) ==> Bit(e.key, b) == Bit(snap.values[channels[ch[b]].def], channels[ch[b]].bit))
    && (forall b: nat :: !HasSignal(ch, b) ==> Bit(e.key, b) == 0)
  }

  // Its MPC, and the E38 outputs of the next cycle under its own upper bits.
  ghost predicate IsMpcEvent(e: Event, ch: seq<int>, channels: seq<Channel>, snap: Snapshot, next: Snapshot)
    requires Signals(ch, channels) && Readable(channels, snap) && Readable(channels, next)
  {
    && (forall b: nat :: b < 9 && HasSignal(ch, b) ==>
          Bit(e.key, b) == Bit(snap.values[channels[ch[b]].def], channels[ch[b]].bit))
    && (forall b: nat :: b >= 9 || !HasSignal(ch, b) ==> Bit(e.key, b) == 0)
    && (forall b: nat :: b < 3 && HasSignal(ch, b + 9) ==>
          Bit(e.data, b) == Bit(next.values[channels[ch[b + 9]].def], channels[ch[b + 9]].bit))
    && (forall b: nat :: b >= 3 && HasSignal(ch, b + 9) ==>
          Bit(e.data, b) == Bit(snap.values[channels[ch[b + 9]].def], channels[ch[b + 9]].bit))
    && (forall b: nat :: !HasSignal(ch, b + 9) ==> Bit(e.data, b) == 0)
  }

  // The sign of S, and all the bits.
  ghost predicate IsE107Event(e: Event, ch: seq<int>, channels: seq<Channel>, snap: Snapshot)
    requires Signals(ch, channels) && Readable(channels, snap)
  {
    && (HasSignal(ch, 6) ==> Bit(e.key, 6) == Bit(snap.values[channels[ch[6]].def], channels[ch[6]].bit))
    && (forall b: nat :: b != 6 || !HasSignal(ch, b) ==> Bit(e.key, b) == 0)
    && (forall b: nat :: HasSignal(ch, b) ==> Bit(e.data, b) == Bit(snap.values[channels[ch[b]].def], channels[ch[b]].bit))
    && (forall b: nat :: !HasSignal(ch, b) ==> Bit(e.data, b) == 0)
  }

  // ----- The grid -----

  // For each sample, the cycle it falls in and whether it is early in it.
  datatype Grid = Grid(cycle: seq<nat>, early: seq<bool>)
  {
    // What `NextSample` says of a resolvable capture.
    predicate Steps() {
      && |cycle| == |early|
      && (|cycle| > 0 ==> cycle[0] == 0 && early[0])
      && forall j :: 0 < j < |cycle| ==> StepTo(j)
    }

    predicate StepTo(j: nat)
      requires 0 < j < |cycle| == |early|
    {
      || (cycle[j] == cycle[j - 1] && (early[j] ==> early[j - 1]))
      || (cycle[j] == cycle[j - 1] + 1 && !early[j - 1] && early[j])
    }
  }

  // n samples inside the capture.
  predicate Drawn(tl: Timeline, n: nat) {
    forall j :: 0 <= j < n ==> tl.CycleOf(j) < |tl.ends|
  }

  // All the samples inside the capture.
  predicate DrawnTo(tl: Timeline, n: nat) {
    Drawn(tl, n) && tl.CycleOf(n) == |tl.ends|
  }

  function GridOf(tl: Timeline, n: nat): Grid
    requires Drawn(tl, n)
  {
    Grid(seq(n, j requires 0 <= j < n => tl.CycleOf(j)),
         seq(n, j requires 0 <= j < n => tl.Early(j)))
  }

  lemma {:induction false} GridStep(tl: Timeline, n: nat, j: nat)
    requires Resolvable(tl) && Drawn(tl, n) && j + 1 < n
    ensures GridOf(tl, n).StepTo(j + 1)
  {
    NextSample(tl, j);
  }

  lemma {:induction false} GridSteps(tl: Timeline, n: nat)
    requires Resolvable(tl) && Drawn(tl, n)
    ensures GridOf(tl, n).Steps()
  {
    var g := GridOf(tl, n);
    FirstSample(tl);
    forall j | 0 < j < n ensures g.StepTo(j) { GridStep(tl, n, j - 1); }
  }

  // ----- PROC CLK L -----

  // Words whose clock bit is PROC CLK L.
  predicate ProcClock(words: seq<nat>, clk: nat, g: Grid) {
    |words| == |g.early| && forall j :: 0 <= j < |words| ==> (Bit(words[j], clk) != 0 <==> g.early[j])
  }

  // Edges where cycle 0, 1 and so on end.
  predicate EndsOnGrid(g: Grid, edges: seq<nat>) {
    forall i :: 0 <= i < |edges| ==>
      1 <= edges[i] < |g.cycle| && g.cycle[edges[i] - 1] == i && g.cycle[edges[i]] == i + 1
  }

  /** The i-th rising edge of PROC CLK L is where cycle i ends and i + 1 begins. */
  lemma {:induction false} ProcEdges(words: seq<nat>, g: Grid, clk: nat, m: nat)
    requires g.Steps() && ProcClock(words, clk, g) && 1 <= m <= |words|
    ensures var es := Edges(words, clk, m);
      |es| == g.cycle[m - 1] && EndsOnGrid(g, es)
  {
    if m > 1 {
      ProcEdges(words, g, clk, m - 1);
      assert g.StepTo(m - 1);
      assert Rising(words, clk, m - 1) <==> !g.early[m - 2] && g.early[m - 1];
    }
  }

  predicate InLastCycle(tl: Timeline, j: int) {
    0 <= j && tl.CycleOf(j) == |tl.ends| - 1
  }

  lemma {:induction false} LastSample(tl: Timeline, n: nat)
    requires Resolvable(tl) && DrawnTo(tl, n)
    ensures n >= 1 && InLastCycle(tl, n - 1) && !tl.Early(n - 1)
  {
    FirstSample(tl);
    NextSample(tl, n - 1);
  }

  lemma ProcShown(d: Drawing, words: seq<nat>, clk: nat)
    requires d.Valid() && Resolvable(d.tl) && d.Shown(words)
    requires clk < |d.channels| && d.channels[clk].ProcClockL?
    ensures Drawn(d.tl, |words|)
    ensures var g := GridOf(d.tl, |words|); g.Steps() && ProcClock(words, clk, g)
  {
    forall j | 0 <= j < |words|
      ensures d.tl.CycleOf(j) < |d.tl.ends| && (Bit(words[j], clk) != 0 <==> d.tl.Early(j))
    {
      assert d.ShownBy(words[j], j);
    }
    GridSteps(d.tl, |words|);
  }

  // The edges before sample m end the cycles before that of the last of these samples.
  lemma {:induction false} EdgesOfCycles(d: Drawing, words: seq<nat>, clk: nat, m: nat)
    requires d.Valid() && Resolvable(d.tl) && d.Shown(words)
    requires clk < |d.channels| && d.channels[clk].ProcClockL? && 1 <= m <= |words|
    ensures var edges := Edges(words, clk, m);
      |edges| == d.tl.CycleOf(m - 1) < |d.snaps| && EndsOfCycles(d, words, edges)
  {
    ProcShown(d, words, clk);
    var g, edges := GridOf(d.tl, |words|), Edges(words, clk, m);
    ProcEdges(words, g, clk, m);
    CyclesOfGrid(d, words, g, edges, m);
  }

  lemma {:induction false} CyclesOfGrid(d: Drawing, words: seq<nat>, g: Grid, edges: seq<nat>, m: nat)
    requires d.Valid() && Drawn(d.tl, |words|) && g == GridOf(d.tl, |words|) && 1 <= m <= |words|
    requires |edges| == g.cycle[m - 1] && EndsOnGrid(g, edges)
    ensures |edges| == d.tl.CycleOf(m - 1) < |d.snaps| && EndsOfCycles(d, words, edges)
  {
    assert g.cycle[m - 1] == d.tl.CycleOf(m - 1);
  }

  lemma {:induction false} ShownIsDrawn(d: Drawing, words: seq<nat>)
    requires d.Valid() && d.Shown(words)
    ensures Drawn(d.tl, |words|)
  {
    forall j | 0 <= j < |words| ensures d.tl.CycleOf(j) < |d.tl.ends| { assert d.ShownBy(words[j], j); }
  }

  lemma {:induction false} EndShown(d: Drawing, words: seq<nat>)
    requires d.Valid() && Resolvable(d.tl) && d.ShownToEnd(words)
    ensures InLastCycle(d.tl, |words| - 1)
  {
    ShownIsDrawn(d, words);
    LastSample(d.tl, |words|);
  }

  lemma {:induction false} DatapathUpTo(d: Drawing, words: seq<nat>, clk: nat, ch: seq<int>, last: nat)
    requires d.Valid() && Resolvable(d.tl) && d.Shown(words) && |words| == last + 1
    requires clk < |d.channels| && d.channels[clk].ProcClockL? && Signals(ch, d.channels)
    ensures var es := Events(words, clk, ch, Datapath);
      && |es| == d.tl.CycleOf(last) < |d.snaps|
      && forall i :: 0 <= i < |es| ==> IsDatapathEvent(es[i], ch, d.channels, d.snaps[i])
  {
    var edges := Edges(words, clk, last + 1);
    EventsAre(words, clk, ch, Datapath, edges);
    EdgesOfCycles(d, words, clk, last + 1);
    DatapathEvents(d, words, ch, edges);
  }

  /** Datapath: one event for each cycle before that of the last word, in order, with its
      bits. */
  lemma {:induction false} DatapathRoundTrip(d: Drawing, words: seq<nat>, clk: nat, ch: seq<int>)
    requires d.Valid() && Resolvable(d.tl) && d.Shown(words) && words != []
    requires clk < |d.channels| && d.channels[clk].ProcClockL? && Signals(ch, d.channels)
    ensures var es := Events(words, clk, ch, Datapath);
      && |es| == d.tl.CycleOf(|words| - 1) < |d.snaps|
      && (d.ShownToEnd(words) ==> |es| == |d.snaps| - 1)
      && forall i :: 0 <= i < |es| ==> IsDatapathEvent(es[i], ch, d.channels, d.snaps[i])
  {
    DatapathUpTo(d, words, clk, ch, |words| - 1);
    if d.ShownToEnd(words) { EndShown(d, words); }
  }

  // The same, of the samples.
  ghost predicate EndsOfCycles(d: Drawing, words: seq<nat>, edges: seq<nat>) {
    forall i :: 0 <= i < |edges| ==> 1 <= edges[i] < |words| && d.tl.CycleOf(edges[i] - 1) == i && d.tl.CycleOf(edges[i]) == i + 1
  }

  lemma DatapathEvents(d: Drawing, words: seq<nat>, ch: seq<int>, edges: seq<nat>)
    requires d.Valid() && d.Shown(words) && Signals(ch, d.channels) && |edges| < |d.snaps| && EndsOfCycles(d, words, edges)
    ensures forall i :: 0 <= i < |edges| ==>
      IsDatapathEvent(EventAt(words, ch, Datapath, edges[i]), ch, d.channels, d.snaps[i])
  {
    forall i | 0 <= i < |edges|
      ensures IsDatapathEvent(EventAt(words, ch, Datapath, edges[i]), ch, d.channels, d.snaps[i])
    {
      WordGivesCycle(d, words, ch, edges[i] - 1);
    }
  }

  // ----- MPC, which also looks two samples past the edge -----

  predicate ThreeSamplesPerCycle(tl: Timeline) {
    forall k :: 1 <= k < |tl.ends| ==> tl.ends[k] - tl.ends[k - 1] >= 3 * NS_PER_S
  }

  // After the first sample of a cycle come two more of it.
  lemma {:induction false} TwoMore(tl: Timeline, i: nat)
    requires Resolvable(tl) && ThreeSamplesPerCycle(tl)
    requires tl.CycleOf(i) < tl.CycleOf(i + 1) < |tl.ends|
    ensures tl.CycleOf(i + 3) == tl.CycleOf(i + 1)
  {
    NextSample(tl, i);
    CycleBounds(tl, i);
    EnoughForThree(tl, tl.CycleOf(i), i);
    StaysUntil(tl, i + 1, i + 3, tl.CycleOf(i + 1));
  }

  lemma {:induction false} StaysUntil(tl: Timeline, i: nat, j: nat, k: nat)
    requires Resolvable(tl) && i <= j && tl.CycleOf(i) == k < |tl.ends| && tl.At(j) < tl.ends[k]
    ensures tl.CycleOf(j) == k
  {
    if i < j {
      StaysUntil(tl, i, j - 1, k);
      StaysWhileRunning(tl, j - 1);
    }
  }

  lemma EnoughForThree(tl: Timeline, p: nat, j: nat)
    requires ThreeSamplesPerCycle(tl) && p + 1 < |tl.ends| && tl.At(j) < tl.ends[p]
    ensures tl.At(j + 3) < tl.ends[p + 1]
  {
    assert tl.ends[p + 1] - tl.ends[p] >= 3 * NS_PER_S;
  }

  lemma StaysWhileRunning(tl: Timeline, j: nat)
    requires Resolvable(tl) && tl.CycleOf(j) < |tl.ends| && tl.At(j + 1) < tl.ends[tl.CycleOf(j)]
    ensures tl.CycleOf(j + 1) == tl.CycleOf(j)
  {
    NextSample(tl, j);
    CycleBounds(tl, j + 1);
  }

  lemma {:induction false} EnoughAfterLastEdge(tl: Timeline, n: nat)
    requires Resolvable(tl) && ThreeSamplesPerCycle(tl) && DrawnTo(tl, n)
    ensures InLastCycle(tl, n - 3)
  {
    LastSample(tl, n);
    NoLateEdge(tl, n, n - 1);
    NoLateEdge(tl, n, n - 2);
  }

  lemma {:induction false} NoLateEdge(tl: Timeline, n: nat, e: nat)
    requires Resolvable(tl) && ThreeSamplesPerCycle(tl) && DrawnTo(tl, n)
    requires e < n <= e + 2 && InLastCycle(tl, e)
    ensures InLastCycle(tl, e - 1)
  {
    FirstSample(tl);
    SameCycle(tl, n, e - 1);
  }

  // An edge is followed by two more samples of its cycle.
  lemma {:induction false} SameCycle(tl: Timeline, n: nat, i: nat)
    requires Resolvable(tl) && ThreeSamplesPerCycle(tl)
    requires n <= i + 3 && tl.CycleOf(n) == |tl.ends| && tl.CycleOf(i + 1) < |tl.ends|
    ensures tl.CycleOf(i) == tl.CycleOf(i + 1)
  {
    tl.CycleOfGrows(i, i + 1);
    if tl.CycleOf(i) < tl.CycleOf(i + 1) {
      TwoMore(tl, i);
      tl.CycleOfGrows(n, i + 3);
    }
  }

  lemma {:induction false} MpcEdge(d: Drawing, words: seq<nat>, ch: seq<int>, k: nat, i: nat)
    requires d.Valid() && Signals(ch, d.channels) && |ch| >= 12
    requires 1 <= k && k + 2 < |words| && i + 1 < |d.snaps|
    requires d.ShownBy(words[k - 1], k - 1) && d.ShownBy(words[k + 2], k + 2)
    requires d.tl.CycleOf(k - 1) == i && d.tl.CycleOf(k + 2) == i + 1
    ensures IsMpcEvent(EventAt(words, ch, Mpc, k), ch, d.channels, d.snaps[i], d.snaps[i + 1])
  {
    assert Signals(ch[9..12], d.channels);
    WordGivesCycle(d, words, ch, k - 1);
    WordGivesCycle(d, words, ch[9..12], k + 2);
    var next := Levels(words[k + 2], ch[9..12]);
    SmallPowers();
    FromLevelsBelow(next);
    MpcBits(EventAt(words, ch, Mpc, k), FromLevels(Levels(words[k - 1], ch)), FromLevels(next), ch, d.channels, d.snaps[i], d.snaps[i + 1]);
  }

  lemma {:induction false} MpcBits(e: Event, v: nat, e38: nat, ch: seq<int>, channels: seq<Channel>, snap: Snapshot, next: Snapshot)
    requires Signals(ch, channels) && Readable(channels, snap) && Readable(channels, next) && |ch| >= 12
    requires Signals(ch[9..12], channels) && e38 < 8 && e.key == MpcKey(v) && e.data == MpcData(e38, v)
    requires forall b: nat :: Bit(v, b) == CycleBit(ch, channels, snap, b)
    requires forall b: nat :: Bit(e38, b) == CycleBit(ch[9..12], channels, next, b)
    ensures IsMpcEvent(e, ch, channels, snap, next)
  {
    forall b: nat
      ensures Bit(e.key, b) == if b < 9 then CycleBit(ch, channels, snap, b) else 0
      ensures Bit(e.data, b) == CycleBit(ch, channels, if b < 3 then next else snap, b + 9)
    {
      MpcKeyBit(v, b);
      MpcDataBit(e38, v, b);
    }
  }

  lemma {:induction false} EndShownTwice(d: Drawing, words: seq<nat>)
    requires d.Valid() && Resolvable(d.tl) && ThreeSamplesPerCycle(d.tl) && d.ShownToEnd(words)
    ensures InLastCycle(d.tl, |words| - 3)
  {
    ShownIsDrawn(d, words);
    EnoughAfterLastEdge(d.tl, |words|);
  }

  lemma {:induction false} MpcUpTo(d: Drawing, words: seq<nat>, clk: nat, ch: seq<int>, last: nat)
    requires d.Valid() && Resolvable(d.tl) && ThreeSamplesPerCycle(d.tl) && d.Shown(words) && |words| == last + 3
    requires clk < |d.channels| && d.channels[clk].ProcClockL? && Signals(ch, d.channels) && |ch| >= 12
    ensures var es := Events(words, clk, ch, Mpc);
      && |es| == d.tl.CycleOf(last) < |d.snaps|
      && forall i :: 0 <= i < |es| ==>
           IsMpcEvent(es[i], ch, d.channels, d.snaps[i], d.snaps[i + 1])
  {
    var edges := Edges(words, clk, last + 1);
    EventsAre(words, clk, ch, Mpc, edges);
    EdgesOfCycles(d, words, clk, last + 1);
    MpcEvents(d, words, ch, edges);
  }

  /** MPC: one event for each cycle but the last, in order. */
  lemma {:induction false} MpcRoundTrip(d: Drawing, words: seq<nat>, clk: nat, ch: seq<int>)
    requires d.Valid() && Resolvable(d.tl) && ThreeSamplesPerCycle(d.tl) && d.ShownToEnd(words)
    requires clk < |d.channels| && d.channels[clk].ProcClockL? && Signals(ch, d.channels) && |ch| >= 12
    ensures var es := Events(words, clk, ch, Mpc);
      && |es| == |d.snaps| - 1
      && forall i :: 0 <= i < |es| ==>
           IsMpcEvent(es[i], ch, d.channels, d.snaps[i], d.snaps[i + 1])
  {
    EndShownTwice(d, words);
    MpcUpTo(d, words, clk, ch, |words| - 3);
  }

  lemma {:induction false} MpcEventAt(d: Drawing, words: seq<nat>, ch: seq<int>, k: nat, i: nat)
    requires d.Valid() && Resolvable(d.tl) && ThreeSamplesPerCycle(d.tl) && d.Shown(words)
    requires Signals(ch, d.channels) && |ch| >= 12 && 1 <= k && k + 2 < |words| && i + 1 < |d.snaps|
    requires d.tl.CycleOf(k - 1) == i && d.tl.CycleOf(k) == i + 1
    ensures IsMpcEvent(EventAt(words, ch, Mpc, k), ch, d.channels, d.snaps[i], d.snaps[i + 1])
  {
    TwoMore(d.tl, k - 1);
    assert d.ShownBy(words[k - 1], k - 1) && d.ShownBy(words[k + 2], k + 2);
    MpcEdge(d, words, ch, k, i);
  }

  lemma {:induction false} MpcEvents(d: Drawing, words: seq<nat>, ch: seq<int>, edges: seq<nat>)
    requires d.Valid() && Resolvable(d.tl) && ThreeSamplesPerCycle(d.tl) && d.Shown(words)
    requires Signals(ch, d.channels) && |ch| >= 12 && |edges| < |d.snaps| && EndsOfCycles(d, words, edges)
    requires forall i :: 0 <= i < |edges| ==> edges[i] + 2 < |words|
    ensures forall i :: 0 <= i < |edges| ==>
      IsMpcEvent(EventAt(words, ch, Mpc, edges[i]), ch, d.channels, d.snaps[i], d.snaps[i + 1])
  {
    forall i | 0 <= i < |edges|
      ensures IsMpcEvent(EventAt(words, ch, Mpc, edges[i]), ch, d.channels, d.snaps[i], d.snaps[i + 1])
    {
      MpcEventAt(d, words, ch, edges[i], i);
    }
  }

  // ----- The PSW clock -----

  // The cycles below m that load the PSW or its condition codes.
  function Loads(loads: seq<bool>, m: nat): seq<nat>
    requires m <= |loads|
  {
    if m == 0 then [] else Loads(loads, m - 1) + if loads[m - 1] then [m - 1] else []
  }

  // Words whose clock bit is the PSW clock of a capture with these loads.
  predicate PswPulses(words: seq<nat>, clk: nat, g: Grid, loads: seq<bool>) {
    && |words| == |g.early| == |g.cycle|
    && forall j :: 0 <= j < |words| ==>
         g.cycle[j] < |loads| && (Bit(words[j], clk) != 0 <==> !g.early[j] && loads[g.cycle[j]])
  }

  // The loads whose pulse has begun by sample j.
  function LoadsSeen(g: Grid, loads: seq<bool>, j: nat): seq<nat>
    requires j < |g.early| == |g.cycle| && g.cycle[j] < |loads|
  {
    Loads(loads, if g.early[j] then g.cycle[j] else g.cycle[j] + 1)
  }

  lemma {:induction false} PswEdges(words: seq<nat>, g: Grid, clk: nat, loads: seq<bool>, m: nat)
    requires g.Steps() && PswPulses(words, clk, g, loads) && 1 <= m <= |words|
    ensures var es, seen := Edges(words, clk, m), LoadsSeen(g, loads, m - 1);
      |es| == |seen| && forall i :: 0 <= i < |es| ==> g.cycle[es[i] - 1] == seen[i]
  {
    if m > 1 {
      PswEdges(words, g, clk, loads, m - 1);
      assert g.StepTo(m - 1);
      var k := g.cycle[m - 2];
      assert Rising(words, clk, m - 1) <==>
        g.cycle[m - 1] == k && g.early[m - 2] && !g.early[m - 1] && loads[k];
    }
  }

  function LoadFlags(snaps: seq<Snapshot>, def: nat): seq<bool>
    requires forall k :: 0 <= k < |snaps| ==> def < |snaps[k].values|
  {
    seq(|snaps|, k requires 0 <= k < |snaps| => snaps[k].values[def] != 0)
  }

  lemma PswShown(d: Drawing, words: seq<nat>, clk: nat)
    requires d.Valid() && Resolvable(d.tl) && d.Shown(words)
    requires clk < |d.channels| && d.channels[clk].PswClock?
    ensures forall k :: 0 <= k < |d.snaps| ==> d.channels[clk].def < |d.snaps[k].values|
    ensures Drawn(d.tl, |words|)
    ensures var g := GridOf(d.tl, |words|);
      g.Steps() && PswPulses(words, clk, g, LoadFlags(d.snaps, d.channels[clk].def))
  {
    forall k | 0 <= k < |d.snaps| ensures d.channels[clk].def < |d.snaps[k].values| {
      assert Readable(d.channels, d.snaps[k]);
    }
    forall j | 0 <= j < |words|
      ensures d.tl.CycleOf(j) < |d.tl.ends|
      ensures Bit(words[j], clk) != 0 <==>
        !d.tl.Early(j) && d.snaps[d.tl.CycleOf(j)].values[d.channels[clk].def] != 0
    {
      assert d.ShownBy(words[j], j);
    }
    GridSteps(d.tl, |words|);
  }

  predicate SeenOnGrid(g: Grid, edges: seq<nat>, loads: seq<nat>) {
    |edges| == |loads| && forall i :: 0 <= i < |edges| ==> 1 <= edges[i] < |g.cycle| && g.cycle[edges[i] - 1] == loads[i]
  }

  // The rising edges of the clock of a whole capture.
  lemma {:induction false} AllPswEdges(words: seq<nat>, g: Grid, clk: nat, flags: seq<bool>, last: nat, loads: seq<nat>)
    requires g.Steps() && PswPulses(words, clk, g, flags) && |words| == last + 1 && loads == Loads(flags, |flags|)
    requires g.cycle[last] + 1 == |flags| && !g.early[last]
    ensures SeenOnGrid(g, Edges(words, clk, last + 1), loads)
  {
    PswEdges(words, g, clk, flags, last + 1);
    assert LoadsSeen(g, flags, last) == loads;
  }

  lemma {:induction false} E107UpTo(d: Drawing, words: seq<nat>, clk: nat, ch: seq<int>, flags: seq<bool>, last: nat, loads: seq<nat>)
    requires d.Valid() && d.Shown(words) && Drawn(d.tl, |words|) && |words| == last + 1
    requires |flags| == |d.snaps| && loads == Loads(flags, |flags|) && Signals(ch, d.channels)
    requires var g := GridOf(d.tl, |words|);
      g.Steps() && PswPulses(words, clk, g, flags) && g.cycle[last] + 1 == |flags| && !g.early[last]
    ensures var es := Events(words, clk, ch, E107);
      && |es| == |loads|
      && forall i :: 0 <= i < |es| ==>
           loads[i] < |d.snaps| && IsE107Event(es[i], ch, d.channels, d.snaps[loads[i]])
  {
    var g, edges := GridOf(d.tl, |words|), Edges(words, clk, last + 1);
    AllPswEdges(words, g, clk, flags, last, loads);
    EventsAre(words, clk, ch, E107, edges);
    E107Events(d, words, ch, edges, loads);
  }

  /** E107: one event for each cycle that loads condition codes, in order. */
  lemma {:induction false} E107RoundTrip(d: Drawing, words: seq<nat>, clk: nat, ch: seq<int>)
    requires d.Valid() && Resolvable(d.tl) && d.ShownToEnd(words)
    requires clk < |d.channels| && d.channels[clk].PswClock? && Signals(ch, d.channels)
    ensures forall k :: 0 <= k < |d.snaps| ==> d.channels[clk].def < |d.snaps[k].values|
    ensures var es := Events(words, clk, ch, E107);
      var loads := Loads(LoadFlags(d.snaps, d.channels[clk].def), |d.snaps|);
      && |es| == |loads|
      && forall i :: 0 <= i < |es| ==>
           loads[i] < |d.snaps| && IsE107Event(es[i], ch, d.channels, d.snaps[loads[i]])
  {
    PswShown(d, words, clk);
    LastSample(d.tl, |words|);
    var flags := LoadFlags(d.snaps, d.channels[clk].def);
    E107UpTo(d, words, clk, ch, flags, |words| - 1, Loads(flags, |flags|));
  }

  lemma {:induction false} E107Events(d: Drawing, words: seq<nat>, ch: seq<int>, edges: seq<nat>, loads: seq<nat>)
    requires d.Valid() && d.Shown(words) && Drawn(d.tl, |words|) && Signals(ch, d.channels)
    requires SeenOnGrid(GridOf(d.tl, |words|), edges, loads)
    ensures forall i :: 0 <= i < |edges| ==>
      loads[i] < |d.snaps| && IsE107Event(EventAt(words, ch, E107, edges[i]), ch, d.channels, d.snaps[loads[i]])
  {
    forall i | 0 <= i < |edges|
      ensures loads[i] < |d.snaps| && IsE107Event(EventAt(words, ch, E107, edges[i]), ch, d.channels, d.snaps[loads[i]])
    {
      assert GridOf(d.tl, |words|).cycle[edges[i] - 1] == d.tl.CycleOf(edges[i] - 1);
      E107Edge(d, words, ch, edges[i]);
    }
  }

  lemma {:induction false} E107Edge(d: Drawing, words: seq<nat>, ch: seq<int>, k: nat)
    requires d.Valid() && 1 <= k < |words| && d.ShownBy(words[k - 1], k - 1) && Signals(ch, d.channels)
    ensures IsE107Event(EventAt(words, ch, E107, k), ch, d.channels, d.snaps[d.tl.CycleOf(k - 1)])
  {
    WordGivesCycle(d, words, ch, k - 1);
    var v := FromLevels(Levels(words[k - 1], ch));
    forall b: nat { E107KeyBit(v, b); }
  }

  // ----- From files to words -----

  lemma {:induction false} SampleShows(d: Drawing, sample: seq<Byte>, j: nat)
    requires d.Valid() && |d.channels| <= MAX_CHANNELS
    requires ShowsCycle(sample, d.tl, d.snaps, d.channels, j)
    ensures d.ShownBy(LeWord(sample), j)
  {
    forall c | 0 <= c < |d.channels|
      ensures Bit(LeWord(sample), c) != 0 <==> Level(d.channels[c], d.snaps[d.tl.CycleOf(j)], d.tl.Early(j))
    {
      LeWordBit(sample, c);
      BitIsBit(sample[c / 8], c % 8);
    }
  }

  lemma {:induction false} SessionWords(samples: seq<seq<Byte>>, unit: nat)
    requires unit >= 1 && samples != [] && forall j :: 0 <= j < |samples| ==> |samples[j]| == unit
    ensures var s := Session(Flatten(samples), unit);
      s.Valid() && s.Count() == |samples| && forall j :: 0 <= j < |samples| ==> s.Word(j) == LeWord(samples[j])
  {
    var s := Session(Flatten(samples), unit);
    FlattenAt(samples, unit, 0);
    RemainderIs(|s.raw|, unit, |samples|, 0);
    MulMonotone(1, |samples|, unit);
    forall j | 0 <= j < |samples| ensures s.Word(j) == LeWord(samples[j]) {
      FlattenAt(samples, unit, j);
    }
  }

  /** The logic files, read back, show the capture. */
  lemma {:induction false} FilesShowCapture(d: Drawing, files: seq<seq<Byte>>, samples: seq<seq<Byte>>)
    requires d.Valid() && 1 <= |d.channels| <= MAX_CHANNELS
    requires Exported(samples, d.tl, d.snaps, d.channels) && Flatten(files) == Flatten(samples)
    requires samples != []
    ensures var s := Session(Flatten(files), UnitOf(|d.channels|));
      s.Valid() && s.Count() == |samples| && d.Shown(s.Words())
  {
    forall j | 0 <= j < |samples| ensures |samples[j]| == UnitOf(|d.channels|) {
      assert ShowsCycle(samples[j], d.tl, d.snaps, d.channels, j);
    }
    SessionWords(samples, UnitOf(|d.channels|));
    var words := Session(Flatten(files), UnitOf(|d.channels|)).Words();
    forall j | 0 <= j < |words| ensures d.ShownBy(words[j], j) {
      SampleShows(d, samples[j], j);
    }
  }

  // In the units of the source: at 25 MHz or more, with cycles that last 40 ns
  // and one sample step, and time running forward.
  predicate Decodable(snaps: seq<Snapshot>, rate: nat) {
    && |snaps| >= 2 && NS_PER_S <= CLOCK_LOW_NS * rate
    && forall k :: 1 <= k < |snaps| ==> (snaps[k].ns - snaps[k - 1].ns) * rate >= CLOCK_LOW_NS * rate + NS_PER_S
  }

  lemma Distribute(a: int, b: int, r: int)
    ensures (a - b) * r == a * r - b * r
  {}

  lemma DecodableResolvable(snaps: seq<Snapshot>, rate: nat)
    requires Decodable(snaps, rate)
    ensures Resolvable(TimelineOf(snaps, rate))
  {
    var tl := TimelineOf(snaps, rate);
    forall k | 1 <= k < |snaps| ensures tl.ends[k] - tl.ends[k - 1] >= tl.low + NS_PER_S {
      Distribute(snaps[k].ns, snaps[k - 1].ns, rate);
    }
    Distribute(snaps[0].ns, snaps[1].ns - snaps[0].ns, rate);
    Distribute(snaps[1].ns, snaps[0].ns, rate);
  }

  lemma {:induction false} EndsGrow(tl: Timeline, i: nat, j: nat)
    requires Resolvable(tl) && i <= j < |tl.ends|
    ensures tl.ends[i] <= tl.ends[j]
  {
    if i < j { EndsGrow(tl, i, j - 1); }
  }

  /** A sample falls inside the capture if and only if it is taken before the last cycle ends. */
  lemma {:induction false} InsideIff(tl: Timeline, n: nat)
    requires Resolvable(tl)
    ensures tl.CycleOf(n) < |tl.ends| <==> tl.At(n) < tl.ends[|tl.ends| - 1]
  {
    CycleBounds(tl, n);
    if tl.CycleOf(n) < |tl.ends| { EndsGrow(tl, tl.CycleOf(n), |tl.ends| - 1); }
  }

  // The session with these events is cut, or it gives back the whole capture.
  ghost predicate GivesBack(events: seq<Event>, cut: bool, d: Drawing, ch: seq<int>)
    requires d.Valid() && Signals(ch, d.channels)
  {
    var room := SessionRoom(|d.channels|);
    && room >= 1
    && (cut <==> d.tl.CycleOf(room) < |d.snaps|)
    && |events| == (if cut then d.tl.CycleOf(room - 1) else |d.snaps| - 1) < |d.snaps|
    && forall i :: 0 <= i < |events| ==> IsDatapathEvent(events[i], ch, d.channels, d.snaps[i])
  }

  // Files that hold these samples of a capture, as `Export` leaves them.
  ghost predicate Holds(files: seq<seq<Byte>>, samples: seq<seq<Byte>>, d: Drawing) {
    && d.Valid() && Resolvable(d.tl) && 1 <= |d.channels| <= MAX_CHANNELS
    && Exported(samples, d.tl, d.snaps, d.channels) && Flatten(files) == Flatten(samples)
    && files != [] && FullButLast(files) && EndsWith(files, d.tl, |samples|)
  }

  lemma {:induction false} SessionCount(d: Drawing, files: seq<seq<Byte>>, samples: seq<seq<Byte>>)
    requires Holds(files, samples, d)
    ensures var (n, room) := (|samples|, SessionRoom(|d.channels|));
      && n >= 1 && room >= 1 && (d.tl.CycleOf(n) < |d.snaps| <==> d.tl.CycleOf(room) < |d.snaps|)
      && (d.tl.CycleOf(n) < |d.snaps| ==> n == room)
  {
    FirstSample(d.tl);
    CutIff(files, samples, d.tl, d.snaps, d.channels);
  }

  lemma {:induction false} SessionEvents(d: Drawing, files: seq<seq<Byte>>, samples: seq<seq<Byte>>, clk: nat, ch: seq<int>)
    requires Holds(files, samples, d) && samples != []
    requires clk < |d.channels| && d.channels[clk].ProcClockL? && Signals(ch, d.channels)
    ensures var s := Session(Flatten(files), UnitOf(|d.channels|));
      && s.Valid()
      && var es := Events(s.Words(), clk, ch, Datapath);
      && |es| == d.tl.CycleOf(|samples| - 1) < |d.snaps|
      && (d.tl.CycleOf(|samples|) == |d.snaps| ==> |es| == |d.snaps| - 1)
      && forall i :: 0 <= i < |es| ==> IsDatapathEvent(es[i], ch, d.channels, d.snaps[i])
  {
    FilesShowCapture(d, files, samples);
    DatapathRoundTrip(d, Session(Flatten(files), UnitOf(|d.channels|)).Words(), clk, ch);
  }

  lemma {:induction false} SessionGivesBack(d: Drawing, files: seq<seq<Byte>>, samples: seq<seq<Byte>>, clk: nat, ch: seq<int>)
    requires Holds(files, samples, d)
    requires clk < |d.channels| && d.channels[clk].ProcClockL? && Signals(ch, d.channels)
    ensures var s := Session(Flatten(files), UnitOf(|d.channels|));
      s.Valid() && GivesBack(Events(s.Words(), clk, ch, Datapath), d.tl.CycleOf(|samples|) < |d.snaps|, d, ch)
  {
    SessionCount(d, files, samples);
    SessionEvents(d, files, samples, clk, ch);
  }

  lemma {:induction false} CapturedBits(events: seq<Event>, cut: bool, d: Drawing, ch: seq<int>)
    requires d.Valid() && Signals(ch, d.channels) && GivesBack(events, cut, d, ch)
    ensures forall i, b :: 0 <= i < |events| && 0 <= b < |ch| && b < 16 && ch[b] >= 0 ==>
      Bit(events[i].key, b) == Bit(d.snaps[i].values[d.channels[ch[b]].def], d.channels[ch[b]].bit)
  {
    forall i, b | 0 <= i < |events| && 0 <= b < |ch| && b < 16 && ch[b] >= 0
      ensures Bit(events[i].key, b) == Bit(d.snaps[i].values[d.channels[ch[b]].def], d.channels[ch[b]].bit)
    {
      assert HasSignal(ch, b) && IsDatapathEvent(events[i], ch, d.channels, d.snaps[i]);
    }
  }

  method DecodeFiles(files: seq<seq<Byte>>, unit: nat, clk: nat, ch: seq<int>) returns (events: seq<Event>)
    requires 1 <= unit <= |Flatten(files)|
    ensures events == Events(Session(Flatten(files), unit).Words(), clk, ch, Datapath)
  {
    var decoded := Decode(Session(Flatten(files), unit), clk, ch, Datapath);
    events := if decoded.Ok? then decoded.value else [];
  }

  /** Exporting a capture and decoding the session is the identity: the events are the
      micro-cycles but the last, with their bits. A capture that goes on when as many
      samples are taken as a session has room for is cut, and the events are those before
      the cycle of the last sample that fits. */
  method ExportThenDecode(snaps: seq<Snapshot>, channels: seq<Channel>, rate: nat, clk: nat, ch: seq<int>)
    returns (events: seq<Event>, cut: bool)
    requires Decodable(snaps, rate) && AllReadable(channels, snaps) && 1 <= |channels| <= MAX_CHANNELS
    requires clk < |channels| && channels[clk].ProcClockL? && Signals(ch, channels)
    ensures GivesBack(events, cut, Drawing(TimelineOf(snaps, rate), snaps, channels), ch)
    ensures var tl := TimelineOf(snaps, rate);
      cut <==> tl.At(SessionRoom(|channels|)) < tl.ends[|snaps| - 1]
    ensures |events| < |snaps| && forall i, b :: 0 <= i < |events| && 0 <= b < |ch| && b < 16 && ch[b] >= 0 ==>
      Bit(events[i].key, b) == Bit(snaps[i].values[channels[ch[b]].def], channels[ch[b]].bit)
  {
    var r, nsamples, samples := Export(snaps, channels, rate);
    var tl := TimelineOf(snaps, rate);
    cut := tl.CycleOf(nsamples) < |snaps|;
    DecodableResolvable(snaps, rate);
    SessionGivesBack(Drawing(tl, snaps, channels), r.value, samples, clk, ch);
    InsideIff(tl, SessionRoom(|channels|));
    events := DecodeFiles(r.value, UnitOf(|channels|), clk, ch);
    CapturedBits(events, cut, Drawing(tl, snaps, channels), ch);
  }
}
