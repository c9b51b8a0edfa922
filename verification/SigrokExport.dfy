/**
 Export of a capture as a sigrok session: micro-cycles of uneven length are
 resampled at a fixed rate, the clocks are drawn as pulses, and the channels are
 packed into sample words that fill the logic files chunk by chunk.
 */
module SigrokExport {
  import opened Bits
  import opened Bytes

  const CHUNK: nat := 0x40_0000
  const MAX_CHANNELS: nat := 64
  const MAX_LOGIC_FILES: nat := 60  // 62 entries, less "version" and "metadata"
  const CLOCK_LOW_NS: nat := 40
  const NS_PER_S: nat := 1_000_000_000

  // A snapshot ends its micro-cycle at `ns`. `values` are the probed signals.
  datatype Snapshot = Snapshot(ns: nat, values: seq<nat>)

  datatype Channel = Value(def: nat, bit: nat) | ProcClockL | PswClock(def: nat)

  predicate Readable(channels: seq<Channel>, snap: Snapshot) {
    forall c :: 0 <= c < |channels| && !channels[c].ProcClockL? ==> channels[c].def < |snap.values|
  }

  predicate AllReadable(channels: seq<Channel>, snaps: seq<Snapshot>) {
    forall k :: 0 <= k < |snaps| ==> Readable(channels, snaps[k])
  }

  /** A capture on a sampling grid, in units of 1 / rate ns: cycle k lasts until
      ends[k], and sample j is taken at start + j * NS_PER_S. */
  datatype Timeline = Timeline(start: int, ends: seq<int>, low: nat)
  {
    function At(j: nat): int {
      start + j * NS_PER_S
    }

    // The first cycle from k on that has not ended at t.
    function Seek(k: nat, t: int): (k': nat)
      requires k <= |ends|
      ensures k <= k' <= |ends|
      decreases |ends| - k
    {
      if k < |ends| && ends[k] <= t then Seek(k + 1, t) else k
    }

    lemma {:induction false} SeekBounds(k: nat, t: int)
      requires k <= |ends|
      ensures var k' := Seek(k, t);
        && (k' < |ends| ==> ends[k'] > t)
        && (k < k' ==> ends[k' - 1] <= t)
      decreases |ends| - k
    {
      if k < |ends| && ends[k] <= t { SeekBounds(k + 1, t); }
    }

    // The cycle of sample j, |ends| once the capture is over.
    function CycleOf(j: nat): (k: nat)
      ensures k <= |ends|
    {
      if j == 0 then Seek(0, At(0)) else Seek(CycleOf(j - 1), At(j))
    }

    // PROC CLK L is high until the last 40 ns of the cycle.
    predicate Early(j: nat)
      requires CycleOf(j) < |ends|
    {
      ends[CycleOf(j)] - At(j) > low
    }

    lemma {:induction false} CycleOfGrows(i: nat, j: nat)
      requires i <= j
      ensures CycleOf(i) <= CycleOf(j)
    {
      if i < j { CycleOfGrows(i, j - 1); }
    }

    // Samples left to take at most, for a grid point inside the capture.
    ghost function Left(j: nat): int {
      if ends == [] then 0 else Highest(ends) - At(j)
    }
  }

  function Highest(xs: seq<int>): int
    requires xs != []
  {
    if |xs| == 1 then xs[0] else
    var rest := Highest(xs[..|xs| - 1]);
    if xs[|xs| - 1] > rest then xs[|xs| - 1] else rest
  }

  lemma {:induction false} HighestIs(xs: seq<int>, i: nat)
    requires i < |xs|
    ensures xs[i] <= Highest(xs)
  {
    if i < |xs| - 1 { HighestIs(xs[..|xs| - 1], i); }
  }

  // The first cycle is given the length of the second.
  function TimelineOf(snaps: seq<Snapshot>, rate: nat): (t: Timeline)
    requires |snaps| >= 2
    ensures |t.ends| == |snaps|
  {
    Timeline(
      (snaps[0].ns - (snaps[1].ns - snaps[0].ns)) * rate,
      seq(|snaps|, k requires 0 <= k < |snaps| => snaps[k].ns * rate),
      CLOCK_LOW_NS * rate)
  }

  predicate Level(ch: Channel, snap: Snapshot, early: bool)
    requires !ch.ProcClockL? ==> ch.def < |snap.values|
  {
    match ch
    case Value(def, bit) => Bit(snap.values[def], bit) == 1
    case ProcClockL => early
    case PswClock(def) => !early && snap.values[def] != 0
  }

  function UnitOf(channels: nat): nat {
    if channels <= 8 then 1 else if channels <= 16 then 2 else if channels <= 32 then 4 else 8
  }

  /** A sample takes the fewest bytes, of 1, 2, 4 and 8, that have a bit for each channel. */
  lemma UnitIsLeast(channels: nat, unit: nat)
    requires channels <= MAX_CHANNELS && unit in {1, 2, 4, 8}
    ensures UnitOf(channels) in {1, 2, 4, 8} && 8 * UnitOf(channels) >= channels
    ensures 8 * unit >= channels ==> UnitOf(channels) <= unit
  {}

  // Sample bytes that show each channel's level on its bit, and zeros above.
  ghost predicate Shows(sample: seq<Byte>, channels: seq<Channel>, snap: Snapshot, early: bool)
    requires Readable(channels, snap)
  {
    forall c :: 0 <= c < 8 * |sample| ==>
      (Bit(sample[c / 8], c % 8) == 1 <==> c < |channels| && Level(channels[c], snap, early))
  }

  // Sample j shows the cycle it falls in.
  ghost predicate ShowsCycle(sample: seq<Byte>, tl: Timeline, snaps: seq<Snapshot>, channels: seq<Channel>, j: nat)
    requires |tl.ends| == |snaps| && AllReadable(channels, snaps)
  {
    && tl.CycleOf(j) < |snaps|
    && |sample| == UnitOf(|channels|)
    && Shows(sample, channels, snaps[tl.CycleOf(j)], tl.Early(j))
  }

  ghost predicate Exported(samples: seq<seq<Byte>>, tl: Timeline, snaps: seq<Snapshot>, channels: seq<Channel>)
    requires |tl.ends| == |snaps| && AllReadable(channels, snaps)
  {
    forall j :: 0 <= j < |samples| ==> ShowsCycle(samples[j], tl, snaps, channels, j)
  }

  // Every logic file but the last is full.
  predicate FullButLast(files: seq<seq<Byte>>) {
    && (forall i :: 0 <= i < |files| - 1 ==> |files[i]| == CHUNK)
    && (files != [] ==> |files[|files| - 1]| <= CHUNK)
  }

  // The samples end with the capture, or they fill the last logic file.
  predicate EndsWith(files: seq<seq<Byte>>, tl: Timeline, n: nat) {
    && |files| <= MAX_LOGIC_FILES
    && (tl.CycleOf(n) == |tl.ends| || (|files| == MAX_LOGIC_FILES && |files[|files| - 1]| == CHUNK))
  }

  // The samples for which a session has room.
  function SessionRoom(channels: nat): nat {
    MAX_LOGIC_FILES * CHUNK / UnitOf(channels)
  }

  datatype Error = TooFewSamples | TooManyChannels | NoSignals
  datatype Result<+T> = Ok(value: T) | Err(error: Error)

  // The value channels of a cycle, kept for all its samples.
  method PackValues(channels: seq<Channel>, snap: Snapshot, unit: nat) returns (v: seq<Byte>)
    requires Readable(channels, snap) && |channels| <= 8 * unit
    ensures |v| == unit && ShowsValues(v, channels, snap)
  {
    v := seq(unit, _ => 0);
    ZeroBits();
    for c := 0 to |channels|
      invariant |v| == unit
      invariant forall b :: 0 <= b < 8 * unit ==> Bit(v[b / 8], b % 8) == if b < c then ValueBit(channels[b], snap) else 0
    {
      if channels[c].Value? && Bit(snap.values[channels[c].def], channels[c].bit) == 1 {
        v := WithBit(v, c);
      } else if channels[c].Value? {
        BitIsBit(snap.values[channels[c].def], channels[c].bit);
      }
    }
  }

  // The captured bit of a value channel. Clocks start low.
  function ValueBit(ch: Channel, snap: Snapshot): nat
    requires ch.Value? ==> ch.def < |snap.values|
  {
    if ch.Value? then Bit(snap.values[ch.def], ch.bit) else 0
  }

  // Each value channel is on its bit, and all other bits are zero.
  ghost predicate ShowsValues(v: seq<Byte>, channels: seq<Channel>, snap: Snapshot)
    requires Readable(channels, snap)
  {
    forall b :: 0 <= b < 8 * |v| ==>
      Bit(v[b / 8], b % 8) == if b < |channels| then ValueBit(channels[b], snap) else 0
  }

  /** The bits of an exported sample: of a value channel the captured bit, of PROC CLK L one
      up to 40 ns before the end of the cycle, and of a PSW clock one from then on if its
      signal is not zero. */
  lemma {:induction false} SampleBit(sample: seq<Byte>, tl: Timeline, snaps: seq<Snapshot>, channels: seq<Channel>, j: nat, c: nat)
    requires |tl.ends| == |snaps| && AllReadable(channels, snaps) && c < |channels| <= MAX_CHANNELS
    requires ShowsCycle(sample, tl, snaps, channels, j)
    ensures c < 8 * |sample|
    ensures var (k, b) := (tl.CycleOf(j), Bit(sample[c / 8], c % 8));
      && k < |snaps|
      && var late := tl.ends[k] - (tl.start + j * NS_PER_S) <= tl.low;
      match channels[c]
      case Value(def, bit) => b == Bit(snaps[k].values[def], bit)
      case ProcClockL => b == if late then 0 else 1
      case PswClock(def) => b == if late && snaps[k].values[def] != 0 then 1 else 0
  {
    UnitIsLeast(|channels|, 1);
    var k := tl.CycleOf(j);
    assert Readable(channels, snaps[k]);
    BitIsBit(sample[c / 8], c % 8);
    if channels[c].Value? { BitIsBit(snaps[k].values[channels[c].def], channels[c].bit); }
  }

  // The clock pulses of one sample.
  method AddClocks(v: seq<Byte>, channels: seq<Channel>, snap: Snapshot, early: bool) returns (smp: seq<Byte>)
    requires Readable(channels, snap) && |channels| <= 8 * |v| && ShowsValues(v, channels, snap)
    ensures |smp| == |v| && Shows(smp, channels, snap, early)
  {
    smp := v;
    for c := 0 to |channels|
      invariant |smp| == |v|
      invariant forall b :: 0 <= b < 8 * |v| ==>
        (Bit(smp[b / 8], b % 8) == 1 <==>
          b < |channels| && (channels[b].Value? || b < c) && Level(channels[b], snap, early))
    {
      var ch := channels[c];
      if (ch.ProcClockL? && early) || (ch.PswClock? && !early && snap.values[ch.def] != 0) {
        smp := WithBit(smp, c);
      }
    }
  }

  /** v[c >> 3] |= 1 << (c & 7) */
  function WithBit(v: seq<Byte>, c: nat): (w: seq<Byte>)
    requires c < 8 * |v|
    ensures |w| == |v|
    ensures forall b :: 0 <= b < 8 * |v| ==> Bit(w[b / 8], b % 8) == if b == c then 1 else Bit(v[b / 8], b % 8)
  {
    SetBitInByte(v[c / 8], c % 8);
    assert forall i: nat :: Bit(SetBit(v[c / 8], c % 8), i) == if i == c % 8 then 1 else Bit(v[c / 8], i) by {
      forall i: nat { SetBitBits(v[c / 8], c % 8, i); }
    }
    v[c / 8 := SetBit(v[c / 8], c % 8)]
  }

  lemma ZeroBits()
    ensures forall i: nat :: Bit(0, i) == 0
  {
    forall i: nat ensures Bit(0, i) == 0 { ZeroBit(i); }
  }

  /** The logic files of a session, how many samples they hold, and which. */
  method Export(snaps: seq<Snapshot>, channels: seq<Channel>, rateHz: nat)
    returns (r: Result<seq<seq<Byte>>>, nsamples: nat, ghost samples: seq<seq<Byte>>)
    requires AllReadable(channels, snaps)
    ensures r.Err? <==> |snaps| < 2 || |channels| > MAX_CHANNELS || channels == []
    ensures r.Ok? ==>
      var tl := TimelineOf(snaps, if rateHz == 0 then 50_000_000 else rateHz);
      && nsamples == |samples| && Exported(samples, tl, snaps, channels)
      && Flatten(r.value) == Flatten(samples) && r.value != [] && FullButLast(r.value)
      && EndsWith(r.value, tl, nsamples)
  {
    nsamples, samples := 0, [];
    if |snaps| < 2 { return Err(TooFewSamples), 0, samples; }
    if |channels| > MAX_CHANNELS { return Err(TooManyChannels), 0, samples; }
    if channels == [] { return Err(NoSignals), 0, samples; }
    var rate: nat := if rateHz == 0 then 50_000_000 else rateHz;
    var tl := TimelineOf(snaps, rate);
    var files, chunk: seq<Byte> := [], [];
    var k := 0;
    var v, vk := seq(UnitOf(|channels|), _ => 0), -1;
    var cut := false;
    while true
      invariant nsamples == |samples| && Exported(samples, tl, snaps, channels)
      invariant k == Cursor(tl, nsamples)
      invariant Cached(v, vk, k, channels, snaps)
      invariant Filling(files, chunk, samples, UnitOf(|channels|))
      decreases tl.Left(nsamples)
    {
      k := NextCycle(tl, k, nsamples);
      if k == |snaps| { break; }
      var smp;
      v, vk, smp := TakeSample(tl, snaps, channels, nsamples, k, v, vk);
      files, chunk, cut := Append(files, chunk, smp, UnitOf(|channels|), samples);
      if cut { break; }
      ExportedPlusOne(samples, smp, tl, snaps, channels);
      samples := samples + [smp];
      nsamples := nsamples + 1;
    }
    files := Finish(files, chunk, UnitOf(|channels|));
    r := Ok(files);
  }

  // The chunks so far hold the samples so far, and the session has room for more.
  ghost predicate Filling(files: seq<seq<Byte>>, chunk: seq<Byte>, samples: seq<seq<Byte>>, unit: nat) {
    && unit > 0 && Chunked(files, chunk, unit) && |files| < MAX_LOGIC_FILES
    && Flatten(files) + chunk == Flatten(samples)
  }

  lemma ExportedPlusOne(samples: seq<seq<Byte>>, smp: seq<Byte>, tl: Timeline, snaps: seq<Snapshot>, channels: seq<Channel>)
    requires |tl.ends| == |snaps| && AllReadable(channels, snaps)
    requires Exported(samples, tl, snaps, channels) && ShowsCycle(smp, tl, snaps, channels, |samples|)
    ensures Exported(samples + [smp], tl, snaps, channels)
  {
    var all := samples + [smp];
    forall j | 0 <= j < |all| ensures ShowsCycle(all[j], tl, snaps, channels, j) {
      assert j < |samples| ==> all[j] == samples[j];
    }
  }

  /** Whether the session is cut can be told beforehand: it is if and only if the sample
      after the last one that fits still shows a cycle. */
  lemma CutIff(files: seq<seq<Byte>>, samples: seq<seq<Byte>>, tl: Timeline, snaps: seq<Snapshot>, channels: seq<Channel>)
    requires |tl.ends| == |snaps| && AllReadable(channels, snaps) && Exported(samples, tl, snaps, channels)
    requires Flatten(files) == Flatten(samples) && files != [] && FullButLast(files) && EndsWith(files, tl, |samples|)
    ensures var room := SessionRoom(|channels|);
      && (tl.CycleOf(|samples|) < |snaps| <==> tl.CycleOf(room) < |snaps|)
      && (tl.CycleOf(|samples|) < |snaps| ==> |samples| == room)
      && (tl.CycleOf(|samples|) == |snaps| ==> |samples| <= room)
  {
    var unit := UnitOf(|channels|);
    forall j | 0 <= j < |samples| ensures |samples[j]| == unit {
      assert ShowsCycle(samples[j], tl, snaps, channels, j);
    }
    FlattenLength(samples, unit);
    FilesLength(files);
    Quotients(|samples|, unit);
    if |samples| <= SessionRoom(|channels|) { tl.CycleOfGrows(|samples|, SessionRoom(|channels|)); }
  }

  lemma Quotients(n: nat, unit: nat)
    requires unit == 1 || unit == 2 || unit == 4 || unit == 8
    requires n * unit <= MAX_LOGIC_FILES * CHUNK
    ensures n <= MAX_LOGIC_FILES * CHUNK / unit
    ensures n * unit == MAX_LOGIC_FILES * CHUNK ==> n == MAX_LOGIC_FILES * CHUNK / unit
  {}

  lemma FilesLength(files: seq<seq<Byte>>)
    requires files != [] && FullButLast(files) && |files| <= MAX_LOGIC_FILES
    ensures |Flatten(files)| <= MAX_LOGIC_FILES * CHUNK
    ensures |files| == MAX_LOGIC_FILES && |files[|files| - 1]| == CHUNK ==> |Flatten(files)| == MAX_LOGIC_FILES * CHUNK
  {
    FlattenLength(files[..|files| - 1], CHUNK);
    assert |Flatten(files)| == (|files| - 1) * CHUNK + |files[|files| - 1]|;
  }

  // Where the search for the cycle of sample j starts.
  function Cursor(tl: Timeline, j: nat): (k: nat)
    ensures k <= |tl.ends|
  {
    if j == 0 then 0 else tl.CycleOf(j - 1)
  }

  ghost predicate Cached(v: seq<Byte>, vk: int, k: nat, channels: seq<Channel>, snaps: seq<Snapshot>)
    requires AllReadable(channels, snaps)
  {
    |v| == UnitOf(|channels|) && vk <= k && (vk == k && k < |snaps| ==> ShowsValues(v, channels, snaps[k]))
  }

  predicate Chunked(files: seq<seq<Byte>>, chunk: seq<Byte>, unit: nat)
    requires unit > 0
  {
    (forall i :: 0 <= i < |files| ==> |files[i]| == CHUNK) && |chunk| <= CHUNK && |chunk| % unit == 0
  }

  lemma FullChunk(used: nat, unit: nat)
    requires unit == 1 || unit == 2 || unit == 4 || unit == 8
    requires used <= CHUNK && used % unit == 0
    ensures used + unit > CHUNK ==> used == CHUNK
    ensures (used + unit) % unit == 0
  {}

  // A full chunk becomes a logic file first. The session is cut at the last one.
  method Append(files: seq<seq<Byte>>, chunk: seq<Byte>, smp: seq<Byte>, unit: nat, ghost samples: seq<seq<Byte>>)
    returns (files': seq<seq<Byte>>, chunk': seq<Byte>, cut: bool)
    requires unit == 1 || unit == 2 || unit == 4 || unit == 8
    requires Filling(files, chunk, samples, unit) && |smp| == unit
    ensures if cut then Chunked(files', chunk', unit) && |files'| == MAX_LOGIC_FILES && chunk' == [] && Flatten(files') == Flatten(samples)
            else Filling(files', chunk', samples + [smp], unit)
  {
    FullChunk(|chunk|, unit);
    FlattenPlusOne(samples, smp);
    files', chunk', cut := files, chunk, false;
    if |chunk| + unit > CHUNK {
      FlattenPlusOne(files, chunk);
      files', chunk' := files + [chunk], [];
      if |files'| == MAX_LOGIC_FILES { cut := true; return; }
    }
    assert Flatten(files') + (chunk' + smp) == Flatten(files') + chunk' + smp;
    chunk' := chunk' + smp;
  }

  // What is left becomes the last logic file. There is always one.
  method Finish(files: seq<seq<Byte>>, chunk: seq<Byte>, unit: nat) returns (all: seq<seq<Byte>>)
    requires unit > 0 && Chunked(files, chunk, unit)
    ensures Flatten(all) == Flatten(files) + chunk && FullButLast(all)
    ensures all == if chunk != [] || files == [] then files + [chunk] else files
  {
    all := files;
    if chunk != [] || files == [] {
      FlattenPlusOne(files, chunk);
      all := files + [chunk];
    } else {
      assert Flatten(files) + chunk == Flatten(files);
    }
  }

  // The search goes on from the cycle of the sample before.
  method NextCycle(tl: Timeline, k0: nat, n: nat) returns (k: nat)
    requires k0 == Cursor(tl, n)
    ensures k == tl.CycleOf(n)
    ensures k < |tl.ends| ==> tl.Left(n + 1) < tl.Left(n) && tl.Left(n) > 0
  {
    k := SeekCycle(tl, k0, tl.At(n));
    tl.SeekBounds(k0, tl.At(n));
    if k < |tl.ends| { HighestIs(tl.ends, k); }
  }

  method SeekCycle(tl: Timeline, k0: nat, t: int) returns (k: nat)
    requires k0 <= |tl.ends|
    ensures k == tl.Seek(k0, t)
  {
    k := k0;
    while k < |tl.ends| && tl.ends[k] <= t
      invariant k0 <= k <= |tl.ends| && tl.Seek(k, t) == tl.Seek(k0, t)
    {
      k := k + 1;
    }
  }

  method TakeSample(tl: Timeline, snaps: seq<Snapshot>, channels: seq<Channel>, j: nat, k: nat, v: seq<Byte>, vk: int)
    returns (v': seq<Byte>, vk': int, smp: seq<Byte>)
    requires |tl.ends| == |snaps| && AllReadable(channels, snaps) && |channels| <= MAX_CHANNELS
    requires k == tl.CycleOf(j) < |snaps| && |v| == UnitOf(|channels|)
    requires vk == k ==> ShowsValues(v, channels, snaps[k])
    ensures Cached(v', vk', k, channels, snaps) && ShowsCycle(smp, tl, snaps, channels, j)
  {
    v', vk' := v, vk;
    if vk' != k {
      v' := PackValues(channels, snaps[k], UnitOf(|channels|));
      vk' := k;
    }
    smp := AddClocks(v', channels, snaps[k], tl.ends[k] - tl.At(j) > tl.low);
  }
}
