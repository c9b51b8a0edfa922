/**
 Qualification of a PROM capture: the samples are cut into the longest runs of
 constant address and chip enables, and each run whose outputs have settled
 gives one measured cell.
 */
module Qualification {
  import opened Bits
  import opened Bytes
  import opened CycleDecode

  // ----- Masks -----

  function MaskOf(ch: seq<int>): nat {
    if ch == [] then 0 else
    var m := MaskOf(ch[..|ch| - 1]);
    if ch[|ch| - 1] >= 0 then SetBit(m, ch[|ch| - 1]) else m
  }

  lemma {:induction false} MaskBits(ch: seq<int>, c: nat)
    ensures Bit(MaskOf(ch), c) == if c in ch then 1 else 0
  {
    if ch == [] {
      ZeroBit(c);
    } else {
      var n := |ch| - 1;
      MaskBits(ch[..n], c);
      assert ch == ch[..n] + [ch[n]];
      if ch[n] >= 0 { SetBitBits(MaskOf(ch[..n]), ch[n], c); }
    }
  }

  lemma {:induction false} AndBits(x: nat, m: nat, c: nat)
    ensures Bit(And(x, m), c) == if Bit(m, c) == 1 then Bit(x, c) else 0
  {
    if x == 0 || m == 0 {
      ZeroBit(c);
    } else {
      assert x % 2 == 0 || x % 2 == 1;
      assert m % 2 == 0 || m % 2 == 1;
      if c > 0 { AndBits(x / 2, m / 2, c - 1); }
    }
  }

  lemma {:induction false} SameBits(x: nat, y: nat)
    requires forall c: nat :: Bit(x, c) == Bit(y, c)
    ensures x == y
  {
    if x != 0 || y != 0 {
      assert Bit(x, 0) == Bit(y, 0);
      forall c: nat ensures Bit(x / 2, c) == Bit(y / 2, c) {
        assert Bit(x, c + 1) == Bit(y, c + 1);
      }
      SameBits(x / 2, y / 2);
    }
  }

  /** Equal masked words are words that agree on every masked channel. */
  lemma {:induction false} MaskedEqual(x: nat, y: nat, ch: seq<int>)
    ensures And(x, MaskOf(ch)) == And(y, MaskOf(ch)) <==>
      forall c: nat :: c in ch ==> Bit(x, c) == Bit(y, c)
  {
    var m := MaskOf(ch);
    forall c: nat
      ensures Bit(And(x, m), c) == if c in ch then Bit(x, c) else 0
      ensures Bit(And(y, m), c) == if c in ch then Bit(y, c) else 0
    {
      MaskBits(ch, c);
      AndBits(x, m, c);
      AndBits(y, m, c);
    }
    if forall c: nat :: c in ch ==> Bit(x, c) == Bit(y, c) {
      SameBits(And(x, m), And(y, m));
    }
  }

  // ----- Runs -----

  // A run of one key, as long as it can be, that touches neither end of the capture.
  predicate InteriorRun(keys: seq<nat>, s: nat, e: nat) {
    && 0 < s < e < |keys|
    && keys[s - 1] != keys[s] && keys[e - 1] != keys[e]
    && forall i :: s <= i < e ==> keys[i] == keys[s]
  }

  // Where runs start among the first n samples.
  function Starts(keys: seq<nat>, n: nat): (ss: seq<nat>)
    requires n <= |keys|
    ensures forall i :: 0 <= i < |ss| ==> ss[i] < n
    ensures n > 0 ==> ss != [] && ss[0] == 0
  {
    if n == 0 then [] else
    Starts(keys, n - 1) + if n == 1 || keys[n - 1] != keys[n - 2] then [n - 1] else []
  }

  predicate Ascending(ss: seq<nat>) {
    forall i :: 0 <= i < |ss| - 1 ==> ss[i] < ss[i + 1]
  }

  lemma {:induction false} StartsFacts(keys: seq<nat>, n: nat)
    requires 0 < n <= |keys|
    ensures var ss := Starts(keys, n);
      && Ascending(ss)
      && (forall i :: 0 < i < |ss| ==> ss[i] > 0 && keys[ss[i]] != keys[ss[i] - 1])
      && (forall i, j :: 0 <= i < |ss| - 1 && ss[i] <= j < ss[i + 1] ==> keys[j] == keys[ss[i]])
      && (forall j :: ss[|ss| - 1] <= j < n ==> keys[j] == keys[ss[|ss| - 1]])
  {
    if n > 1 { StartsFacts(keys, n - 1); }
  }

  /** The interior runs are exactly what lies between neighbouring starts, after
      the first. */
  lemma {:induction false} RunsBetweenStarts(keys: seq<nat>, i: nat)
    requires |keys| > 0 && 1 <= i && i + 1 < |Starts(keys, |keys|)|
    ensures InteriorRun(keys, Starts(keys, |keys|)[i], Starts(keys, |keys|)[i + 1])
  {
    StartsFacts(keys, |keys|);
    var ss := Starts(keys, |keys|);
    assert ss[0] < ss[1];
    StartsOrdered(keys, 1, i);
  }

  lemma {:induction false} StartsOrdered(keys: seq<nat>, i: nat, j: nat)
    requires |keys| > 0 && i <= j < |Starts(keys, |keys|)|
    ensures Starts(keys, |keys|)[i] <= Starts(keys, |keys|)[j]
  {
    StartsFacts(keys, |keys|);
    if i < j { StartsOrdered(keys, i, j - 1); }
  }

  lemma {:induction false} StartFound(keys: seq<nat>, n: nat, s: nat) returns (i: nat)
    requires s < n <= |keys| && (s == 0 || keys[s - 1] != keys[s])
    ensures i < |Starts(keys, n)| && Starts(keys, n)[i] == s
  {
    if s == n - 1 {
      i := |Starts(keys, n)| - 1;
    } else {
      i := StartFound(keys, n - 1, s);
    }
  }

  lemma {:induction false} StartIsNoRepeat(keys: seq<nat>, s: nat, e: nat, i: nat)
    requires InteriorRun(keys, s, e)
    ensures 0 < i < |Starts(keys, |keys|)| ==> !(s < Starts(keys, |keys|)[i] < e)
  {
    StartsFacts(keys, |keys|);
  }

  /** And every interior run is there. */
  lemma EveryRunFound(keys: seq<nat>, s: nat, e: nat) returns (i: nat)
    requires InteriorRun(keys, s, e)
    ensures 1 <= i && i + 1 < |Starts(keys, |keys|)|
    ensures Starts(keys, |keys|)[i] == s && Starts(keys, |keys|)[i + 1] == e
  {
    var ss := Starts(keys, |keys|);
    i := StartFound(keys, |keys|, s);
    var j := StartFound(keys, |keys|, e);
    StartsFacts(keys, |keys|);
    if j <= i { StartsOrdered(keys, j, i); }
    StartIsNoRepeat(keys, s, e, i + 1);
    if i + 1 < j {
      StartsOrdered(keys, i + 1, j);
      StartsOrdered(keys, i + 2, j);
      assert false;
    }
  }

  // ----- Verdicts -----

  datatype Verdict = Disabled | Short | Unstable | Stable(address: nat, data: nat)

  datatype Layout = Layout(addr: seq<int>, outs: seq<int>, ce: seq<int>, hz: nat)
  {
    function KeyMask(): nat { MaskOf(addr + ce) }

    function OutMask(): nat { MaskOf(outs) }

    // Samples in so many nanoseconds, rounded up.
    function Samples(ns: nat): nat { (ns * hz + 999_999_999) / 1_000_000_000 }

    function Pre(): nat { Samples(80) }

    function Post(): nat { Samples(20) }

    function Minimum(): nat {
      if Samples(160) < Pre() + Post() + 1 then Pre() + Post() + 1 else Samples(160)
    }

    function KeysOf(words: seq<nat>): (keys: seq<nat>)
      ensures |keys| == |words|
    {
      seq(|words|, i requires 0 <= i < |words| => And(words[i], KeyMask()))
    }

    // The outputs do not move from `Pre` after the start to `Post` before the end.
    predicate Settled(words: seq<nat>, s: nat, e: nat)
      requires s + Minimum() <= e <= |words|
    {
      forall j :: s + Pre() <= j < e - Post() ==> And(words[j], OutMask()) == And(words[s + Pre()], OutMask())
    }

    function Judge(words: seq<nat>, s: nat, e: nat): Verdict
      requires s < e <= |words|
    {
      var k := And(words[s], KeyMask());
      if FromLevels(Levels(k, ce)) != 0 then Disabled
      else if e - s < Minimum() then Short
      else if !Settled(words, s, e) then Unstable
      else Stable(FromLevels(Levels(k, addr)), FromLevels(Levels(And(words[s + Pre()], OutMask()), outs)))
    }
  }

  // The verdicts on the interior runs that start in the first n samples and end
  // by the last start of these.
  function Verdicts(l: Layout, words: seq<nat>, ss: seq<nat>): seq<Verdict>
    requires forall i :: 0 <= i < |ss| ==> ss[i] < |words|
    requires Ascending(ss)
  {
    if |ss| <= 2 then [] else
    var n := |ss| - 1;
    Verdicts(l, words, ss[..n]) + [l.Judge(words, ss[n - 1], ss[n])]
  }

  datatype CellRun = CellRun(address: nat, data: nat)

  function StableRuns(vs: seq<Verdict>): seq<CellRun> {
    if vs == [] then [] else
    var v := vs[|vs| - 1];
    StableRuns(vs[..|vs| - 1]) + if v.Stable? then [CellRun(v.address, v.data)] else []
  }

  type Cells = map<nat, map<nat, nat>>

  function CellCount(cells: Cells, r: CellRun): nat {
    if r.address in cells && r.data in cells[r.address] then cells[r.address][r.data] else 0
  }

  // The count of each cell is the number of its runs.
  ghost predicate CellsMatch(cells: Cells, runs: seq<CellRun>) {
    forall c {:trigger CellCount(cells, c)} :: CellCount(cells, c) == multiset(runs)[c]
  }

  datatype Report = Report(
    cells: Cells, runs: seq<CellRun>,
    stable: nat, disabled: nat, short: nat, unstable: nat)
  {
    // The report counts these verdicts, each once.
    ghost predicate Counts(vs: seq<Verdict>) {
      Tallies(vs) && CellsMatch(cells, runs)
    }

    ghost predicate Tallies(vs: seq<Verdict>) {
      && stable + disabled + short + unstable == |vs|
      && runs == StableRuns(vs) && stable == |runs|
      && disabled == Tally(vs, Disabled) && short == Tally(vs, Short) && unstable == Tally(vs, Unstable)
    }
  }

  method NothingCounted() returns (r: Report)
    ensures r.Counts([])
  {
    r := Report(map[], [], 0, 0, 0, 0);
  }

  function Tally(vs: seq<Verdict>, v: Verdict): nat {
    if vs == [] then 0 else
    Tally(vs[..|vs| - 1], v) + if vs[|vs| - 1] == v then 1 else 0
  }

  method IsSettled(l: Layout, words: seq<nat>, s: nat, e: nat) returns (stable: bool)
    requires s + l.Minimum() <= e <= |words|
    ensures stable == l.Settled(words, s, e)
  {
    var d := And(words[s + l.Pre()], l.OutMask());
    stable := true;
    for j := s + l.Pre() + 1 to e - l.Post()
      invariant stable
      invariant forall i :: s + l.Pre() <= i < j ==> And(words[i], l.OutMask()) == d
    {
      if And(words[j], l.OutMask()) != d { return false; }
    }
  }

  method Record(r: Report, run: CellRun) returns (r': Report)
    requires CellsMatch(r.cells, r.runs)
    ensures r' == r.(cells := r'.cells, runs := r.runs + [run], stable := r.stable + 1)
    ensures CellsMatch(r'.cells, r'.runs)
  {
    var a, v := run.address, run.data;
    var row := if a in r.cells then r.cells[a] else map[];
    var n := if v in row then row[v] else 0;
    r' := r.(cells := r.cells[a := row[v := n + 1]], runs := r.runs + [run], stable := r.stable + 1);
    forall c ensures CellCount(r'.cells, c) == multiset(r'.runs)[c] {
      assert CellCount(r.cells, c) == multiset(r.runs)[c];
      if c.address == a && c.data == v { assert c == run; }
    }
  }

  lemma {:induction false} TallyStep(vs: seq<Verdict>, v: Verdict, u: Verdict)
    ensures Tally(vs + [v], u) == Tally(vs, u) + if v == u then 1 else 0
  {
    assert (vs + [v])[..|vs|] == vs;
  }

  lemma {:induction false} RunsStep(vs: seq<Verdict>, v: Verdict)
    ensures StableRuns(vs + [v]) == StableRuns(vs) + if v.Stable? then [CellRun(v.address, v.data)] else []
  {
    assert (vs + [v])[..|vs|] == vs;
  }

  // Counts a verdict.
  method Add(r: Report, v: Verdict, ghost vs: seq<Verdict>) returns (r': Report)
    requires r.Counts(vs)
    ensures r'.Counts(vs + [v])
  {
    match v
    case Disabled => r' := r.(disabled := r.disabled + 1); OneMoreCounted(r, r', v, vs);
    case Short => r' := r.(short := r.short + 1); OneMoreCounted(r, r', v, vs);
    case Unstable => r' := r.(unstable := r.unstable + 1); OneMoreCounted(r, r', v, vs);
    case Stable(a, d) => r' := Record(r, CellRun(a, d)); OneMoreCounted(r, r', v, vs);
  }

  lemma {:induction false} OneMoreCounted(r: Report, r': Report, v: Verdict, vs: seq<Verdict>)
    requires r.Tallies(vs)
    requires r'.runs == r.runs + if v.Stable? then [CellRun(v.address, v.data)] else []
    requires r'.stable == r.stable + if v.Stable? then 1 else 0
    requires r'.disabled == r.disabled + if v == Disabled then 1 else 0
    requires r'.short == r.short + if v == Short then 1 else 0
    requires r'.unstable == r.unstable + if v == Unstable then 1 else 0
    ensures r'.Tallies(vs + [v])
  {
    RunsStep(vs, v);
    TallyStep(vs, v, Disabled);
    TallyStep(vs, v, Short);
    TallyStep(vs, v, Unstable);
    AllTallied(r, r', v, vs, vs + [v]);
  }

  lemma {:induction false} AllTallied(r: Report, r': Report, v: Verdict, vs: seq<Verdict>, ws: seq<Verdict>)
    requires r.Tallies(vs) && |ws| == |vs| + 1
    requires r'.runs == StableRuns(ws) && |r'.runs| == |r.runs| + if v.Stable? then 1 else 0
    requires r'.stable == r.stable + if v.Stable? then 1 else 0
    requires r'.disabled == Tally(ws, Disabled) == r.disabled + if v == Disabled then 1 else 0
    requires r'.short == Tally(ws, Short) == r.short + if v == Short then 1 else 0
    requires r'.unstable == Tally(ws, Unstable) == r.unstable + if v == Unstable then 1 else 0
    ensures r'.Tallies(ws)
  {}

  // Adds the verdict on one interior run.
  method Close(l: Layout, words: seq<nat>, s: nat, e: nat, r: Report, ghost vs: seq<Verdict>) returns (r': Report)
    requires s < e <= |words| && r.Counts(vs)
    ensures r'.Counts(vs + [l.Judge(words, s, e)])
  {
    var k := And(words[s], l.KeyMask());
    var v := Disabled;
    var enabled := BitsOf(k, l.ce);
    if enabled == 0 {
      if e - s < l.Minimum() {
        v := Short;
      } else {
        var stable := IsSettled(l, words, s, e);
        if !stable {
          v := Unstable;
        } else {
          var a := BitsOf(k, l.addr);
          var d := BitsOf(And(words[s + l.Pre()], l.OutMask()), l.outs);
          v := Stable(a, d);
        }
      }
    }
    r' := Add(r, v, vs);
  }

  // One more sample either goes on with the last run or starts another.
  lemma StartsStep(l: Layout, words: seq<nat>, n: nat)
    requires 0 < n < |words|
    ensures var keys := l.KeysOf(words);
      var ss, ss' := Starts(keys, n), Starts(keys, n + 1);
      var last := ss[|ss| - 1];
      && Ascending(ss) && Ascending(ss') && keys[last] == keys[n - 1]
      && (last == 0 <==> |ss| == 1)
      && (keys[n] == keys[n - 1] ==> ss' == ss)
      && (keys[n] != keys[n - 1] ==> ss' == ss + [n])
      && (keys[n] != keys[n - 1] ==>
           Verdicts(l, words, ss') == Verdicts(l, words, ss) + if |ss| == 1 then [] else [l.Judge(words, last, n)])
  {
    var keys := l.KeysOf(words);
    StartsFacts(keys, n);
    StartsFacts(keys, n + 1);
    var ss := Starts(keys, n);
    assert (ss + [n])[..|ss|] == ss;
  }

  // The first `end` samples are read, and the run from `start` is still open.
  ghost predicate Progress(l: Layout, words: seq<nat>, end: nat, start: nat, k: nat, r: Report)
    requires 1 <= end <= |words|
  {
    var keys := l.KeysOf(words);
    var ss := Starts(keys, end);
    Ascending(ss) && start == ss[|ss| - 1] && k == keys[end - 1] && r.Counts(Verdicts(l, words, ss))
  }

  lemma StartProgress(l: Layout, words: seq<nat>, r: Report)
    requires words != [] && r.Counts([])
    ensures Progress(l, words, 1, 0, And(words[0], l.KeyMask()), r)
  {
    assert Starts(l.KeysOf(words), 1) == [0];
  }

  /** One sample: the open run goes on, or is judged and another one opened. */
  method ReadSample(l: Layout, words: seq<nat>, end: nat, start: nat, k: nat, r: Report)
    returns (start': nat, k': nat, r': Report)
    requires 1 <= end < |words| && Progress(l, words, end, start, k, r)
    ensures Progress(l, words, end + 1, start', k', r')
  {
    StartsStep(l, words, end);
    start', k', r' := start, k, r;
    var next := And(words[end], l.KeyMask());
    if next != k {
      if start != 0 {
        r' := Close(l, words, start, end, r, Verdicts(l, words, Starts(l.KeysOf(words), end)));
      }
      start', k' := end, next;
    }
  }

  /** Every interior run of the capture is judged once, and counted once. The run
      that touches the end is not judged. */
  method Qualify(l: Layout, words: seq<nat>) returns (r: Report)
    requires words != []
    ensures Ascending(Starts(l.KeysOf(words), |words|))
    ensures r.Counts(Verdicts(l, words, Starts(l.KeysOf(words), |words|)))
  {
    r := NothingCounted();
    var start: nat, k: nat, end: nat := 0, And(words[0], l.KeyMask()), 1;
    StartProgress(l, words, r);
    while end < |words|
      invariant 1 <= end <= |words| && Progress(l, words, end, start, k, r)
    {
      start, k, r := ReadSample(l, words, end, start, k, r);
      end := end + 1;
    }
  }

  /** Stable, disabled, short and unstable runs add up to the interior runs, and
      the cells to the stable ones. */
  lemma {:induction false} VerdictCount(l: Layout, words: seq<nat>, ss: seq<nat>)
    requires forall i :: 0 <= i < |ss| ==> ss[i] < |words|
    requires Ascending(ss)
    ensures |Verdicts(l, words, ss)| == if |ss| <= 2 then 0 else |ss| - 2
    ensures forall i :: 0 <= i < |ss| - 2 ==> Verdicts(l, words, ss)[i] == l.Judge(words, ss[i + 1], ss[i + 2])
  {
    if |ss| > 2 { VerdictCount(l, words, ss[..|ss| - 1]); }
  }
}
