/**
 Decoding of a sampled session into clock-edge events, as the comparison tool
 does it: one event for every rising edge of the clock channel, carrying the
 channel bits of the sample before the edge.
 */
module CycleDecode {
  import opened Bits
  import opened Bytes

  datatype Kind = Mpc | Datapath | E107

  datatype Event = Event(key: nat, data: nat, sample: nat)

  datatype Session = Session(raw: seq<Byte>, unit: nat)
  {
    predicate Valid() {
      unit >= 1 && |raw| >= unit
    }

    function Count(): nat
      requires Valid()
    {
      |raw| / unit
    }

    function Word(i: nat): nat
      requires Valid() && i < Count()
    {
      WordInBounds(i);
      LeWord(raw[i * unit..i * unit + unit])
    }

    lemma WordInBounds(i: nat)
      requires Valid() && i < Count()
      ensures 0 <= i * unit <= i * unit + unit <= |raw|
    {
      MulMonotone(i + 1, Count(), unit);
      assert (i + 1) * unit == i * unit + unit;
      QuotientFits(|raw|, unit);
    }

    function Words(): (ws: seq<nat>)
      requires Valid()
      ensures |ws| == Count() && forall i :: 0 <= i < |ws| ==> ws[i] == Word(i)
    {
      seq(Count(), i requires 0 <= i < Count() => Word(i))
    }
  }

  lemma QuotientFits(n: nat, d: nat)
    requires d >= 1
    ensures n / d * d <= n
  {}

  // Bit b of the result is channel ch[b]. A missing channel reads 0, and only
  // 16 bits are kept.
  function FromLevels(levels: seq<bool>): nat {
    if levels == [] then 0 else
    var n := |levels| - 1;
    FromLevels(levels[..n]) + if levels[n] && n < 16 then Pow2(n) else 0
  }

  lemma {:induction false} FromLevelsBelow(levels: seq<bool>)
    ensures FromLevels(levels) < Pow2(if |levels| < 16 then |levels| else 16)
  {
    if levels != [] { FromLevelsBelow(levels[..|levels| - 1]); }
  }

  // Bit b of a word built from these levels.
  function LevelAt(levels: seq<bool>, b: nat): nat {
    if b < |levels| && b < 16 && levels[b] then 1 else 0
  }

  lemma {:induction false} LevelBit(levels: seq<bool>, b: nat)
    ensures Bit(FromLevels(levels), b) == LevelAt(levels, b)
  {
    if levels == [] {
      ZeroBit(b);
    } else {
      var n := |levels| - 1;
      LevelBit(levels[..n], b);
      if levels[n] && n < 16 {
        FromLevelsBelow(levels[..n]);
        BitAbove(FromLevels(levels[..n]), 1, n, b);
        if b > n { ZeroBit(b - n - 1); }
      }
    }
  }

  function Levels(w: nat, ch: seq<int>): seq<bool> {
    seq(|ch|, b requires 0 <= b < |ch| => ch[b] >= 0 && Bit(w, ch[b]) != 0)
  }

  method BitsOf(w: nat, ch: seq<int>) returns (v: nat)
    ensures v == FromLevels(Levels(w, ch))
    ensures forall b: nat :: Bit(v, b) == if b < |ch| && b < 16 && ch[b] >= 0 && Bit(w, ch[b]) != 0 then 1 else 0
  {
    v := 0;
    for b := 0 to |ch|
      invariant v == FromLevels(Levels(w, ch)[..b])
    {
      assert Levels(w, ch)[..b + 1][..b] == Levels(w, ch)[..b];
      if ch[b] >= 0 && Bit(w, ch[b]) != 0 && b < 16 {
        v := v + Pow2(b);
      }
    }
    assert Levels(w, ch)[..|ch|] == Levels(w, ch);
    forall b: nat { LevelBit(Levels(w, ch), b); }
  }

  predicate Rising(words: seq<nat>, clk: nat, k: nat)
    requires 1 <= k < |words|
  {
    Bit(words[k - 1], clk) == 0 && Bit(words[k], clk) != 0
  }

  /** The samples below `end` at which the clock has risen. */
  function Edges(words: seq<nat>, clk: nat, end: int): (es: seq<nat>)
    requires end <= |words|
    ensures forall i :: 0 <= i < |es| ==> 1 <= es[i] < end && Rising(words, clk, es[i])
  {
    if end <= 1 then [] else
    Edges(words, clk, end - 1) + if Rising(words, clk, end - 1) then [end - 1] else []
  }

  // The MPC lines, and what an MPC event adds to the E38 outputs seen later.
  function MpcKey(v: nat): nat { v % 512 }

  function MpcData(e38: nat, v: nat): nat { e38 + v / 4096 * 8 }

  // The sign of S alone.
  function E107Key(v: nat): nat { v / 64 % 2 * 64 }

  // ----- Their bits -----

  lemma {:induction false} LowField(low: nat, n: nat, b: nat)
    requires low < Pow2(n)
    ensures b >= n ==> Bit(low, b) == 0
  {
    if b >= n {
      BitAbove(low, 0, n, b);
      ZeroBit(b - n);
    }
  }

  lemma SmallPowers()
    ensures Pow2(3) == 8 && Pow2(6) == 64 && Pow2(9) == 512 && Pow2(12) == 4096
  {
    assert Pow2(4) == 16 && Pow2(8) == 16 * Pow2(4);
  }

  lemma {:induction false} MpcKeyBit(v: nat, b: nat)
    ensures Bit(MpcKey(v), b) == if b < 9 then Bit(v, b) else 0
  {
    SmallPowers();
    BitAbove(v % 512, v / 512, 9, b);
    LowField(v % 512, 9, b);
  }

  lemma {:induction false} MpcDataBit(e38: nat, v: nat, b: nat)
    requires e38 < 8
    ensures Bit(MpcData(e38, v), b) == if b < 3 then Bit(e38, b) else Bit(v, b + 9)
  {
    SmallPowers();
    BitAbove(e38, v / 4096, 3, b);
    BitAbove(v % 4096, v / 4096, 12, b + 9);
  }

  lemma {:induction false} E107KeyBit(v: nat, b: nat)
    ensures Bit(E107Key(v), b) == if b == 6 then Bit(v, 6) else 0
  {
    SmallPowers();
    BitAbove(0, v / 64 % 2, 6, b);
    if b < 6 {
      ZeroBit(b);
    } else {
      BitAbove(v % 64, v / 64, 6, 6);
      if b > 6 { LowField(v / 64 % 2, 1, b - 6); }
    }
  }

  function EventAt(words: seq<nat>, ch: seq<int>, kind: Kind, k: nat): Event
    requires 1 <= k < |words| && (kind.Mpc? ==> k + 2 < |words| && |ch| >= 12)
  {
    var v := FromLevels(Levels(words[k - 1], ch));
    match kind
    case Mpc => Event(MpcKey(v), MpcData(FromLevels(Levels(words[k + 2], ch[9..12])), v), k)
    case Datapath => Event(v, 0, k)
    case E107 => Event(E107Key(v), v, k)
  }

  function EdgeEnd(count: nat, kind: Kind): int {
    if kind.Mpc? then count - 2 else count
  }

  /** The events of a capture: one for each rising edge, in order. */
  function Events(words: seq<nat>, clk: nat, ch: seq<int>, kind: Kind): seq<Event>
    requires kind.Mpc? ==> |ch| >= 12
  {
    var es := Edges(words, clk, EdgeEnd(|words|, kind));
    seq(|es|, i requires 0 <= i < |es| => EventAt(words, ch, kind, es[i]))
  }

  lemma {:induction false} EventsAre(words: seq<nat>, clk: nat, ch: seq<int>, kind: Kind, es: seq<nat>)
    requires (kind.Mpc? ==> |ch| >= 12) && es == Edges(words, clk, EdgeEnd(|words|, kind))
    ensures var out := Events(words, clk, ch, kind);
      |out| == |es| && forall i :: 0 <= i < |out| ==> out[i] == EventAt(words, ch, kind, es[i])
  {}

  // ----- What an event reads -----

  // Channel b of a word, 0 if it is missing or not one of the first sixteen.
  function ReadBit(w: nat, ch: seq<int>, b: nat): nat {
    if b < |ch| && b < 16 && ch[b] >= 0 && Bit(w, ch[b]) != 0 then 1 else 0
  }

  lemma {:induction false} ReadsBit(w: nat, ch: seq<int>, b: nat)
    ensures Bit(FromLevels(Levels(w, ch)), b) == ReadBit(w, ch, b)
  {
    LevelBit(Levels(w, ch), b);
  }

  /** The bits of an event at sample k are channels of the word before it, and for MPC the
      three lowest of the data are those of the word two after it. */
  lemma {:induction false} EventBits(words: seq<nat>, ch: seq<int>, kind: Kind, k: nat, b: nat)
    requires 1 <= k < |words| && (kind.Mpc? ==> k + 2 < |words| && |ch| >= 12)
    ensures var e := EventAt(words, ch, kind, k);
      match kind
      case Datapath => Bit(e.key, b) == ReadBit(words[k - 1], ch, b) && e.data == 0
      case Mpc =>
        && Bit(e.key, b) == (if b < 9 then ReadBit(words[k - 1], ch, b) else 0)
        && Bit(e.data, b) == ReadBit(words[if b < 3 then k + 2 else k - 1], ch, b + 9)
      case E107 =>
        && Bit(e.key, b) == (if b == 6 then ReadBit(words[k - 1], ch, b) else 0)
        && Bit(e.data, b) == ReadBit(words[k - 1], ch, b)
  {
    var v := FromLevels(Levels(words[k - 1], ch));
    ReadsBit(words[k - 1], ch, b);
    match kind {
      case Datapath =>
      case Mpc => MpcEventBits(words, ch, k, b);
      case E107 => E107KeyBit(v, b);
    }
  }

  lemma {:induction false} MpcEventBits(words: seq<nat>, ch: seq<int>, k: nat, b: nat)
    requires 1 <= k && k + 2 < |words| && |ch| >= 12
    ensures var e := EventAt(words, ch, Mpc, k);
      && Bit(e.key, b) == (if b < 9 then ReadBit(words[k - 1], ch, b) else 0)
      && Bit(e.data, b) == ReadBit(words[if b < 3 then k + 2 else k - 1], ch, b + 9)
  {
    var (v, next) := (FromLevels(Levels(words[k - 1], ch)), Levels(words[k + 2], ch[9..12]));
    SmallPowers();
    FromLevelsBelow(next);
    ReadsBit(words[k - 1], ch, b);
    ReadsBit(words[k - 1], ch, b + 9);
    ReadsBit(words[k + 2], ch[9..12], b);
    MpcKeyBit(v, b);
    MpcDataBit(FromLevels(next), v, b);
  }

  lemma {:induction false} EdgesInOrder(words: seq<nat>, clk: nat, end: int, i: nat, j: nat)
    requires end <= |words| && i < j < |Edges(words, clk, end)|
    ensures Edges(words, clk, end)[i] < Edges(words, clk, end)[j]
  {
    if j < |Edges(words, clk, end - 1)| { EdgesInOrder(words, clk, end - 1, i, j); }
  }

  lemma {:induction false} EveryEdgeFound(words: seq<nat>, clk: nat, end: int, k: nat)
    requires end <= |words| && 1 <= k < end && Rising(words, clk, k)
    ensures k in Edges(words, clk, end)
  {
    if k < end - 1 { EveryEdgeFound(words, clk, end - 1, k); }
  }

  /** The events are at samples where the clock is low before and high then, in order;
      for MPC two more samples follow. */
  lemma {:induction false} EventsAtEdges(words: seq<nat>, clk: nat, ch: seq<int>, kind: Kind)
    requires kind.Mpc? ==> |ch| >= 12
    ensures var es := Events(words, clk, ch, kind);
      && (forall i :: 0 <= i < |es| ==>
            && 1 <= es[i].sample < (if kind.Mpc? then |words| - 2 else |words|)
            && Bit(words[es[i].sample - 1], clk) == 0 && Bit(words[es[i].sample], clk) != 0)
      && (forall i, j :: 0 <= i < j < |es| ==> es[i].sample < es[j].sample)
  {
    var (es, end) := (Events(words, clk, ch, kind), EdgeEnd(|words|, kind));
    EventsAre(words, clk, ch, kind, Edges(words, clk, end));
    forall i, j | 0 <= i < j < |es| ensures es[i].sample < es[j].sample { EdgesInOrder(words, clk, end, i, j); }
  }

  /** And there is one at each of them. */
  lemma {:induction false} EventAtEdge(words: seq<nat>, clk: nat, ch: seq<int>, kind: Kind, k: nat)
    requires (kind.Mpc? ==> |ch| >= 12) && 1 <= k < if kind.Mpc? then |words| - 2 else |words|
    requires Bit(words[k - 1], clk) == 0 && Bit(words[k], clk) != 0
    ensures exists i :: 0 <= i < |Events(words, clk, ch, kind)| && Events(words, clk, ch, kind)[i].sample == k
  {
    var es := Events(words, clk, ch, kind);
    var edges := Edges(words, clk, EdgeEnd(|words|, kind));
    EventsAre(words, clk, ch, kind, edges);
    EveryEdgeFound(words, clk, EdgeEnd(|words|, kind), k);
    var i :| 0 <= i < |edges| && edges[i] == k;
    assert es[i].sample == k;
  }

  // The events at the edges below `end`, collected one by one.
  ghost function Collected(words: seq<nat>, clk: nat, ch: seq<int>, kind: Kind, end: int): seq<Event>
    requires end <= EdgeEnd(|words|, kind) || end <= 1
    requires kind.Mpc? ==> |ch| >= 12
  {
    if end <= 1 then [] else
    Collected(words, clk, ch, kind, end - 1) +
      if Rising(words, clk, end - 1) then [EventAt(words, ch, kind, end - 1)] else []
  }

  lemma {:induction false} CollectedAre(words: seq<nat>, clk: nat, ch: seq<int>, kind: Kind, end: int)
    requires end <= EdgeEnd(|words|, kind) || 1 == end <= |words|
    requires kind.Mpc? ==> |ch| >= 12
    ensures var (out, es) := (Collected(words, clk, ch, kind, end), Edges(words, clk, end));
      |out| == |es| && forall i :: 0 <= i < |out| ==> out[i] == EventAt(words, ch, kind, es[i])
  {
    if end > 1 { CollectedAre(words, clk, ch, kind, end - 1); }
  }

  lemma {:induction false} AllCollected(words: seq<nat>, clk: nat, ch: seq<int>, kind: Kind, k: int)
    requires kind.Mpc? ==> |ch| >= 12
    requires words != [] && (k == EdgeEnd(|words|, kind) || (k == 1 && EdgeEnd(|words|, kind) <= 1))
    ensures Collected(words, clk, ch, kind, k) == Events(words, clk, ch, kind)
  {
    CollectedAre(words, clk, ch, kind, k);
  }

  datatype Result<+T> = Ok(value: T) | NoClockEdges

  // `later` is the sample two after the edge, where an MPC capture reads E38.
  method ReadEvent(ghost words: seq<nat>, prev: nat, later: nat, ch: seq<int>, kind: Kind, k: nat) returns (e: Event)
    requires 1 <= k < |words| && prev == words[k - 1]
    requires kind.Mpc? ==> k + 2 < |words| && |ch| >= 12 && later == words[k + 2]
    ensures e == EventAt(words, ch, kind, k)
  {
    var v := BitsOf(prev, ch);
    match kind {
      case Mpc =>
        var next := BitsOf(later, ch[9..12]);
        e := Event(MpcKey(v), MpcData(next, v), k);
      case Datapath => e := Event(v, 0, k);
      case E107 => e := Event(E107Key(v), v, k);
    }
  }

  method Decode(s: Session, clk: nat, ch: seq<int>, kind: Kind) returns (r: Result<seq<Event>>)
    requires s.Valid() && (kind.Mpc? ==> |ch| >= 12)
    ensures var es := Events(s.Words(), clk, ch, kind);
      r == if es == [] then NoClockEdges else Ok(es)
  {
    ghost var words := s.Words();
    s.WordInBounds(0);
    var end := EdgeEnd(s.Count(), kind);
    var out: seq<Event> := [];
    var prev := s.Word(0);
    var k := 1;
    while k < end
      invariant 1 <= k && (k <= end || k == 1)
      invariant k - 1 < |words| && prev == words[k - 1]
      invariant out == Collected(words, clk, ch, kind, k)
    {
      var w := s.Word(k);
      if Bit(prev, clk) == 0 && Bit(w, clk) != 0 {
        var e := ReadEvent(words, prev, if kind.Mpc? then s.Word(k + 2) else 0, ch, kind, k);
        out := out + [e];
      }
      prev := w;
      k := k + 1;
    }
    AllCollected(words, clk, ch, kind, k);
    r := if out == [] then NoClockEdges else Ok(out);
  }
}
