/**
 The virtual logic analyzer: a ring buffer of snapshots with a trigger. In every
 reachable state it holds the last samples stored, and they are the log that `Capture` defines.
 */
module LogicAnalyzer {
  import opened Bits
  import opened Capture

  const MAX_DEPTH: nat := 262144

  datatype Phase = Idle | Armed | Capturing | Done

  // The last `depth` entries of the log, each in its slot of the ring.
  predicate Ring<T(==)>(slots: seq<T>, log: seq<T>, depth: nat)
    requires 1 <= depth <= |slots|
  {
    forall i :: 0 <= i < |log| && |log| - depth <= i ==> slots[i % depth] == log[i]
  }

  lemma SlotsDiffer(i: nat, j: nat, d: nat)
    requires d >= 1 && i < j < i + d
    ensures i % d != j % d
  {
    if i % d == j % d {
      assert (j / d - i / d) * d == j / d * d - i / d * d == j - i;
      if j / d > i / d { NoLess(j / d - i / d, d); }
    }
  }

  lemma RingStore<T>(slots: seq<T>, log: seq<T>, depth: nat, x: T)
    requires 1 <= depth <= |slots| && Ring(slots, log, depth)
    ensures 0 <= |log| % depth < depth
    ensures Ring(slots[|log| % depth := x], log + [x], depth)
  {
    var n := |log|;
    forall i | 0 <= i < n + 1 && n + 1 - depth <= i
      ensures slots[n % depth := x][i % depth] == (log + [x])[i]
    {
      if i < n { SlotsDiffer(i, n, depth); }
    }
  }

  // ----- One sample -----

  // What decides when samples are kept and when the capture ends.
  datatype State = State(phase: Phase, hasTrigger: bool, edge: bool, divider: nat, depth: nat, pre: nat, remaining: nat,
                         divCounter: nat, prev: Option<bool>, triggered: bool, triggerAbs: nat)
  {
    predicate Running() { phase.Armed? || phase.Capturing? }

    // Nothing is counted down below zero.
    predicate Safe() {
      && divider >= 1 && (Running() ==> divCounter >= 1)
      && (phase.Armed? ==> pre <= depth) && (phase.Capturing? ==> remaining >= 1)
    }

    // Armed to wait for the trigger, or at once capturing without one.
    function Started(preCount: nat): State {
      this.(phase := if hasTrigger then Armed else Capturing, pre := preCount,
            remaining := if hasTrigger then 0 else depth, divCounter := divider,
            prev := None, triggered := false, triggerAbs := 0)
    }

    function Ticked(): State
      requires divCounter >= 1
    {
      this.(divCounter := if divCounter == 1 then divider else divCounter - 1)
    }

    // The trigger is taken, `total` samples being stored. Its own sample, if stored, is
    // the first of the post-trigger part.
    function Accepted(stored: bool, total: nat): State
      requires pre <= depth
    {
      var post := depth - pre;
      var left := if stored && post > 0 then post - 1 else post;
      this.(phase := if left == 0 then Done else Capturing, triggered := true,
            triggerAbs := if total > 0 then total - 1 else 0, remaining := left, divCounter := divider)
    }

    function AfterArmed(cond: bool, total: nat): State
      requires Safe() && phase.Armed?
    {
      var fires := if edge then cond && prev == Some(false) else cond;
      var q := Ticked().(prev := Some(cond));
      if fires && total >= pre then q.Accepted(divCounter == 1, total) else q
    }

    function AfterCapturing(): State
      requires Safe() && phase.Capturing?
    {
      if divCounter > 1 then Ticked()
      else Ticked().(remaining := remaining - 1, phase := if remaining == 1 then Done else Capturing)
    }
  }

  // The state of an analyzer that was armed with this setup and then fed these inputs,
  // also when it was disarmed since.
  ghost predicate Tracks<T>(p: State, s: Setup, xs: seq<Input<T>>)
    requires s.Valid()
  {
    && s.depth == p.depth && s.pre == p.pre && Taken(s, xs)
    && (p.triggered <==> Trigger(s, xs).Some?)
    && (p.triggered ==> p.triggerAbs == TriggerNumber(s, Trigger(s, xs).value))
    && (!p.phase.Idle? ==>
         && (p.phase.Armed? <==> !s.freeRun && Trigger(s, xs).None?)
         && (p.phase.Done? <==> Complete(s, xs)))
    && (p.Running() ==>
         && s == Setup(p.depth, p.pre, p.divider, p.edge, !p.hasTrigger)
         && p.divCounter == p.divider - PhaseCount(s, xs) % p.divider)
    && (p.phase.Armed? ==> p.prev == if xs == [] then None else Some(xs[|xs| - 1].cond))
    && (p.phase.Capturing? || p.phase.Done? ==> p.remaining == Remaining(s, xs))
  }

  lemma {:induction false} StartTracks<T>(p: State, s: Setup)
    requires s.Valid() && p.Running() && s == Setup(p.depth, p.pre, p.divider, p.edge, !p.hasTrigger)
    requires !p.triggered && p.divCounter == p.divider && p.prev == None
    requires if p.hasTrigger then p.phase.Armed? else p.phase.Capturing? && p.remaining == p.depth
    ensures Tracks<T>(p, s, []) && Log<T>(s, []) == []
  {
    RemainderIs(0, p.divider, 0, 0);
  }

  lemma {:induction false} ArmedTracks<T>(p: State, s: Setup, xs: seq<Input<T>>, x: Input<T>)
    requires s.Valid() && p.Safe() && p.phase.Armed? && Tracks(p, s, xs)
    ensures Log(s, xs + [x]) == Log(s, xs) + if p.divCounter == 1 then [x.snap] else []
    ensures Tracks(p.AfterArmed(x.cond, |Log(s, xs + [x])|), s, xs + [x])
  {
    AdvanceFacts(s, xs, x);
    assert (if p.edge then x.cond && p.prev == Some(false) else x.cond) == Fires(s, xs + [x], |xs|);
  }

  lemma {:induction false} CapturingTracks<T>(p: State, s: Setup, xs: seq<Input<T>>, x: Input<T>)
    requires s.Valid() && p.Safe() && p.phase.Capturing? && Tracks(p, s, xs)
    ensures Log(s, xs + [x]) == Log(s, xs) + if p.divCounter == 1 then [x.snap] else []
    ensures Tracks(p.AfterCapturing(), s, xs + [x])
  {
    AdvanceFacts(s, xs, x);
  }

  function PreCount(depth: nat, pct: nat): nat { depth * pct / 100 }

  /** The pre-trigger part is the whole samples of its share of the depth. */
  lemma PreIsShare(depth: nat, pct: nat)
    ensures 100 * PreCount(depth, pct) <= depth * pct < 100 * (PreCount(depth, pct) + 1)
  {}

  lemma PreFits(depth: nat, pct: nat)
    requires pct <= 100
    ensures PreCount(depth, pct) <= depth
  {
    MulMonotone(pct, 100, depth);
  }

  // The ring for a request: the largest power of two that it, the buffer and the global
  // limit allow.
  function RingDepth(request: nat, capacity: nat): (d: nat)
    requires capacity >= 1
    ensures IsPowerOf2(d) && 1 <= d <= capacity && d <= MAX_DEPTH
  {
    LargestPowerOf2(Min(request, Min(capacity, MAX_DEPTH)))
  }

  method ChooseDepth(request: nat, capacity: nat) returns (d: nat)
    requires capacity >= 1
    ensures d == RingDepth(request, capacity)
  {
    var limit := if request > MAX_DEPTH then MAX_DEPTH else request;
    if limit > capacity { limit := capacity; }
    d := RoundDown(limit);
  }

  class Probe<T(==)> {
    const buf: array<T>
    const capacity: nat

    var triggerPosPct: nat
    var state: State
    var head: nat
    var count: nat
    var mask: nat

    // What was stored since the probe was armed, what it was fed, and how it was set up
    // then. The two explain the log as long as trigger, edge and divider are not changed
    // in the middle of the capture.
    ghost var log: seq<T>
    ghost var inputs: seq<Input<T>>
    ghost var setup: Setup
    ghost var explained: bool

    ghost predicate Shape()
      reads this
    {
      && 1 <= state.depth <= capacity <= buf.Length && state.depth <= MAX_DEPTH
      && IsPowerOf2(state.depth) && mask == state.depth - 1
      && triggerPosPct <= 100 && state.Safe() && head == count == |log|
    }

    ghost predicate Explained()
      reads this
    {
      explained ==> setup.Valid() && log == Log(setup, inputs) && Tracks(state, setup, inputs)
    }

    ghost predicate Valid()
      reads this, buf
    {
      Shape() && Explained() && Ring(buf[..], log, state.depth)
    }

    constructor (buf: array<T>, capacity: nat)
      requires 1 <= capacity <= buf.Length
      ensures Valid() && state.phase.Idle? && !state.hasTrigger && !state.triggered && log == []
      ensures this.buf == buf && this.capacity == capacity && triggerPosPct == 50 && state.divider == 1
      ensures state.depth == RingDepth(capacity, capacity)
    {
      this.buf, this.capacity := buf, capacity;
      var depth := ChooseDepth(capacity, capacity);
      triggerPosPct, mask, head, count := 50, depth - 1, 0, 0;
      state := State(Idle, false, false, 1, depth, 0, 0, 0, None, false, 0);
      log, inputs, setup, explained := [], [], Setup(1, 0, 1, false, true), false;
    }

    // Drops the capture. The noted trigger is not part of it.
    method Reset()
      modifies this`state, this`head, this`count, this`log, this`explained
      ensures state == old(state).(phase := Idle, remaining := 0)
      ensures head == count == 0 && log == [] && !explained
    {
      state := state.(phase := Idle, remaining := 0);
      head, count := 0, 0;
      log, explained := [], false;
    }

    /** A change of depth drops the capture. */
    method SetDepth(request: nat)
      requires Valid()
      modifies this`mask, this`state, this`head, this`count, this`log, this`explained
      ensures Valid()
      ensures state.depth == RingDepth(request, capacity)
      ensures state.depth == old(state.depth) ==> state == old(state) && log == old(log) && explained == old(explained)
      ensures state.depth != old(state.depth) ==> state.phase.Idle? && log == [] && ValidCount() == 0 && !explained
      // The header promises -1 without a trigger, but a dropped one is still reported.
      ensures state.depth != old(state.depth) ==> (GetTriggerIndex() == -1 <==> !old(state.triggered))
    {
      var d := ChooseDepth(request, capacity);
      Resize(d);
    }

    method Resize(d: nat)
      requires Valid() && IsPowerOf2(d) && 1 <= d <= capacity && d <= MAX_DEPTH
      modifies this`mask, this`state, this`head, this`count, this`log, this`explained
      ensures Valid() && state == if d == old(state.depth) then old(state) else old(state).(phase := Idle, remaining := 0, depth := d)
      ensures d == old(state.depth) ==> head == old(head) && log == old(log) && explained == old(explained)
      ensures d != old(state.depth) ==> head == count == 0 && log == [] && !explained
    {
      if d != state.depth {
        Reset();
      }
      state, mask := state.(depth := d), d - 1;
    }

    method SetTriggerPos(pct: int)
      requires Valid()
      modifies this`triggerPosPct
      ensures Valid() && triggerPosPct == if pct < 0 then 0 else if pct > 100 then 100 else pct
    {
      triggerPosPct := if pct < 0 then 0 else if pct > 100 then 100 else pct;
    }

    // Trigger, edge and divider. A capture that is running goes on under the new ones.
    method Configure(hasTrigger: bool, edge: bool, divider: nat)
      requires Valid() && divider >= 1 && (state.phase.Armed? ==> hasTrigger)
      modifies this`state, this`explained
      ensures Valid() && state == old(state).(hasTrigger := hasTrigger, edge := edge, divider := divider)
      ensures explained == (old(explained) && (!state.Running() || state == old(state)))
    {
      var configured := state.(hasTrigger := hasTrigger, edge := edge, divider := divider);
      explained := explained && (!state.Running() || configured == state);
      state := configured;
    }

    method Arm()
      requires Valid()
      modifies this`head, this`count, this`state, this`log, this`inputs, this`setup, this`explained
      ensures Valid() && explained && inputs == [] && log == []
      ensures state == old(state).Started(PreCount(state.depth, triggerPosPct))
      ensures setup == Setup(state.depth, PreCount(state.depth, triggerPosPct), state.divider, state.edge, !state.hasTrigger)
    {
      PreFits(state.depth, triggerPosPct);
      head, count := 0, 0;
      state := state.(pre := PreCount(state.depth, triggerPosPct), remaining := 0, divCounter := state.divider,
                      prev := None, triggered := false, triggerAbs := 0);
      if !state.hasTrigger {
        state := state.(phase := Capturing, remaining := state.depth);
      } else {
        state := state.(phase := Armed);
      }
      log, inputs, explained := [], [], true;
      setup := Setup(state.depth, state.pre, state.divider, state.edge, !state.hasTrigger);
      StartTracks<T>(state, setup);
    }

    // The capture stays where it is.
    method Disarm()
      requires Valid()
      modifies this`state
      ensures Valid() && state == old(state).(phase := Idle)
    {
      state := state.(phase := Idle);
    }

    // Counts the divider down and stores the snapshot on its tick.
    method Tick(snap: T) returns (stored: bool)
      requires 1 <= state.depth <= buf.Length && IsPowerOf2(state.depth) && mask == state.depth - 1 && state.divCounter >= 1
      requires head == count == |log| && Ring(buf[..], log, state.depth)
      modifies this`state, this`head, this`count, this`log, buf
      ensures stored == (old(state.divCounter) == 1) && state == old(state).Ticked()
      ensures log == old(log) + if stored then [snap] else []
      ensures head == count == |log| && Ring(buf[..], log, state.depth)
    {
      MaskIsRemainder(head, state.depth);
      RingStore(buf[..], log, state.depth, snap);
      state := state.(divCounter := state.divCounter - 1);
      stored := false;
      if state.divCounter == 0 {
        state := state.(divCounter := state.divider);
        buf[And(head, mask)] := snap;
        head := head + 1;
        count := count + 1;
        log := log + [snap];
        stored := true;
      }
    }

    /** One micro-cycle. Outside a capture it is ignored. */
    method Sample(x: Input<T>)
      requires Valid()
      modifies this`state, this`head, this`count, this`log, this`inputs, buf
      ensures Valid()
      ensures inputs == old(inputs) + if old(state).Running() then [x] else []
      ensures log == old(log) + if old(state).Running() && old(state.divCounter) == 1 then [x.snap] else []
      ensures state == if old(state.phase).Armed? then old(state).AfterArmed(x.cond, |log|)
                       else if old(state.phase).Capturing? then old(state).AfterCapturing() else old(state)
    {
      if state.phase.Armed? {
        SampleArmed(x);
      } else if state.phase.Capturing? {
        SampleCapturing(x);
      }
    }

    // The trigger sample, if stored, is the first of the post-trigger part.
    method Accept(stored: bool)
      requires state.pre <= state.depth
      modifies this`state
      ensures state == old(state).Accepted(stored, head)
    {
      state := state.(phase := Capturing, triggered := true, triggerAbs := if head > 0 then head - 1 else 0,
                      remaining := state.depth - state.pre);
      if stored && state.remaining > 0 {
        state := state.(remaining := state.remaining - 1);
      }
      state := state.(divCounter := state.divider);
      if state.remaining == 0 {
        state := state.(phase := Done);
      }
    }

    // The trigger is ignored until the pre-trigger part of the buffer is full.
    method TakeTrigger(fires: bool, stored: bool)
      requires state.pre <= state.depth
      modifies this`state
      ensures state == if fires && count >= state.pre then old(state).Accepted(stored, head) else old(state)
    {
      var taken := fires;
      if taken && count < state.pre {
        taken := false;
      }
      if taken {
        Accept(stored);
      }
    }

    method SampleArmed(x: Input<T>)
      requires Valid() && state.phase.Armed?
      modifies this`state, this`head, this`count, this`log, this`inputs, buf
      ensures Valid() && inputs == old(inputs) + [x]
      ensures log == old(log) + if old(state.divCounter) == 1 then [x.snap] else []
      ensures state == old(state).AfterArmed(x.cond, |log|)
    {
      if explained { ArmedTracks(state, setup, inputs, x); }
      inputs := inputs + [x];
      var fires := if state.edge then x.cond && state.prev == Some(false) else x.cond;
      state := state.(prev := Some(x.cond));
      var stored := Tick(x.snap);
      TakeTrigger(fires, stored);
      assert state == old(state).AfterArmed(x.cond, |log|);
    }

    method SampleCapturing(x: Input<T>)
      requires Valid() && state.phase.Capturing?
      modifies this`state, this`head, this`count, this`log, this`inputs, buf
      ensures Valid() && inputs == old(inputs) + [x]
      ensures log == old(log) + if old(state.divCounter) == 1 then [x.snap] else []
      ensures state == old(state).AfterCapturing()
    {
      if explained { CapturingTracks(state, setup, inputs, x); }
      inputs := inputs + [x];
      var stored := Tick(x.snap);
      if stored {
        state := state.(remaining := state.remaining - 1);
        if state.remaining == 0 {
          state := state.(phase := Done);
        }
      }
    }

    // ----- Reading the capture -----

    function ValidCount(): nat
      reads this
    {
      if count < state.depth then count else state.depth
    }

    /** Entry `idx` of the buffer is entry total - valid + idx of the log. */
    function Get(idx: nat): (r: Option<T>)
      requires Valid()
      reads this, buf
      ensures ValidCount() == Min(|log|, state.depth)
      ensures r == if idx < ValidCount() then Some(log[|log| - ValidCount() + idx]) else None
    {
      var n := ValidCount();
      if idx >= n then None else
      MaskIsRemainder(head - n + idx, state.depth);
      Some(buf[And(head - n + idx, mask)])
    }

    /** Of an explained capture, disarmed or not, the place of its trigger in the buffer. */
    function GetTriggerIndex(): (r: int)
      requires Valid()
      reads this, buf
      ensures r == if state.triggered then IndexInRing(state.depth, |log|, state.triggerAbs) else -1
      ensures explained ==> r == TriggerIndex(setup, inputs)
    {
      if !state.triggered then -1 else
      var first := head - ValidCount();
      if state.triggerAbs < first then -1 else state.triggerAbs - first
    }
  }

  lemma RingsOfTwoAndOne()
    ensures RingDepth(2, 2) == 2 && RingDepth(1, 2) == 1
  {
    assert IsPowerOf2(1);
    LargestIsUnique(2, 2);
    LargestIsUnique(1, 1);
  }

  // A probe of two samples that waits for a trigger.
  method Waiting(buf: array<int>) returns (p: Probe<int>)
    requires buf.Length >= 2
    ensures fresh(p) && p.Valid() && p.buf == buf && p.capacity == 2 && p.state.depth == 2
    ensures p.state.phase.Armed? && p.state.pre <= 1 && p.state.divCounter == 1 && !p.state.edge && p.log == []
  {
    RingsOfTwoAndOne();
    p := new Probe<int>(buf, 2);
    p.Configure(true, false, 1);
    p.Arm();
  }

  // It is triggered by its first input.
  method TriggeredAtOnce(buf: array<int>) returns (p: Probe<int>)
    requires buf.Length >= 2
    modifies buf
    ensures fresh(p) && p.Valid() && p.buf == buf && p.capacity == 2 && p.state.depth == 2 && p.state.triggered
  {
    p := Waiting(buf);
    p.Sample(Input(7, true));
  }

  /** Made shorter then, it has nothing left in the buffer, but still reports its trigger. */
  method DroppedTriggerIsReported() returns (valid: nat, index: int)
    ensures valid == 0 && index >= 0
  {
    var buf := new int[2](_ => 0);
    var p := TriggeredAtOnce(buf);
    RingsOfTwoAndOne();
    p.SetDepth(1);
    valid, index := p.ValidCount(), p.GetTriggerIndex();
  }

  method RoundDown(limit: nat) returns (d: nat)
    ensures d == LargestPowerOf2(limit)
  {
    d := 1;
    while d * 2 <= limit
      invariant IsPowerOf2(d) && (d <= limit || d == 1)
    {
      d := d * 2;
    }
    LargestIsUnique(limit, d);
  }

  // Everything one more input does to the capture it belongs to.
  lemma {:induction false} AdvanceFacts<T>(s: Setup, xs: seq<Input<T>>, x: Input<T>)
    requires s.Valid() && Taken(s, xs) && !Complete(s, xs)
    ensures var ys := xs + [x];
      && Taken(s, ys)
      && Log(s, ys) == Log(s, xs) + (if Keeps(s, xs) then [x.snap] else [])
      && (s.freeRun || Trigger(s, xs).Some? ==> Trigger(s, ys) == Trigger(s, xs))
      && (Trigger(s, ys) == Trigger(s, xs) ==>
           && Remaining(s, ys) == Remaining(s, xs) - (if Keeps(s, xs) then 1 else 0)
           && PhaseCount(s, ys) % s.divider == (if Keeps(s, xs) then 0 else PhaseCount(s, xs) % s.divider + 1))
      && (!s.freeRun && Trigger(s, xs).None? ==>
           (Trigger(s, ys).Some? <==> Fires(s, ys, |xs|) && |Log(s, ys)| >= s.pre))
      && (Trigger(s, ys) != Trigger(s, xs) ==>
           && Trigger(s, ys) == Some(|xs|) && PhaseCount(s, ys) % s.divider == 0
           && Remaining(s, ys) == PostCount(s, |xs|) && StoredBy(s, |xs|) == |Log(s, ys)|
           && (Stored(s, |xs|) <==> Keeps(s, xs)))
  {
    assert (xs + [x])[..|xs|] == xs;
    LogStep(s, xs, x);
    TriggerStep(s, xs, x);
    RemainingStep(s, xs, x);
    if !s.freeRun && Trigger(s, xs).None? { AcceptsByCount(s, xs, x); }
  }

  lemma {:induction false} LargestIsUnique(n: nat, d: nat)
    requires IsPowerOf2(d) && n < 2 * d && (d <= n || d == 1)
    ensures d == LargestPowerOf2(n)
  {
    if n > 1 { LargestIsUnique(n / 2, d / 2); }
  }

  function Min(a: nat, b: nat): nat {
    if a <= b then a else b
  }

  function LargestPowerOf2(n: nat): (d: nat)
    ensures IsPowerOf2(d) && n < 2 * d && (n >= 1 ==> d <= n) && (n == 0 ==> d == 1)
  {
    if n <= 1 then 1 else 2 * LargestPowerOf2(n / 2)
  }
}
