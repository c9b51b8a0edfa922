/**
 What a triggered capture is, as a function of everything the analyzer was fed
 since it was armed: which inputs are kept, which one is the trigger, when the
 capture is complete. `LogicAnalyzer` implements it on a ring buffer.
 */
module Capture {
  import opened Bits

  // One micro-cycle: its snapshot, and whether the trigger condition holds.
  datatype Input<T> = Input(snap: T, cond: bool)

  datatype Option<+T> = None | Some(value: T)

  datatype Setup = Setup(depth: nat, pre: nat, divider: nat, edge: bool, freeRun: bool)
  {
    predicate Valid() {
      depth >= 1 && pre <= depth && divider >= 1
    }
  }

  /** Every d-th input, counted from the first. */
  function Every<T>(d: nat, xs: seq<Input<T>>): seq<T>
    requires d >= 1
  {
    if xs == [] then [] else
    var n := |xs| - 1;
    Every(d, xs[..n]) + if n % d == d - 1 then [xs[n].snap] else []
  }

  lemma {:induction false} EveryLength<T>(d: nat, xs: seq<Input<T>>)
    requires d >= 1
    ensures |Every(d, xs)| == |xs| / d
  {
    RemainderIs(0, d, 0, 0);
    if xs != [] {
      EveryLength(d, xs[..|xs| - 1]);
      DivModStep(|xs| - 1, d);
    }
  }

  lemma {:induction false} EveryPlusOne<T>(d: nat, xs: seq<Input<T>>, x: Input<T>)
    requires d >= 1
    ensures Every(d, xs + [x]) == Every(d, xs) + if |xs| % d == d - 1 then [x.snap] else []
  {
    assert (xs + [x])[..|xs|] == xs;
  }

  /** The log holds inputs d-1, 2d-1, 3d-1 and so on. */
  lemma {:induction false} EveryAt<T>(d: nat, xs: seq<Input<T>>, i: nat)
    requires d >= 1 && i < |xs| / d
    ensures 0 <= i * d + d - 1 < |xs| && |Every(d, xs)| == |xs| / d
    ensures Every(d, xs)[i] == xs[i * d + d - 1].snap
  {
    EveryLength(d, xs);
    RemainderIs(0, d, 0, 0);
    var n := |xs| - 1;
    EveryLength(d, xs[..n]);
    DivModStep(n, d);
    EveryPlusOne(d, xs[..n], xs[n]);
    assert xs == xs[..n] + [xs[n]];
    if i < n / d {
      EveryAt(d, xs[..n], i);
    }
  }

  // The trigger fires on the level, or on the step that makes it true. The
  // condition before the first input is not known, so no edge is seen there.
  predicate Fires<T>(s: Setup, xs: seq<Input<T>>, k: nat)
    requires k < |xs|
  {
    xs[k].cond && (s.edge ==> k > 0 && !xs[k - 1].cond)
  }

  // A trigger is ignored until the pre-trigger part has been stored.
  predicate Accepts<T>(s: Setup, xs: seq<Input<T>>, k: nat)
    requires s.Valid() && k < |xs|
  {
    Fires(s, xs, k) && (k + 1) / s.divider >= s.pre
  }

  /** The accepted trigger: the first input that may be one. */
  function Trigger<T>(s: Setup, xs: seq<Input<T>>): (t: Option<nat>)
    requires s.Valid()
    ensures t.Some? ==> t.value < |xs|
  {
    if s.freeRun || xs == [] then None else
    var n := |xs| - 1;
    var before := Trigger(s, xs[..n]);
    if before.Some? then before else if Accepts(s, xs, n) then Some(n) else None
  }

  lemma {:induction false} TriggerIsFirst<T>(s: Setup, xs: seq<Input<T>>)
    requires s.Valid() && !s.freeRun
    ensures var t := Trigger(s, xs);
      if t.Some? then Accepts(s, xs, t.value) && forall k :: 0 <= k < t.value ==> !Accepts(s, xs, k)
      else forall k :: 0 <= k < |xs| ==> !Accepts(s, xs, k)
  {
    if xs != [] {
      var init := xs[..|xs| - 1];
      TriggerIsFirst(s, init);
      assert forall k :: 0 <= k < |init| ==> Accepts(s, xs, k) == Accepts(s, init, k);
    }
  }

  // Input k is the trigger condition come true, with the pre-trigger part stored by then:
  // for an edge, after an input without it.
  predicate MayTrigger<T>(s: Setup, xs: seq<Input<T>>, k: nat)
    requires s.Valid() && k < |xs|
  {
    xs[k].cond && (s.edge ==> k >= 1 && !xs[k - 1].cond) && (k + 1) / s.divider >= s.pre
  }

  /** So the trigger is the first input of that kind. */
  lemma {:induction false} TriggerMeans<T>(s: Setup, xs: seq<Input<T>>, t: nat)
    requires s.Valid() && !s.freeRun && t < |xs|
    ensures Trigger(s, xs) == Some(t) <==> MayTrigger(s, xs, t) && forall k :: 0 <= k < t ==> !MayTrigger(s, xs, k)
  {
    TriggerIsFirst(s, xs);
    forall k | 0 <= k < |xs| ensures MayTrigger(s, xs, k) <==> Accepts(s, xs, k) {}
  }

  /** What is stored. The divider starts again at the trigger. */
  function Log<T>(s: Setup, xs: seq<Input<T>>): seq<T>
    requires s.Valid()
  {
    match Trigger(s, xs)
    case None => Every(s.divider, xs)
    case Some(t) => Every(s.divider, xs[..t + 1]) + Every(s.divider, xs[t + 1..])
  }

  // Whether the trigger input is itself stored.
  predicate Stored(s: Setup, t: nat)
    requires s.Valid()
  {
    (t + 1) % s.divider == 0
  }

  // Samples to store after the trigger input.
  function PostCount(s: Setup, t: nat): nat
    requires s.Valid()
  {
    var post := s.depth - s.pre;
    if Stored(s, t) && post > 0 then post - 1 else post
  }

  // Samples still to store.
  function Remaining<T>(s: Setup, xs: seq<Input<T>>): int
    requires s.Valid()
  {
    match Trigger(s, xs)
    case None => s.depth - |xs| / s.divider
    case Some(t) => PostCount(s, t) - (|xs| - t - 1) / s.divider
  }

  predicate Complete<T>(s: Setup, xs: seq<Input<T>>)
    requires s.Valid()
  {
    (s.freeRun || Trigger(s, xs).Some?) && Remaining(s, xs) <= 0
  }

  // Inputs that were really taken: none after the capture was complete.
  predicate Taken<T>(s: Setup, xs: seq<Input<T>>)
    requires s.Valid()
  {
    xs == [] || (var init := xs[..|xs| - 1]; Taken(s, init) && !Complete(s, init))
  }

  // Samples stored by the time of the trigger input, itself included.
  function StoredBy(s: Setup, t: nat): nat
    requires s.Valid()
  {
    (t + 1) / s.divider
  }

  // The sample number the analyzer notes as the trigger.
  function TriggerNumber(s: Setup, t: nat): nat
    requires s.Valid()
  {
    var n := StoredBy(s, t);
    if n > 0 then n - 1 else 0
  }

  // Where the trigger is among the samples that a ring of this depth still
  // holds, -1 without a trigger or once it is overwritten.
  function TriggerIndex<T>(s: Setup, xs: seq<Input<T>>): int
    requires s.Valid()
  {
    match Trigger(s, xs)
    case None => -1
    case Some(t) => IndexInRing(s.depth, |Log(s, xs)|, TriggerNumber(s, t))
  }

  // The place of sample `number` among the last `depth` of `total` samples.
  function IndexInRing(depth: nat, total: nat, number: nat): int {
    var first := if total < depth then 0 else total - depth;
    if number < first then -1 else number - first
  }

  lemma {:induction false} LogLength<T>(s: Setup, xs: seq<Input<T>>)
    requires s.Valid()
    ensures |Log(s, xs)| == match Trigger(s, xs)
                            case None => |xs| / s.divider
                            case Some(t) => (t + 1) / s.divider + (|xs| - t - 1) / s.divider
  {
    match Trigger(s, xs)
    case None => EveryLength(s.divider, xs);
    case Some(t) =>
      EveryLength(s.divider, xs[..t + 1]);
      EveryLength(s.divider, xs[t + 1..]);
  }

  /** Every stored sample by its place: up to the trigger every divider-th input from the
      first on, and then every divider-th from the trigger on. */
  lemma {:induction false} LogAt<T>(s: Setup, xs: seq<Input<T>>, i: nat)
    requires s.Valid() && i < |Log(s, xs)|
    ensures match Trigger(s, xs)
            case None => 0 <= i * s.divider + s.divider - 1 < |xs| && Log(s, xs)[i] == xs[i * s.divider + s.divider - 1].snap
            case Some(t) =>
              var n := (t + 1) / s.divider;
              if i < n then 0 <= i * s.divider + s.divider - 1 <= t && Log(s, xs)[i] == xs[i * s.divider + s.divider - 1].snap
              else
                var k := t + (i - n) * s.divider + s.divider;
                t < k < |xs| && Log(s, xs)[i] == xs[k].snap
  {
    LogLength(s, xs);
    match Trigger(s, xs)
    case None => EveryAt(s.divider, xs, i);
    case Some(t) =>
      var n := (t + 1) / s.divider;
      EveryLength(s.divider, xs[..t + 1]);
      if i < n { EveryAt(s.divider, xs[..t + 1], i); } else { EveryAt(s.divider, xs[t + 1..], i - n); }
  }

  /** A capture ends on its last sample: exactly PostCount * divider inputs after
      the trigger, or depth * divider inputs in free run. */
  lemma {:induction false} CompletionTime<T>(s: Setup, xs: seq<Input<T>>)
    requires s.Valid() && Taken(s, xs) && Complete(s, xs)
    ensures Remaining(s, xs) == 0
    ensures match Trigger(s, xs)
            case None => |xs| == s.depth * s.divider
            case Some(t) => |xs| - t - 1 == PostCount(s, t) * s.divider
  {
    RemainderIs(0, s.divider, 0, 0);
    if xs == [] {
      assert false;
    } else {
      var n := |xs| - 1;
      var init := xs[..n];
      match Trigger(s, xs) {
        case None => CountdownEnds(n, s.divider, s.depth);
        case Some(t) =>
          if t < n {
            assert Trigger(s, init) == Some(t);
            CountdownEnds(n - t - 1, s.divider, PostCount(s, t));
          }
      }
    }
  }

  lemma CountdownEnds(n: nat, d: nat, goal: nat)
    requires d >= 1 && n / d < goal <= (n + 1) / d
    ensures n + 1 == goal * d && (n + 1) / d == goal
  {
    DivModStep(n, d);
    assert n + 1 == (n + 1) / d * d + (n + 1) % d;
  }

  lemma {:induction false} CompleteSize<T>(s: Setup, xs: seq<Input<T>>)
    requires s.Valid() && Taken(s, xs) && Complete(s, xs) && !s.freeRun
    ensures var t := Trigger(s, xs).value;
      && |Log(s, xs)| == StoredBy(s, t) + PostCount(s, t)
      && StoredBy(s, t) >= s.pre
      && (Stored(s, t) ==> StoredBy(s, t) >= 1)
  {
    CompletionTime(s, xs);
    LogLength(s, xs);
    TriggerIsFirst(s, xs);
    var t := Trigger(s, xs).value;
    MultipleCount(PostCount(s, t), s.divider);
    PositiveQuotient(t + 1, s.divider);
  }

  lemma MultipleCount(k: nat, d: nat)
    requires d >= 1
    ensures k * d / d == k
  {
    RemainderIs(k * d, d, k, 0);
  }

  lemma PositiveQuotient(n: nat, d: nat)
    requires d >= 1
    ensures n >= 1 && n % d == 0 ==> n / d >= 1
  {
    assert n == n / d * d + n % d;
  }

  /** Trigger placement, for any divider: the trigger stays in the buffer, except
      when it was skipped by the divider and nothing is kept before it. */
  lemma {:induction false} TriggerPlacement<T>(s: Setup, xs: seq<Input<T>>)
    requires s.Valid() && Taken(s, xs) && Complete(s, xs) && !s.freeRun
    ensures var t := Trigger(s, xs).value;
      TriggerIndex(s, xs) ==
        if Stored(s, t) then Min3(s.pre, StoredBy(s, t) - 1, s.depth - 1)
        else if StoredBy(s, t) == 0 then 0 else s.pre - 1
  {
    CompleteSize(s, xs);
  }

  function Min3(a: int, b: int, c: int): int {
    if a <= b && a <= c then a else if b <= c then b else c
  }

  /** Without a divider: the trigger is stored sample t, index min(pre, t, depth-1),
      and max(1, depth-pre) samples follow from it on. */
  lemma {:induction false} TriggerPlacementUndivided<T>(s: Setup, xs: seq<Input<T>>)
    requires s.Valid() && Taken(s, xs) && Complete(s, xs) && !s.freeRun && s.divider == 1
    ensures var t := Trigger(s, xs).value;
      && t < |Log(s, xs)|
      && TriggerIndex(s, xs) == Min3(s.pre, t, s.depth - 1)
      && |Log(s, xs)| - t == (if s.depth - s.pre > 1 then s.depth - s.pre else 1)
      && Log(s, xs)[t] == xs[t].snap
  {
    TriggerPlacement(s, xs);
    CompleteSize(s, xs);
    var t := Trigger(s, xs).value;
    RemainderIs(t + 1, 1, t + 1, 0);
    EveryAt(1, xs[..t + 1], t);
  }

  // ----- One more input -----

  // Inputs since the divider was last restarted.
  function PhaseCount<T>(s: Setup, xs: seq<Input<T>>): nat
    requires s.Valid()
  {
    match Trigger(s, xs)
    case None => |xs|
    case Some(t) => |xs| - t - 1
  }

  // Whether the next input is stored.
  predicate Keeps<T>(s: Setup, xs: seq<Input<T>>)
    requires s.Valid()
  {
    PhaseCount(s, xs) % s.divider == s.divider - 1
  }

  lemma {:induction false} TriggerStep<T>(s: Setup, xs: seq<Input<T>>, x: Input<T>)
    requires s.Valid()
    ensures Trigger(s, xs + [x]) ==
      if !s.freeRun && Trigger(s, xs).None? && Accepts(s, xs + [x], |xs|) then Some(|xs|) else Trigger(s, xs)
  {
    assert (xs + [x])[..|xs|] == xs;
  }

  lemma LogStep<T>(s: Setup, xs: seq<Input<T>>, x: Input<T>)
    requires s.Valid()
    ensures Log(s, xs + [x]) == Log(s, xs) + if Keeps(s, xs) then [x.snap] else []
  {
    TriggerStep(s, xs, x);
    var ys := xs + [x];
    match Trigger(s, xs)
    case None =>
      EveryPlusOne(s.divider, xs, x);
      assert ys[..|xs| + 1] == ys && ys[|xs| + 1..] == [];
    case Some(t) =>
      EveryPlusOne(s.divider, xs[t + 1..], x);
      assert ys[..t + 1] == xs[..t + 1] && ys[t + 1..] == xs[t + 1..] + [x];
  }

  lemma {:induction false} RemainingStep<T>(s: Setup, xs: seq<Input<T>>, x: Input<T>)
    requires s.Valid()
    ensures var ys := xs + [x];
      if Trigger(s, ys) == Trigger(s, xs) then
        Remaining(s, ys) == Remaining(s, xs) - (if Keeps(s, xs) then 1 else 0)
        && PhaseCount(s, ys) % s.divider == (if Keeps(s, xs) then 0 else PhaseCount(s, xs) % s.divider + 1)
      else
        Trigger(s, ys) == Some(|xs|) && PhaseCount(s, ys) % s.divider == 0
        && Remaining(s, ys) == PostCount(s, |xs|)
        && StoredBy(s, |xs|) == |Log(s, ys)| && (Stored(s, |xs|) <==> Keeps(s, xs))
  {
    var n := PhaseCount(s, xs);
    TriggerStep(s, xs, x);
    DivModStep(n, s.divider);
    RemainderIs(0, s.divider, 0, 0);
    LogLength(s, xs + [x]);
  }

  /** The acceptance test as the analyzer makes it, on its sample count. */
  lemma {:induction false} AcceptsByCount<T>(s: Setup, xs: seq<Input<T>>, x: Input<T>)
    requires s.Valid() && !s.freeRun && Trigger(s, xs).None?
    ensures Accepts(s, xs + [x], |xs|) <==>
      Fires(s, xs + [x], |xs|) && |Log(s, xs)| + (if Keeps(s, xs) then 1 else 0) >= s.pre
  {
    LogLength(s, xs);
    DivModStep(|xs|, s.divider);
  }
}
