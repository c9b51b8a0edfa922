/**
 Cyclic alignment of a capture against one period of a reference: the smallest
 window of the capture, growing by doubling, that occurs at one phase only.
 */
module Alignment {
  import opened Bits
  import opened Bytes

  /** Event keys as the search sees them, two bytes each, low byte first. */
  function Keys(keys: seq<nat>): (b: seq<Byte>)
    ensures |b| == 2 * |keys|
  {
    if keys == [] then [] else
    var n := |keys| - 1;
    Keys(keys[..n]) + [keys[n] % 256, keys[n] / 256 % 256]
  }

  predicate Keys16(keys: seq<nat>) {
    forall i :: 0 <= i < |keys| ==> keys[i] < 0x1_0000
  }

  lemma {:induction false} KeysInjective(a: seq<nat>, b: seq<nat>)
    requires Keys16(a) && Keys16(b) && Keys(a) == Keys(b)
    ensures a == b
  {
    assert |a| == |b|;
    if a != [] {
      var n := |a| - 1;
      LastKey(a);
      LastKey(b);
      KeysInjective(a[..n], b[..n]);
      assert a == a[..n] + [a[n]] && b == b[..n] + [b[n]];
    }
  }

  lemma {:induction false} LastKey(keys: seq<nat>)
    requires Keys16(keys) && keys != []
    ensures var n := |keys| - 1;
      && Keys(keys)[..2 * n] == Keys(keys[..n])
      && keys[n] == (Keys(keys)[2 * n] as int) + 256 * (Keys(keys)[2 * n + 1] as int)
  {
    var x := keys[|keys| - 1];
    assert x == x % 256 + 256 * (x / 256 % 256);
  }

  lemma {:induction false} KeysConcat(a: seq<nat>, b: seq<nat>)
    ensures Keys(a + b) == Keys(a) + Keys(b)
  {
    if b == [] {
      assert a + b == a;
    } else {
      var n := |b| - 1;
      assert (a + b)[..|a + b| - 1] == a + b[..n];
      KeysConcat(a, b[..n]);
    }
  }

  lemma {:induction false} KeysTake(keys: seq<nat>, j: nat)
    requires j <= |keys|
    ensures Keys(keys)[..2 * j] == Keys(keys[..j])
  {
    assert keys == keys[..j] + keys[j..];
    KeysConcat(keys[..j], keys[j..]);
  }

  lemma {:induction false} KeysDrop(keys: seq<nat>, i: nat)
    requires i <= |keys|
    ensures Keys(keys)[2 * i..] == Keys(keys[i..])
  {
    assert keys == keys[..i] + keys[i..];
    KeysConcat(keys[..i], keys[i..]);
  }

  lemma {:induction false} KeysSlice(keys: seq<nat>, i: nat, j: nat)
    requires i <= j <= |keys|
    ensures Keys(keys)[2 * i..2 * j] == Keys(keys[i..j])
  {
    KeysTake(keys, j);
    KeysDrop(keys[..j], i);
    assert keys[..j][i..] == keys[i..j];
    assert Keys(keys)[2 * i..2 * j] == Keys(keys)[..2 * j][2 * i..];
  }

  /** needle occurs in hay at k. */
  predicate At<T(==)>(hay: seq<T>, needle: seq<T>, k: nat) {
    k + |needle| <= |hay| && hay[k..k + |needle|] == needle
  }

  /** Searching bytes at even places is searching keys. */
  lemma {:induction false} EvenBytesAreKeys(hay: seq<nat>, needle: seq<nat>, j: nat)
    requires Keys16(hay) && Keys16(needle)
    ensures At(Keys(hay), Keys(needle), 2 * j) <==> At(hay, needle, j)
  {
    if j + |needle| <= |hay| {
      var slice := hay[j..j + |needle|];
      KeysSlice(hay, j, j + |needle|);
      assert Keys(hay)[2 * j..2 * j + |Keys(needle)|] == Keys(slice);
      if Keys(slice) == Keys(needle) { KeysInjective(slice, needle); }
    }
  }

  datatype Option<+T> = None | Some(value: T)

  // bytes.Index on the rest of hay: the first occurrence from `start` on.
  method Index(hay: seq<Byte>, needle: seq<Byte>, start: nat) returns (r: Option<nat>)
    requires start <= |hay|
    ensures match r
      case Some(k) => start <= k && At(hay, needle, k) && forall i :: start <= i < k ==> !At(hay, needle, i)
      case None => forall i :: start <= i ==> !At(hay, needle, i)
  {
    var k := start;
    while k + |needle| <= |hay|
      invariant start <= k
      invariant forall i :: start <= i < k ==> !At(hay, needle, i)
    {
      if hay[k..k + |needle|] == needle { return Some(k); }
      k := k + 1;
    }
    return None;
  }

  /** The first occurrence at an even place. */
  method FindEven(hay: seq<Byte>, needle: seq<Byte>, start0: nat) returns (r: Option<nat>)
    ensures match r
      case Some(k) => start0 <= k && k % 2 == 0 && At(hay, needle, k)
        && forall i :: start0 <= i < k && i % 2 == 0 ==> !At(hay, needle, i)
      case None => forall i :: start0 <= i && i % 2 == 0 ==> !At(hay, needle, i)
  {
    var start := start0;
    while start <= |hay|
      invariant start0 <= start
      invariant forall i :: start0 <= i < start && i % 2 == 0 ==> !At(hay, needle, i)
    {
      var k := Index(hay, needle, start);
      if k.None? { return None; }
      if k.value % 2 == 0 { return k; }
      start := k.value + 1;
    }
    return None;
  }

  // ----- Phases -----

  // The reference read cyclically from a phase.
  function Cyclic(ref: seq<nat>, phase: nat, t: nat): nat
    requires ref != []
  {
    ref[(phase + t) % |ref|]
  }

  ghost predicate Matches(ref: seq<nat>, window: seq<nat>, phase: nat)
    requires ref != []
  {
    forall t :: 0 <= t < |window| ==> window[t] == Cyclic(ref, phase, t)
  }

  // The reference twice, less one event: every phase is in it once.
  function Doubled(ref: seq<nat>): seq<nat>
    requires ref != []
  {
    (ref + ref)[..2 * |ref| - 1]
  }

  lemma DoubledIsCyclic(ref: seq<nat>, i: nat)
    requires ref != [] && i < 2 * |ref| - 1
    ensures Doubled(ref)[i] == Cyclic(ref, 0, i)
  {}

  lemma MatchInDoubled(ref: seq<nat>, window: seq<nat>, phase: nat)
    requires ref != [] && phase + |window| <= 2 * |ref| - 1
    ensures At(Doubled(ref), window, phase) <==> Matches(ref, window, phase)
  {
    var slice := Doubled(ref)[phase..phase + |window|];
    forall t | 0 <= t < |window| ensures slice[t] == Cyclic(ref, phase, t) {
      DoubledIsCyclic(ref, phase + t);
    }
    if Matches(ref, window, phase) { assert slice == window; }
  }

  // A window occurs in the doubled reference from this phase on first.
  ghost predicate FirstAt(ref: seq<nat>, window: seq<nat>, phase: nat)
    requires ref != []
  {
    At(Doubled(ref), window, phase) && forall i :: 0 <= i < phase ==> !At(Doubled(ref), window, i)
  }

  // What the search in the doubled reference takes for a unique window.
  ghost predicate FoundOnce(ref: seq<nat>, window: seq<nat>, phase: nat)
    requires ref != []
  {
    FirstAt(ref, window, phase) &&
    (|window| >= |ref| || forall i :: phase < i < |ref| ==> !At(Doubled(ref), window, i))
  }

  /** The window is accepted at this phase. One shorter than the period must match at no
      other phase. A longer one matches at its first phase, and must lie in the doubled
      reference less one event from there. */
  ghost predicate Unique(ref: seq<nat>, window: seq<nat>, phase: nat)
    requires ref != []
  {
    && phase < |ref| && Matches(ref, window, phase)
    && if |window| < |ref| then forall o: nat :: o < |ref| && o != phase ==> !Matches(ref, window, o)
       else phase + |window| <= 2 * |ref| - 1 && forall o :: 0 <= o < phase ==> !Matches(ref, window, o)
  }

  /** The search finds exactly the windows that are unique among the phases. */
  lemma FoundOnceIffUnique(ref: seq<nat>, window: seq<nat>, phase: nat)
    requires ref != [] && window != []
    ensures FoundOnce(ref, window, phase) <==> Unique(ref, window, phase)
  {
    if FoundOnce(ref, window, phase) {
      FirstIsAPhase(ref, window, phase);
      forall o: nat | o < |ref| && o + |window| <= 2 * |ref| - 1
        ensures At(Doubled(ref), window, o) <==> Matches(ref, window, o)
      {
        MatchInDoubled(ref, window, o);
      }
    }
    if Unique(ref, window, phase) {
      forall o: nat | o + |window| <= 2 * |ref| - 1 ensures At(Doubled(ref), window, o) <==> Matches(ref, window, o) {
        MatchInDoubled(ref, window, o);
      }
    }
  }

  /** A window occurs in the doubled reference less one event if and only if it matches
      at a phase from which that is long enough. */
  lemma OccursIffPhaseFits(ref: seq<nat>, window: seq<nat>)
    requires ref != [] && window != []
    ensures Occurs(Doubled(ref), window) <==>
      exists phase: nat :: phase < |ref| && phase + |window| <= 2 * |ref| - 1 && Matches(ref, window, phase)
  {
    if Occurs(Doubled(ref), window) {
      var k: nat :| At(Doubled(ref), window, k);
      var first := FirstPlace(ref, window, k);
      FirstIsAPhase(ref, window, first);
    }
    if phase: nat :| phase < |ref| && phase + |window| <= 2 * |ref| - 1 && Matches(ref, window, phase) {
      MatchInDoubled(ref, window, phase);
    }
  }

  lemma {:induction false} FirstPlace(ref: seq<nat>, window: seq<nat>, k: nat) returns (first: nat)
    requires ref != [] && At(Doubled(ref), window, k)
    ensures FirstAt(ref, window, first)
  {
    if i :| 0 <= i < k && At(Doubled(ref), window, i) {
      first := FirstPlace(ref, window, i);
    } else {
      first := k;
    }
  }

  /** A window as long as the period or longer that matches is accepted if and only if
      the doubled reference is long enough from its first phase on. */
  lemma LongWindowAcceptedIff(ref: seq<nat>, window: seq<nat>, first: nat)
    requires ref != [] && |window| >= |ref| && first < |ref| && Matches(ref, window, first)
    requires forall o :: 0 <= o < first ==> !Matches(ref, window, o)
    ensures SomewhereUnique(ref, window) <==> first + |window| <= 2 * |ref| - 1
  {
    if first + |window| <= 2 * |ref| - 1 { assert Unique(ref, window, first); }
    if SomewhereUnique(ref, window) {
      var phase: nat :| Unique(ref, window, phase);
      assert phase >= first;
    }
  }

  /** Two events of a one-event reference match it, and are not found. */
  lemma LongWindowMissed()
    ensures Matches([1], [1, 1], 0) && !Occurs(Doubled([1]), [1, 1]) && Hopeless([1, 1, 1], [1], 2, 0)
  {
    assert |Doubled([1])| == 1;
    forall t: nat | 0 + WindowAt(2, t) <= 3 ensures !SomewhereUnique([1], [1, 1, 1][0..0 + WindowAt(2, t)]) {
      WindowsGrow(2, 0, t);
    }
  }

  lemma FirstIsAPhase(ref: seq<nat>, window: seq<nat>, phase: nat)
    requires ref != [] && window != [] && FirstAt(ref, window, phase)
    ensures phase < |ref| && Matches(ref, window, phase)
  {
    MatchInDoubled(ref, window, phase);
    if phase >= |ref| {
      var q := phase - |ref|;
      forall t | 0 <= t < |window| ensures window[t] == Cyclic(ref, q, t) {
        assert (phase + t) % |ref| == (q + t) % |ref| by { assert q + t + |ref| == phase + t; ModShift(q + t, |ref|); }
      }
      MatchInDoubled(ref, window, q);
      assert false;
    }
  }

  lemma ModShift(x: nat, d: nat)
    requires d >= 1
    ensures (x + d) % d == x % d
  {
    assert x + d == (x / d + 1) * d + x % d;
    RemainderIs(x + d, d, x / d + 1, x % d);
  }

  /** What an accepted alignment means: the window is the reference read from the
      phase, and no other phase fits a window shorter than the period. A longer
      window may fit several phases, but they all read the same sequence. */
  lemma AcceptedIsSound(ref: seq<nat>, window: seq<nat>, phase: nat, other: nat)
    requires ref != [] && window != [] && Unique(ref, window, phase)
    requires other < |ref| && Matches(ref, window, other)
    ensures phase < |ref| && Matches(ref, window, phase)
    ensures |window| < |ref| ==> other == phase
    ensures |window| >= |ref| ==> forall t: nat :: Cyclic(ref, other, t) == Cyclic(ref, phase, t)
  {
    if |window| >= |ref| {
      forall t: nat ensures Cyclic(ref, other, t) == Cyclic(ref, phase, t) {
        var u := t % |ref|;
        ModAdd(phase, t, |ref|);
        ModAdd(other, t, |ref|);
        assert window[u] == Cyclic(ref, phase, u) == Cyclic(ref, other, u);
      }
    }
  }

  lemma ModAdd(a: nat, t: nat, d: nat)
    requires d >= 1
    ensures (a + t) % d == (a + t % d) % d
  {
    var q := t / d;
    assert t == q * d + t % d;
    ModAddMultiple(a + t % d, q, d);
  }

  lemma {:induction false} ModAddMultiple(x: nat, q: nat, d: nat)
    requires d >= 1
    ensures (x + q * d) % d == x % d
  {
    if q > 0 {
      assert x + q * d == x + (q - 1) * d + d;
      ModShift(x + (q - 1) * d, d);
      ModAddMultiple(x, q - 1, d);
    }
  }

  // ----- The growing window -----

  // The windows tried at one place: `window`, twice that, and so on.
  function WindowAt(window: nat, j: nat): nat {
    if j == 0 then window else 2 * WindowAt(window, j - 1)
  }

  lemma {:induction false} WindowIsDoubled(window: nat, j: nat)
    ensures WindowAt(window, j) == window * Pow2(j)
  {
    if j > 0 {
      WindowIsDoubled(window, j - 1);
      assert 2 * (window * Pow2(j - 1)) == window * (2 * Pow2(j - 1));
    }
  }

  lemma {:induction false} WindowsGrow(window: nat, i: nat, j: nat)
    requires i <= j
    ensures WindowAt(window, i) <= WindowAt(window, j)
  {
    if i < j { WindowsGrow(window, i, j - 1); }
  }

  ghost predicate SomewhereUnique(ref: seq<nat>, window: seq<nat>)
    requires ref != []
  {
    exists phase: nat :: Unique(ref, window, phase)
  }

  /** No window below the j-th that fits at place i is unique. */
  ghost predicate HopelessBelow(capture: seq<nat>, ref: seq<nat>, window: nat, i: nat, j: nat)
    requires ref != []
  {
    forall t :: 0 <= t < j && i + WindowAt(window, t) <= |capture| ==>
      !SomewhereUnique(ref, capture[i..i + WindowAt(window, t)])
  }

  /** No window at place i is unique. */
  ghost predicate Hopeless(capture: seq<nat>, ref: seq<nat>, window: nat, i: nat)
    requires ref != []
  {
    forall t: nat :: i + WindowAt(window, t) <= |capture| ==>
      !SomewhereUnique(ref, capture[i..i + WindowAt(window, t)])
  }

  ghost predicate Occurs(hay: seq<nat>, needle: seq<nat>) {
    exists k: nat :: At(hay, needle, k)
  }

  lemma NextWindow(capture: seq<nat>, ref: seq<nat>, window: nat, i: nat, j: nat)
    requires ref != [] && HopelessBelow(capture, ref, window, i, j) && i + WindowAt(window, j) <= |capture|
    requires !SomewhereUnique(ref, capture[i..i + WindowAt(window, j)])
    ensures HopelessBelow(capture, ref, window, i, j + 1)
  {}

  lemma PrefixOccurs(hay: seq<nat>, short: seq<nat>, long: seq<nat>)
    requires short <= long && Occurs(hay, long)
    ensures Occurs(hay, short)
  {
    var k: nat :| At(hay, long, k);
    assert hay[k..k + |short|] == hay[k..k + |long|][..|short|] == short;
    assert At(hay, short, k);
  }

  lemma NowhereUnique(ref: seq<nat>, window: seq<nat>)
    requires ref != [] && window != [] && !Occurs(Doubled(ref), window)
    ensures !SomewhereUnique(ref, window)
  {
    forall phase: nat ensures !Unique(ref, window, phase) {
      FoundOnceIffUnique(ref, window, phase);
    }
  }

  // A window that occurs nowhere leaves no hope for the longer ones, and one that
  // does not fit has no longer ones.
  lemma {:induction false} GiveUp(capture: seq<nat>, ref: seq<nat>, window: nat, i: nat, j: nat)
    requires ref != [] && window >= 1 && HopelessBelow(capture, ref, window, i, j)
    requires i + WindowAt(window, j) > |capture|
      || !Occurs(Doubled(ref), capture[i..i + WindowAt(window, j)])
    ensures Hopeless(capture, ref, window, i)
  {
    forall t: nat | i + WindowAt(window, t) <= |capture|
      ensures !SomewhereUnique(ref, capture[i..i + WindowAt(window, t)])
    {
      if t >= j {
        WindowsGrow(window, j, t);
        var short, long := capture[i..i + WindowAt(window, j)], capture[i..i + WindowAt(window, t)];
        assert short == long[..|short|];
        WindowsGrow(window, 0, j);
        if Occurs(Doubled(ref), long) { PrefixOccurs(Doubled(ref), short, long); }
        NowhereUnique(ref, long);
      }
    }
  }

  datatype Outcome = Unplaced | Ambiguous | Accepted(phase: nat)

  /** The byte search finds the first key place from `start` on. */
  method FindKeys(ghost hay: seq<nat>, ghost needle: seq<nat>, hayBytes: seq<Byte>, needleBytes: seq<Byte>, start: nat)
    returns (r: Option<nat>)
    requires Keys16(hay) && Keys16(needle) && hayBytes == Keys(hay) && needleBytes == Keys(needle) && start % 2 == 0
    ensures match r
      case Some(k) => start <= k && k % 2 == 0 && At(hay, needle, k / 2)
        && forall j :: start / 2 <= j < k / 2 ==> !At(hay, needle, j)
      case None => forall j :: start / 2 <= j ==> !At(hay, needle, j)
  {
    r := FindEven(hayBytes, needleBytes, start);
    forall j: nat ensures At(hayBytes, needleBytes, 2 * j) <==> At(hay, needle, j) {
      EvenBytesAreKeys(hay, needle, j);
    }
    if r.Some? { assert r.value == 2 * (r.value / 2); }
  }

  /** One window, looked for in the bytes of the doubled reference. */
  method TryWindow(ghost ref: seq<nat>, ghost window: seq<nat>, p: nat, w: nat, hay: seq<Byte>, needle: seq<Byte>)
    returns (r: Outcome)
    requires ref != [] && window != [] && Keys16(ref) && Keys16(window) && p == |ref| && w == |window|
    requires hay == Keys(Doubled(ref)) && needle == Keys(window)
    ensures match r
      case Unplaced => !Occurs(Doubled(ref), window)
      case Ambiguous => !SomewhereUnique(ref, window)
      case Accepted(phase) => Unique(ref, window, phase)
  {
    var k := FindKeys(Doubled(ref), window, hay, needle, 0);
    if k.None? { return Unplaced; }
    var second := FindKeys(Doubled(ref), window, hay, needle, k.value + 2);
    if second.None? || second.value / 2 >= p || w >= p {
      FoundOnceIffUnique(ref, window, k.value / 2);
      return Accepted(k.value / 2);
    }
    TwoPhases(ref, window, k.value / 2, second.value / 2);
    return Ambiguous;
  }

  lemma TwoPhases(ref: seq<nat>, window: seq<nat>, phase: nat, second: nat)
    requires ref != [] && 0 < |window| < |ref| && FirstAt(ref, window, phase)
    requires phase < second < |ref| && At(Doubled(ref), window, second)
    ensures !SomewhereUnique(ref, window)
  {
    forall q: nat ensures !Unique(ref, window, q) {
      FoundOnceIffUnique(ref, window, q);
      if q > phase { assert !FirstAt(ref, window, q); }
    }
  }

  datatype Result = Aligned(start: nat, phase: nat) | EmptyReference | NotAligned

  ghost predicate AcceptedAt(capture: seq<nat>, ref: seq<nat>, window: nat, i: nat, phase: nat)
    requires ref != []
  {
    exists j: nat :: i + WindowAt(window, j) <= |capture|
      && Unique(ref, capture[i..i + WindowAt(window, j)], phase)
  }

  /** Alignment starts at the first place where some window is unique. */
  method Align(capture: seq<nat>, reference: seq<nat>, window: nat) returns (r: Result)
    requires Keys16(capture) && Keys16(reference) && window >= 1
    ensures r.EmptyReference? <==> reference == []
    ensures r.Aligned? ==>
      && r.start + window < |capture| && AcceptedAt(capture, reference, window, r.start, r.phase)
      && forall i :: 0 <= i < r.start ==> Hopeless(capture, reference, window, i)
    ensures r.NotAligned? ==>
      forall i :: 0 <= i && i + window < |capture| ==> Hopeless(capture, reference, window, i)
  {
    var p := |reference|;
    if p == 0 { return EmptyReference; }
    var ref := Keys(reference);
    var hay := (ref + ref)[..|ref + ref| - 2];
    KeysOfDoubled(reference);
    var i := 0;
    while i + window < |capture|
      invariant forall k :: 0 <= k < i ==> Hopeless(capture, reference, window, k)
    {
      var found := TryPlace(capture, reference, window, hay, i);
      if found.Some? { return Aligned(i, found.value); }
      i := i + 1;
    }
    return NotAligned;
  }

  lemma {:induction false} WindowAccepted(capture: seq<nat>, ref: seq<nat>, window: nat, i: nat, j: nat, phase: nat)
    requires ref != [] && i + WindowAt(window, j) <= |capture|
    requires Unique(ref, capture[i..i + WindowAt(window, j)], phase)
    ensures AcceptedAt(capture, ref, window, i, phase)
  {}

  /** The windows at one place, until one fits nowhere, one is unique, or the
      capture ends. */
  method TryPlace(capture: seq<nat>, reference: seq<nat>, window: nat, hay: seq<Byte>, i: nat) returns (r: Option<nat>)
    requires Keys16(capture) && Keys16(reference) && window >= 1 && reference != []
    requires i + window < |capture| && hay == Keys(Doubled(reference))
    ensures match r
      case Some(phase) => AcceptedAt(capture, reference, window, i, phase)
      case None => Hopeless(capture, reference, window, i)
  {
    var keys := Keys(capture);
    var w: nat := window;
    ghost var j: nat := 0;
    while i + w <= |capture|
      invariant w == WindowAt(window, j) >= 1 && HopelessBelow(capture, reference, window, i, j)
      decreases |capture| - w
    {
      KeysSlice(capture, i, i + w);
      ghost var slice := capture[i..i + w];
      var tried := TryWindow(reference, slice, |reference|, w, hay, keys[2 * i..2 * (i + w)]);
      if tried.Unplaced? { break; }
      if tried.Accepted? {
        WindowAccepted(capture, reference, window, i, j, tried.phase);
        return Some(tried.phase);
      }
      NextWindow(capture, reference, window, i, j);
      w, j := w * 2, j + 1;
    }
    GiveUp(capture, reference, window, i, j);
    return None;
  }

  lemma {:induction false} KeysOfDoubled(ref: seq<nat>)
    requires ref != []
    ensures (Keys(ref) + Keys(ref))[..2 * (2 * |ref| - 1)] == Keys(Doubled(ref))
  {
    KeysConcat(ref, ref);
    KeysTake(ref + ref, 2 * |ref| - 1);
  }
}
