/**
 The interrupt controller: requests are queued by vector, and E29 grants the
 highest bus request above the CPU priority.
 */
module Interrupts {
  import opened Proms

  const MAX_PENDING: nat := 8

  // The vectors of the devices, octal 60 64 70 74 100 160 220.
  const TTY_IN: nat := 48
  const TTY_OUT: nat := 52
  const READER: nat := 56
  const PUNCH: nat := 60
  const LINE_CLOCK: nat := 64
  const RL_DISK: nat := 112
  const RK_DISK: nat := 144
  const DEVICE_VECTORS: set<nat> := {TTY_IN, TTY_OUT, READER, PUNCH, LINE_CLOCK, RL_DISK, RK_DISK}

  datatype Request = Request(vector: nat, priority: nat)

  // ----- The queue -----

  function VectorsOf(q: seq<Request>): set<nat> {
    set i | 0 <= i < |q| :: q[i].vector
  }

  predicate Distinct(q: seq<Request>) {
    forall i, j :: 0 <= i < j < |q| ==> q[i].vector != q[j].vector
  }

  // The last entry takes the place of the one removed.
  function SwapRemove<T>(q: seq<T>, i: nat): seq<T>
    requires i < |q|
  {
    q[i := q[|q| - 1]][..|q| - 1]
  }

  lemma SwapRemoveIsRemoval<T>(q: seq<T>, i: nat)
    requires i < |q|
    ensures multiset(SwapRemove(q, i)) == multiset(q) - multiset{q[i]}
  {
    var n := |q| - 1;
    if i == n {
      assert q == q[..n] + [q[n]] && SwapRemove(q, i) == q[..n];
    } else {
      var low, mid := q[..i], q[i + 1..n];
      assert q == (low + [q[i]]) + (mid + [q[n]]);
      assert SwapRemove(q, i) == (low + [q[n]]) + mid;
      assert multiset(q) == multiset(low) + multiset{q[i]} + (multiset(mid) + multiset{q[n]});
      assert multiset(SwapRemove(q, i)) == multiset(low) + multiset{q[n]} + multiset(mid);
    }
  }

  /** Removal takes out one vector and keeps the others distinct. */
  lemma SwapRemoveVectors(q: seq<Request>, i: nat)
    requires i < |q| && Distinct(q)
    ensures Distinct(SwapRemove(q, i)) && VectorsOf(SwapRemove(q, i)) == VectorsOf(q) - {q[i].vector}
  {
    var n := |q| - 1;
    var s := SwapRemove(q, i);
    forall v | v in VectorsOf(q) && v != q[i].vector ensures v in VectorsOf(s) {
      var k :| 0 <= k < |q| && q[k].vector == v;
      assert s[if k == n then i else k].vector == v;
    }
  }

  // ----- Order of arrival -----

  // A queued request with the time at which it was posted.
  datatype Arrival = Arrival(request: Request, time: int)

  function Requests(q: seq<Arrival>): seq<Request> {
    seq(|q|, i requires 0 <= i < |q| => q[i].request)
  }

  // Within every level, earlier requests are nearer to the front.
  predicate LevelsInOrder(q: seq<Arrival>) {
    forall i, j :: 0 <= i < j < |q| && q[i].request.priority == q[j].request.priority ==> q[i].time < q[j].time
  }

  /** Taking out entry i keeps the order within the levels if and only if no entry between
      it and the last one has the level of the last one. */
  lemma LevelOrderKeptIff(q: seq<Arrival>, i: nat)
    requires LevelsInOrder(q) && i < |q|
    ensures LevelsInOrder(SwapRemove(q, i)) <==>
      forall j :: i < j < |q| - 1 ==> q[j].request.priority != q[|q| - 1].request.priority
  {
    var n := |q| - 1;
    var s := SwapRemove(q, i);
    forall j | i < j < n && q[j].request.priority == q[n].request.priority ensures !LevelsInOrder(s) {
      assert s[i] == q[n] && s[j] == q[j];
    }
  }

  /** As long as the levels are in order, the request granted came first of its level. */
  lemma FirstComeFirstServed(q: seq<Arrival>, priority: nat)
    requires LevelsInOrder(q) && priority < 8
    ensures var i := Pending(Requests(q), priority);
      i >= 0 ==> forall j :: 0 <= j < |q| && j != i && q[j].request.priority == q[i].request.priority ==> q[i].time < q[j].time
  {
    var i := Pending(Requests(q), priority);
    PendingIsHighest(Requests(q), priority);
    forall j | 0 <= j < |q| && i >= 0 && j != i && q[j].request.priority == q[i].request.priority ensures q[i].time < q[j].time {
      assert Requests(q)[j].priority == Requests(q)[i].priority;
    }
  }

  // ----- Queue operations -----

  function IndexOf(q: seq<Request>, vector: nat): (i: int)
    ensures -1 <= i < |q|
    ensures i == -1 <==> vector !in VectorsOf(q)
    ensures i >= 0 ==> q[i].vector == vector
  {
    if q == [] then -1 else
    var n := |q| - 1;
    VectorsPlusOne(q[..n], q[n]);
    assert q == q[..n] + [q[n]];
    if q[n].vector == vector then n else IndexOf(q[..n], vector)
  }

  /** A vector that is pending already is not queued twice, and a full queue drops it. */
  function Posted(q: seq<Request>, vector: nat, priority: nat): seq<Request> {
    if vector in VectorsOf(q) || |q| >= MAX_PENDING then q else q + [Request(vector, priority)]
  }

  function Cancelled(q: seq<Request>, vector: nat): seq<Request> {
    if vector in VectorsOf(q) then SwapRemove(q, IndexOf(q, vector)) else q
  }

  lemma PostedVectors(q: seq<Request>, vector: nat, priority: nat)
    requires Distinct(q)
    ensures var q' := Posted(q, vector, priority);
      && Distinct(q') && VectorsOf(q) <= VectorsOf(q') <= VectorsOf(q) + {vector}
      && (|q| < MAX_PENDING ==> vector in VectorsOf(q'))
  {
    VectorsPlusOne(q, Request(vector, priority));
  }

  lemma CancelledVectors(q: seq<Request>, vector: nat)
    requires Distinct(q)
    ensures Distinct(Cancelled(q, vector)) && VectorsOf(Cancelled(q, vector)) == VectorsOf(q) - {vector}
  {
    if vector in VectorsOf(q) { SwapRemoveVectors(q, IndexOf(q, vector)); }
  }

  // ----- Arbitration -----

  predicate HasLevel(q: seq<Request>, level: nat) {
    exists i :: 0 <= i < |q| && q[i].priority == level
  }

  // E29 outputs, lowest first: BG6 BG7 BG4 BG5.
  function GrantOf(d: nat): nat {
    if d / 2 % 2 == 1 then 7 else if d % 2 == 1 then 6 else if d / 8 % 2 == 1 then 5 else if d / 4 % 2 == 1 then 4 else 0
  }

  // The highest requesting level above the CPU priority, 0 for none.
  function HighestAbove(priority: nat, br7: bool, br6: bool, br5: bool, br4: bool): nat {
    if br7 && priority < 7 then 7
    else if br6 && priority < 6 then 6
    else if br5 && priority < 5 then 5
    else if br4 && priority < 4 then 4
    else 0
  }

  lemma E29Bits(p2: bool, p1: bool, p0: bool, halt: bool, br7: bool, br6: bool, br5: bool, br4: bool)
    ensures GrantOf(E29(p2, p1, p0, halt, br7, br6, br5, br4)) ==
      if halt then 0 else HighestAbove(4 * Line(p2) + 2 * Line(p1) + Line(p0), br7, br6, br5, br4)
  {}

  // The PSW priority lines to E29.
  function Arbitrate(priority: nat, halt: bool, br7: bool, br6: bool, br5: bool, br4: bool): nat {
    GrantOf(E29(priority / 4 % 2 == 1, priority / 2 % 2 == 1, priority % 2 == 1, halt, br7, br6, br5, br4))
  }

  lemma ThreeBits(p: nat)
    ensures 4 * Line(p / 4 % 2 == 1) + 2 * Line(p / 2 % 2 == 1) + Line(p % 2 == 1) == p % 8
  {
    assert p / 4 == p / 2 / 2;
  }

  /** E29 grants the highest level above the CPU priority, of three bits, and none on a halt. */
  lemma E29IsTheRule(priority: nat, halt: bool, br7: bool, br6: bool, br5: bool, br4: bool)
    ensures Arbitrate(priority, halt, br7, br6, br5, br4) ==
      if halt then 0 else HighestAbove(priority % 8, br7, br6, br5, br4)
  {
    ThreeBits(priority);
    E29Bits(priority / 4 % 2 == 1, priority / 2 % 2 == 1, priority % 2 == 1, halt, br7, br6, br5, br4);
  }

  lemma LevelPlusOne(q: seq<Request>, r: Request)
    ensures forall level: nat :: HasLevel(q + [r], level) <==> HasLevel(q, level) || r.priority == level
  {
    forall level: nat ensures HasLevel(q + [r], level) <==> HasLevel(q, level) || r.priority == level {
      if HasLevel(q, level) {
        var i :| 0 <= i < |q| && q[i].priority == level;
        assert (q + [r])[i].priority == level;
      }
      assert (q + [r])[|q|].priority == r.priority;
    }
  }

  function FirstAt(q: seq<Request>, level: nat): (i: int)
    ensures -1 <= i < |q|
    ensures i == -1 <==> !HasLevel(q, level)
    ensures i >= 0 ==> q[i].priority == level && forall j :: 0 <= j < i ==> q[j].priority != level
  {
    if q == [] then -1 else
    var n := |q| - 1;
    var before := FirstAt(q[..n], level);
    if before >= 0 then before else if q[n].priority == level then n else -1
  }

  // The queue index that is to be granted, -1 for none.
  function Pending(q: seq<Request>, priority: nat): (i: int)
    ensures -1 <= i < |q|
  {
    var grant := HighestAbove(priority % 8, HasLevel(q, 7), HasLevel(q, 6), HasLevel(q, 5), HasLevel(q, 4));
    if grant == 0 then -1 else FirstAt(q, grant)
  }

  // Requests on the four bus request lines that the CPU lets through.
  predicate Eligible(r: Request, priority: nat) {
    4 <= r.priority <= 7 && r.priority > priority
  }

  /** Nothing is pending exactly when no request is above the CPU priority, and
      otherwise the pending one is the first at the highest queued level. */
  lemma PendingIsHighest(q: seq<Request>, priority: nat)
    requires priority < 8
    ensures var i := Pending(q, priority);
      && (i == -1 <==> forall j :: 0 <= j < |q| ==> !Eligible(q[j], priority))
      && (i >= 0 ==> Eligible(q[i], priority))
      && (i >= 0 ==> forall j :: 0 <= j < |q| && 4 <= q[j].priority <= 7 ==> q[j].priority <= q[i].priority)
      && (i >= 0 ==> forall j :: 0 <= j < i ==> q[j].priority != q[i].priority)
  {}

  predicate OneLevel(q: seq<Arrival>, level: nat) {
    forall j :: 0 <= j < |q| ==> q[j].request.priority == level
  }

  predicate FrontWins(q: seq<Arrival>, priority: nat) {
    q != [] && Pending(Requests(q), priority) == 0
  }

  lemma FrontIsGranted(q: seq<Arrival>, priority: nat)
    requires q != [] && priority < 4 && OneLevel(q, 4)
    ensures FrontWins(q, priority)
  {
    PendingIsHighest(Requests(q), priority);
    assert Eligible(Requests(q)[0], priority);
  }

  lemma ThreeAndTwo(q: seq<Arrival>)
    requires |q| == 3 && LevelsInOrder(q) && OneLevel(q, 4)
    ensures SwapRemove(q, 0) == [q[2], q[1]] && OneLevel(SwapRemove(q, 0), 4)
    ensures q[1].time < q[2].time
  {}

  /** First come first served fails: after the first of three requests of one level is
      granted, the third is granted before the second. */
  lemma LaterRequestOvertakes(q: seq<Arrival>, priority: nat)
    requires priority < 4 && |q| == 3 && LevelsInOrder(q) && OneLevel(q, 4)
    ensures FrontWins(q, priority) && FrontWins(SwapRemove(q, 0), priority)
    ensures SwapRemove(q, 0) == [q[2], q[1]] && q[1].time < q[2].time
  {
    ThreeAndTwo(q);
    FrontIsGranted(q, priority);
    FrontIsGranted(SwapRemove(q, 0), priority);
  }

  lemma ThreeTerminals()
    ensures var q := [Arrival(Request(TTY_IN, 4), 1), Arrival(Request(TTY_OUT, 4), 2), Arrival(Request(READER, 4), 3)];
      LevelsInOrder(q) && OneLevel(q, 4)
  {}

  // ----- Capacity -----

  lemma VectorsPlusOne(q: seq<Request>, r: Request)
    ensures VectorsOf(q + [r]) == VectorsOf(q) + {r.vector}
  {
    var q' := q + [r];
    forall v | v in VectorsOf(q) ensures v in VectorsOf(q') {
      var k :| 0 <= k < |q| && q[k].vector == v;
      assert q'[k].vector == v;
    }
    assert q'[|q|].vector in VectorsOf(q');
  }

  lemma {:induction false} DistinctCount(q: seq<Request>)
    requires Distinct(q)
    ensures |VectorsOf(q)| == |q|
  {
    if q != [] {
      var n := |q| - 1;
      DistinctCount(q[..n]);
      VectorsPlusOne(q[..n], q[n]);
      assert q == q[..n] + [q[n]];
    }
  }

  /** The seven vectors of the devices never fill the queue. */
  lemma DevicesFit(q: seq<Request>)
    requires Distinct(q) && VectorsOf(q) <= DEVICE_VECTORS
    ensures |q| < MAX_PENDING
  {
    DistinctCount(q);
    SubsetSize(VectorsOf(q), DEVICE_VECTORS);
  }

  lemma {:induction false} SubsetSize(a: set<nat>, b: set<nat>)
    requires a <= b
    ensures |a| <= |b|
  {
    assert b == a + (b - a);
  }

  // ----- The controller -----

  class IntController {
    const queue: array<Request>
    var count: nat

    ghost predicate Valid()
      reads this, queue
    {
      queue.Length == MAX_PENDING && count <= MAX_PENDING && Distinct(queue[..count])
    }

    ghost function Contents(): seq<Request>
      requires Valid()
      reads this, queue
    {
      queue[..count]
    }

    constructor ()
      ensures Valid() && Contents() == [] && fresh(queue)
    {
      queue := new Request[MAX_PENDING](_ => Request(0, 0));
      count := 0;
    }

    method Reset()
      requires queue.Length == MAX_PENDING
      modifies this`count
      ensures Valid() && Contents() == []
    {
      count := 0;
    }

    method Find(vector: nat) returns (i: int)
      requires Valid()
      ensures i == IndexOf(Contents(), vector)
    {
      ghost var q := Contents();
      i := 0;
      while i < count
        invariant 0 <= i <= count && forall j :: 0 <= j < i ==> q[j].vector != vector
      {
        if queue[i].vector == vector {
          assert q[i].vector in VectorsOf(q);
          return;
        }
        i := i + 1;
      }
      i := -1;
    }

    /** Queues a request, unless its vector is pending already or the queue is full. */
    method Post(vector: nat, priority: nat) returns (rc: int)
      requires Valid()
      modifies this`count, queue
      ensures Valid() && Contents() == Posted(old(Contents()), vector, priority)
      ensures rc == if vector in VectorsOf(Contents()) then 0 else -1
    {
      ghost var q := Contents();
      VectorsPlusOne(q, Request(vector, priority));
      PostedVectors(q, vector, priority);
      var i := Find(vector);
      if i >= 0 { return 0; }
      if count >= MAX_PENDING { return -1; }
      queue[count] := Request(vector, priority);
      count := count + 1;
      assert queue[..count] == q + [Request(vector, priority)];
      return 0;
    }

    // The last entry takes the place of entry i.
    method RemoveAt(i: nat)
      requires Valid() && i < count
      modifies this`count, queue
      ensures Valid() && Contents() == SwapRemove(old(Contents()), i)
    {
      SwapRemoveVectors(Contents(), i);
      ghost var q := Contents();
      queue[i] := queue[count - 1];
      count := count - 1;
      assert queue[..count] == SwapRemove(q, i);
    }

    method Cancel(vector: nat)
      requires Valid()
      modifies this`count, queue
      ensures Valid() && Contents() == Cancelled(old(Contents()), vector)
    {
      var i := Find(vector);
      if i >= 0 {
        RemoveAt(i);
      }
    }

    // The bus request lines: a level is up while some request has it.
    method BrLines() returns (br7: bool, br6: bool, br5: bool, br4: bool)
      requires Valid()
      ensures br7 == HasLevel(Contents(), 7) && br6 == HasLevel(Contents(), 6)
      ensures br5 == HasLevel(Contents(), 5) && br4 == HasLevel(Contents(), 4)
    {
      br7, br6, br5, br4 := false, false, false, false;
      ghost var q := Contents();
      for i := 0 to count
        invariant br7 == HasLevel(q[..i], 7) && br6 == HasLevel(q[..i], 6)
        invariant br5 == HasLevel(q[..i], 5) && br4 == HasLevel(q[..i], 4)
      {
        LevelPlusOne(q[..i], q[i]);
        assert q[..i + 1] == q[..i] + [q[i]];
        var p := queue[i].priority;
        br7, br6, br5, br4 := br7 || p == 7, br6 || p == 6, br5 || p == 5, br4 || p == 4;
      }
      assert q[..count] == q;
    }

    method FindLevel(level: nat) returns (i: int)
      requires Valid()
      ensures i == FirstAt(Contents(), level)
    {
      ghost var q := Contents();
      i := 0;
      while i < count
        invariant 0 <= i <= count && forall j :: 0 <= j < i ==> q[j].priority != level
      {
        if queue[i].priority == level {
          assert q[i].priority == level;
          return;
        }
        i := i + 1;
      }
      i := -1;
    }

    method GetPending(cpuPriority: nat) returns (i: int)
      requires Valid()
      ensures i == Pending(Contents(), cpuPriority)
    {
      var br7, br6, br5, br4 := BrLines();
      var grant := Arbitrate(cpuPriority, false, br7, br6, br5, br4);
      E29IsTheRule(cpuPriority, false, br7, br6, br5, br4);
      if grant == 0 {
        i := -1;
      } else {
        i := FindLevel(grant);
      }
    }

    /** Takes the pending request out. Only called when there is one. */
    method Ack(cpuPriority: nat) returns (req: Request)
      requires Valid() && Pending(Contents(), cpuPriority) >= 0
      modifies this`count, queue
      ensures Valid()
      ensures var i := Pending(old(Contents()), cpuPriority);
        req == old(Contents())[i] && Contents() == SwapRemove(old(Contents()), i)
      ensures multiset(Contents()) == multiset(old(Contents())) - multiset{req}
    {
      var i := GetPending(cpuPriority);
      SwapRemoveIsRemoval(Contents(), i);
      req := queue[i];
      RemoveAt(i);
    }
  }
}
