/**
 MS11-L main memory timing: one memory array is shared by bus cycles and by
 refresh cycles. `Ram.Response` schedules one bus cycle and every refresh that
 has fallen due. `Respond` is its specification, and the lemmas below say what
 any run of requests guarantees.
 */
module Ms11Memory {

  datatype Config = Config(
    readNs: nat, writeNs: nat, cycleNs: nat,
    refreshNs: nat, intervalNs: nat, arbitrationNs: nat)
  {
    // An interval of 0 turns refresh off. Otherwise the array has time for one
    // refresh and one arbitrated bus cycle in every interval.
    predicate Schedulable() {
      cycleNs > 0 && (intervalNs == 0 || intervalNs >= refreshNs + arbitrationNs + cycleNs)
    }

    // Minimal time from the start of the array's cycle to SSYN.
    function Access(isRead: bool): nat {
      if isRead then readNs else writeNs
    }
  }

  const NOMINAL := Config(385, 125, 510, 570, 14500, 60)
  const AGED := NOMINAL.(intervalNs := 13640)

  const WORD32: nat := 0x1_0000_0000

  // One occupation of the memory array, as the half-open interval [start, end).
  datatype Slot = Refresh(start: nat, end: nat) | Cycle(start: nat, end: nat)

  datatype State = State(
    busyUntil: nat, nextRefresh: nat,
    refreshes: nat, arbitrations: nat, waitNs: nat)

  function PowerUp(c: Config): State {
    State(0, c.intervalNs, 0, 0, 0)
  }

  function Max(a: nat, b: nat): nat {
    if a >= b then a else b
  }

  // `log` lists every occupation so far, oldest first.
  datatype Drained = Drained(state: State, start: nat, log: seq<Slot>)

  predicate Due(c: Config, s: State, start: nat) {
    c.intervalNs != 0 && s.nextRefresh <= start
  }

  /** One turn of the refresh loop. */
  function RefreshOnce(c: Config, d: Drained): Drained {
    var begin := Max(d.state.nextRefresh, d.state.busyUntil);
    var done := begin + c.refreshNs;
    Drained(
      d.state.(busyUntil := done,
               nextRefresh := d.state.nextRefresh + c.intervalNs,
               refreshes := d.state.refreshes + 1),
      Max(d.start, done),
      d.log + [Refresh(begin, done)])
  }

  // The start may move forward in a turn, but never as far as the deadline does.
  function Backlog(c: Config, d: Drained): int {
    if c.intervalNs == 0 then 0 else d.start - d.state.nextRefresh + c.intervalNs
  }

  lemma BacklogShrinks(c: Config, d: Drained)
    requires c.Schedulable() && d.state.busyUntil <= d.start && Due(c, d.state, d.start)
    ensures 0 <= Backlog(c, RefreshOnce(c, d)) < Backlog(c, d)
    ensures RefreshOnce(c, d).state.busyUntil <= RefreshOnce(c, d).start
  {}

  /** Every refresh due by the start of the bus cycle, oldest first. */
  function Drain(c: Config, d: Drained): Drained
    requires c.Schedulable() && d.state.busyUntil <= d.start
    decreases Backlog(c, d)
  {
    if Due(c, d.state, d.start) then
      BacklogShrinks(c, d);
      Drain(c, RefreshOnce(c, d))
    else
      d
  }

  datatype Response = Response(state: State, latency: nat, start: nat, arbitrated: bool, log: seq<Slot>)

  // Where the bus cycle would start before arbitration with the next refresh.
  function Arrival(s: State, log: seq<Slot>, now: nat): Drained {
    Drained(s, Max(now, s.busyUntil), log)
  }

  // The 32-bit result of the source.
  function Latency(c: Config, waited: nat, isRead: bool): nat {
    (waited % WORD32 + c.Access(isRead)) % WORD32
  }

  /** The bus cycle itself, once no refresh is due. */
  function Serve(c: Config, d: Drained, isRead: bool, now: nat): Response {
    var contended := c.intervalNs != 0 && d.state.nextRefresh - d.start <= c.arbitrationNs;
    var start := if contended then d.start + c.arbitrationNs else d.start;
    var waited := Max(start, now) - now;
    Response(
      d.state.(busyUntil := start + c.cycleNs,
               arbitrations := d.state.arbitrations + (if contended then 1 else 0),
               waitNs := d.state.waitNs + waited),
      Latency(c, waited, isRead), start, contended,
      d.log + [Cycle(start, start + c.cycleNs)])
  }

  function Respond(c: Config, s: State, log: seq<Slot>, isRead: bool, now: nat): Response
    requires c.Schedulable()
  {
    Serve(c, Drain(c, Arrival(s, log, now)), isRead, now)
  }

  // ----- The refresh loop -----

  // The cross-call invariant: the array is never booked so far ahead that a
  // refresh could be late by an arbitrated bus cycle or more.
  predicate OnSchedule(c: Config, s: State) {
    c.intervalNs != 0 ==> s.busyUntil < s.nextRefresh + c.arbitrationNs + c.cycleNs
  }

  lemma {:induction false} DrainFacts(c: Config, d: Drained)
    requires c.Schedulable() && d.state.busyUntil <= d.start && OnSchedule(c, d.state)
    ensures var e := Drain(c, d);
      && !Due(c, e.state, e.start) && e.state.busyUntil <= e.start && OnSchedule(c, e.state)
      && d.start <= e.start <= d.start + c.refreshNs
      && (e.start == d.start || e.start == e.state.busyUntil)
      && e.state.waitNs == d.state.waitNs && e.state.arbitrations == d.state.arbitrations
    decreases Backlog(c, d)
  {
    if Due(c, d.state, d.start) {
      BacklogShrinks(c, d);
      var e := RefreshOnce(c, d);
      DrainFacts(c, e);
      // A refresh that delays the cycle ends before the next one is due.
      assert e.start != d.start ==> !Due(c, e.state, e.start);
    }
  }

  /** The refresh loop delays a bus cycle by one refresh at most. */
  lemma WaitBound(c: Config, s: State, log: seq<Slot>, isRead: bool, now: nat)
    requires c.Schedulable() && OnSchedule(c, s)
    ensures var r := Respond(c, s, log, isRead, now);
      && OnSchedule(c, r.state)
      && now <= r.start <= Max(now, s.busyUntil) + c.refreshNs + c.arbitrationNs
      && r.state.waitNs == s.waitNs + (r.start - now)
      && r.latency <= r.start - now + c.Access(isRead)
      && (r.start - now + c.Access(isRead) < WORD32 ==> r.latency == r.start - now + c.Access(isRead))
  {
    DrainFacts(c, Arrival(s, log, now));
  }

  // ----- Runs of requests -----

  datatype Request = Request(isRead: bool, now: nat)
  datatype Outcome = Outcome(state: State, trace: seq<Slot>, drainedTo: nat, start: nat, arbitrated: bool)

  /** The requests served in order from power-up. No order of their times is assumed. */
  function Run(c: Config, reqs: seq<Request>): Outcome
    requires c.Schedulable()
  {
    if reqs == [] then Outcome(PowerUp(c), [], 0, 0, false) else
    var o := Run(c, reqs[..|reqs| - 1]);
    var q := reqs[|reqs| - 1];
    var r := Respond(c, o.state, o.trace, q.isRead, q.now);
    Outcome(r.state, r.log, Drain(c, Arrival(o.state, o.trace, q.now)).start, r.start, r.arbitrated)
  }

  predicate Serial(trace: seq<Slot>) {
    forall i, j :: 0 <= i < j < |trace| ==> trace[i].end <= trace[j].start
  }

  predicate WellTimed(c: Config, trace: seq<Slot>) {
    forall i :: 0 <= i < |trace| ==>
      trace[i].end == trace[i].start + (if trace[i].Refresh? then c.refreshNs else c.cycleNs)
  }

  predicate EndsBy(trace: seq<Slot>, t: nat) {
    forall i :: 0 <= i < |trace| ==> trace[i].end <= t
  }

  function RefreshStarts(trace: seq<Slot>): seq<nat> {
    if trace == [] then [] else
    var last := trace[|trace| - 1];
    RefreshStarts(trace[..|trace| - 1]) + if last.Refresh? then [last.start] else []
  }

  // Refreshes come due one interval apart, the first one interval after power-up.
  function DueAt(c: Config, k: nat): nat {
    if k == 0 then c.intervalNs else DueAt(c, k - 1) + c.intervalNs
  }

  lemma {:induction false} DueAtOrder(c: Config, j: nat, k: nat)
    requires j < k && c.intervalNs != 0
    ensures DueAt(c, j) < DueAt(c, k)
  {
    if j + 1 < k { DueAtOrder(c, j, k - 1); }
  }

  // Every refresh so far was done once, in order, and less than an arbitrated
  // bus cycle late.
  predicate RefreshesOnTime(c: Config, s: State, trace: seq<Slot>) {
    var starts := RefreshStarts(trace);
    && |starts| == s.refreshes
    && (c.intervalNs == 0 ==> starts == [])
    && (c.intervalNs != 0 ==> s.nextRefresh == DueAt(c, s.refreshes))
    && forall k :: 0 <= k < |starts| ==>
         DueAt(c, k) <= starts[k] < DueAt(c, k) + c.arbitrationNs + c.cycleNs
  }

  ghost predicate GoodTrace(c: Config, s: State, trace: seq<Slot>) {
    && Serial(trace) && WellTimed(c, trace) && EndsBy(trace, s.busyUntil)
    && OnSchedule(c, s) && RefreshesOnTime(c, s, trace)
  }

  lemma {:induction false} AppendSlot(c: Config, trace: seq<Slot>, slot: Slot)
    requires Serial(trace) && WellTimed(c, trace) && EndsBy(trace, slot.start)
    requires slot.end == slot.start + if slot.Refresh? then c.refreshNs else c.cycleNs
    ensures Serial(trace + [slot]) && WellTimed(c, trace + [slot]) && EndsBy(trace + [slot], slot.end)
    ensures RefreshStarts(trace + [slot]) == RefreshStarts(trace) + if slot.Refresh? then [slot.start] else []
  {
    assert (trace + [slot])[..|trace|] == trace;
  }

  predicate LastDueBy(c: Config, s: State, t: nat) {
    s.refreshes > 0 && c.intervalNs != 0 ==> DueAt(c, s.refreshes - 1) <= t
  }

  lemma RefreshKeepsTrace(c: Config, d: Drained)
    requires c.Schedulable() && d.state.busyUntil <= d.start && Due(c, d.state, d.start)
    requires GoodTrace(c, d.state, d.log)
    ensures var e := RefreshOnce(c, d);
      GoodTrace(c, e.state, e.log) && LastDueBy(c, e.state, e.start)
  {
    AppendSlot(c, d.log, RefreshOnce(c, d).log[|d.log|]);
  }

  lemma ServeKeepsTrace(c: Config, d: Drained, isRead: bool, now: nat)
    requires c.Schedulable() && d.state.busyUntil <= d.start && !Due(c, d.state, d.start)
    requires GoodTrace(c, d.state, d.log)
    ensures var r := Serve(c, d, isRead, now);
      && GoodTrace(c, r.state, r.log)
      && r.state.refreshes == d.state.refreshes && r.state.nextRefresh == d.state.nextRefresh
      && d.start <= r.start <= r.state.busyUntil
  {
    var r := Serve(c, d, isRead, now);
    AppendSlot(c, d.log, r.log[|d.log|]);
  }

  lemma {:induction false} DrainTrace(c: Config, d: Drained)
    requires c.Schedulable() && d.state.busyUntil <= d.start
    requires GoodTrace(c, d.state, d.log) && LastDueBy(c, d.state, d.start)
    ensures var e := Drain(c, d);
      GoodTrace(c, e.state, e.log) && LastDueBy(c, e.state, e.start)
    decreases Backlog(c, d)
  {
    if Due(c, d.state, d.start) {
      BacklogShrinks(c, d);
      RefreshKeepsTrace(c, d);
      DrainTrace(c, RefreshOnce(c, d));
    }
  }

  /** One more request after a good trace. */
  lemma {:induction false} RespondKeepsTrace(c: Config, s: State, log: seq<Slot>, isRead: bool, now: nat)
    requires c.Schedulable() && GoodTrace(c, s, log) && LastDueBy(c, s, s.busyUntil)
    ensures var d, r := Drain(c, Arrival(s, log, now)), Respond(c, s, log, isRead, now);
      && GoodTrace(c, r.state, r.log) && LastDueBy(c, r.state, d.start)
      && d.start <= r.start <= r.state.busyUntil
      && (c.intervalNs != 0 ==> d.start < r.state.nextRefresh)
  {
    var d := Drain(c, Arrival(s, log, now));
    DrainFacts(c, Arrival(s, log, now));
    DrainTrace(c, Arrival(s, log, now));
    ServeKeepsTrace(c, d, isRead, now);
  }

  lemma {:induction false} RunIsGood(c: Config, reqs: seq<Request>)
    requires c.Schedulable()
    ensures var o := Run(c, reqs);
      && GoodTrace(c, o.state, o.trace) && LastDueBy(c, o.state, o.drainedTo)
      && o.drainedTo <= o.start <= o.state.busyUntil
      && (reqs != [] && c.intervalNs != 0 ==> o.drainedTo < o.state.nextRefresh)
  {
    if reqs != [] {
      var init, q := reqs[..|reqs| - 1], reqs[|reqs| - 1];
      RunIsGood(c, init);
      var o := Run(c, init);
      RespondKeepsTrace(c, o.state, o.trace, q.isRead, q.now);
    }
  }

  /** Bus cycles and refresh cycles never overlap, in any run of requests. */
  lemma {:induction false} ArrayNeverShared(c: Config, reqs: seq<Request>)
    requires c.Schedulable()
    ensures Serial(Run(c, reqs).trace) && WellTimed(c, Run(c, reqs).trace)
  {
    RunIsGood(c, reqs);
  }

  /** The k-th refresh has been done exactly when it was due by the time the bus
      cycle could start, each once and in order, less than arbitration + cycle late. */
  lemma {:induction false} RefreshExactlyOnce(c: Config, reqs: seq<Request>, k: nat)
    requires c.Schedulable() && c.intervalNs != 0 && reqs != []
    ensures var o := Run(c, reqs);
      && (DueAt(c, k) <= o.drainedTo <==> k < |RefreshStarts(o.trace)|)
      && (k < |RefreshStarts(o.trace)| ==>
           DueAt(c, k) <= RefreshStarts(o.trace)[k] < DueAt(c, k) + c.arbitrationNs + c.cycleNs)
  {
    RunIsGood(c, reqs);
    var o := Run(c, reqs);
    DueByIff(c, k, o.state.refreshes, o.drainedTo);
  }

  // Of the refreshes those below n are due by t.
  lemma {:induction false} DueByIff(c: Config, k: nat, n: nat, t: nat)
    requires c.intervalNs != 0 && (n > 0 ==> DueAt(c, n - 1) <= t) && t < DueAt(c, n)
    ensures DueAt(c, k) <= t <==> k < n
  {
    if k + 1 < n { DueAtOrder(c, k, n - 1); }
    if n < k { DueAtOrder(c, n, k); }
  }

  /** Against the time the cycle really starts the same claim is too strong. It holds
      exactly if the next refresh is more than the arbitration time away when the cycle
      could start, and then, and only then, does the request not arbitrate. */
  lemma {:induction false} DueByStartDoneIff(c: Config, reqs: seq<Request>)
    requires c.Schedulable() && c.intervalNs != 0 && reqs != []
    ensures var o := Run(c, reqs);
      && (AllDueDone(c, o) <==> DueAt(c, |RefreshStarts(o.trace)|) - o.drainedTo > c.arbitrationNs)
      && (AllDueDone(c, o) <==> !o.arbitrated)
  {
    RunIsGood(c, reqs);
    var o := Run(c, reqs);
    var n := o.state.refreshes;
    StartFacts(c, reqs);
    if o.arbitrated {
      assert DueAt(c, n) <= o.start;
    } else {
      forall k: nat | DueAt(c, k) <= o.start ensures k < n {
        if n < k { DueAtOrder(c, n, k); }
      }
    }
  }

  // The array is free from the end of the last slot on.
  predicate FreeFrom(trace: seq<Slot>, t: nat) {
    t == if trace == [] then 0 else trace[|trace| - 1].end
  }

  lemma {:induction false} DrainEnds(c: Config, d: Drained)
    requires c.Schedulable() && d.state.busyUntil <= d.start && OnSchedule(c, d.state) && FreeFrom(d.log, d.state.busyUntil)
    ensures var e := Drain(c, d);
      && FreeFrom(e.log, e.state.busyUntil) && e.start == Max(d.start, e.state.busyUntil)
      && e.state.busyUntil >= d.state.busyUntil
      && d.log <= e.log && forall i :: |d.log| <= i < |e.log| ==> e.log[i].Refresh?
    decreases Backlog(c, d)
  {
    if Due(c, d.state, d.start) {
      BacklogShrinks(c, d);
      var e := RefreshOnce(c, d);
      assert e.log[|d.log|].end == e.state.busyUntil;
      DrainEnds(c, e);
    }
  }

  // Refreshes, and then a cycle from `start` on.
  predicate GoesOn(c: Config, before: seq<Slot>, after: seq<Slot>, start: nat) {
    && |before| < |after| && before == after[..|before|]
    && (forall i :: |before| <= i < |after| - 1 ==> after[i].Refresh?)
    && after[|after| - 1] == Cycle(start, start + c.cycleNs)
  }

  // The cycle starts when the request is there and the last refresh or cycle is over, or
  // one arbitration later if the next refresh is due by then.
  predicate StartsWhenFree(c: Config, after: seq<Slot>, now: nat, start: nat, late: bool) {
    && |after| > 0
    && var free := Max(now, if |after| == 1 then 0 else after[|after| - 2].end);
    && (late <==> c.intervalNs != 0 && DueAt(c, |RefreshStarts(after)|) <= free + c.arbitrationNs)
    && start == free + if late then c.arbitrationNs else 0
  }

  lemma {:induction false} ServeEnds(c: Config, d: Drained, isRead: bool, now: nat)
    requires c.Schedulable() && FreeFrom(d.log, d.state.busyUntil) && d.start == Max(now, d.state.busyUntil)
    requires RefreshesOnTime(c, d.state, d.log)
    ensures var r := Serve(c, d, isRead, now);
      && r.log == d.log + [Cycle(r.start, r.start + c.cycleNs)]
      && StartsWhenFree(c, r.log, now, r.start, r.arbitrated)
      && r.state.arbitrations == d.state.arbitrations + (if r.arbitrated then 1 else 0)
      && r.state.waitNs == d.state.waitNs + (r.start - now)
      && FreeFrom(r.log, r.state.busyUntil)
  {
    var r := Serve(c, d, isRead, now);
    assert r.log[..|d.log|] == d.log;
    assert RefreshStarts(r.log) == RefreshStarts(d.log);
  }

  lemma {:induction false} RespondEnds(c: Config, s: State, log: seq<Slot>, isRead: bool, now: nat)
    requires c.Schedulable() && GoodTrace(c, s, log) && LastDueBy(c, s, s.busyUntil) && FreeFrom(log, s.busyUntil)
    ensures var r := Respond(c, s, log, isRead, now);
      && GoesOn(c, log, r.log, r.start) && StartsWhenFree(c, r.log, now, r.start, r.arbitrated)
      && r.state.arbitrations == s.arbitrations + (if r.arbitrated then 1 else 0)
      && r.state.waitNs == s.waitNs + (r.start - now)
      && FreeFrom(r.log, r.state.busyUntil)
  {
    DrainEnds(c, Arrival(s, log, now));
    DrainCounts(c, s, log, now);
    var d := Drain(c, Arrival(s, log, now));
    ServeEnds(c, d, isRead, now);
    var r := Serve(c, d, isRead, now);
    CycleLast(c, log, d.log, r.log, r.start);
  }

  lemma {:induction false} DrainCounts(c: Config, s: State, log: seq<Slot>, now: nat)
    requires c.Schedulable() && GoodTrace(c, s, log) && LastDueBy(c, s, s.busyUntil)
    ensures var d := Drain(c, Arrival(s, log, now));
      RefreshesOnTime(c, d.state, d.log) && d.state.waitNs == s.waitNs && d.state.arbitrations == s.arbitrations
  {
    DrainFacts(c, Arrival(s, log, now));
    DrainTrace(c, Arrival(s, log, now));
  }

  lemma CycleLast(c: Config, before: seq<Slot>, refreshed: seq<Slot>, after: seq<Slot>, start: nat)
    requires before <= refreshed && (forall i :: |before| <= i < |refreshed| ==> refreshed[i].Refresh?)
    requires after == refreshed + [Cycle(start, start + c.cycleNs)]
    ensures GoesOn(c, before, after, start)
  {}

  lemma {:induction false} RunEnds(c: Config, reqs: seq<Request>)
    requires c.Schedulable()
    ensures FreeFrom(Run(c, reqs).trace, Run(c, reqs).state.busyUntil)
  {
    if reqs != [] {
      var init := reqs[..|reqs| - 1];
      RunEnds(c, init);
      RunIsGood(c, init);
      RespondEnds(c, Run(c, init).state, Run(c, init).trace, reqs[|reqs| - 1].isRead, reqs[|reqs| - 1].now);
    }
  }

  /** How a run goes on with a request: some refreshes, and then one cycle, as soon as both
      request and array are ready or one arbitration later. The counters tell how many
      cycles were that late, and how long all have waited. */
  lemma {:induction false} RequestIsServed(c: Config, reqs: seq<Request>, q: Request)
    requires c.Schedulable()
    ensures var (before, after) := (Run(c, reqs), Run(c, reqs + [q]));
      && GoesOn(c, before.trace, after.trace, after.start)
      && StartsWhenFree(c, after.trace, q.now, after.start, after.arbitrated)
      && after.state.arbitrations == before.state.arbitrations + (if after.arbitrated then 1 else 0)
      && after.state.waitNs == before.state.waitNs + (after.start - q.now)
      && (reqs == [] ==> before.trace == [] && before.state.arbitrations == 0 && before.state.waitNs == 0)
  {
    assert (reqs + [q])[..|reqs + [q]| - 1] == reqs;
    RunIsGood(c, reqs);
    RunEnds(c, reqs);
    RespondEnds(c, Run(c, reqs).state, Run(c, reqs).trace, q.isRead, q.now);
  }

  ghost predicate AllDueDone(c: Config, o: Outcome) {
    forall k: nat :: DueAt(c, k) <= o.start ==> k < |RefreshStarts(o.trace)|
  }

  lemma {:induction false} StartFacts(c: Config, reqs: seq<Request>)
    requires c.Schedulable() && c.intervalNs != 0 && reqs != []
    ensures var o := Run(c, reqs);
      && (if o.arbitrated then o.state.nextRefresh <= o.start else o.start == o.drainedTo)
      && (o.arbitrated <==> o.state.nextRefresh - o.drainedTo <= c.arbitrationNs)
  {}

  /** A request 50 ns before a refresh wins the array and starts after the
      refresh was due. */
  lemma ArbitrationOvertakesRefresh()
    ensures var o := Run(NOMINAL, [Request(true, 14450)]);
      o.arbitrated && DueAt(NOMINAL, 0) <= o.start && RefreshStarts(o.trace) == []
  {
    var reqs := [Request(true, 14450)];
    assert reqs[..0] == [];
    var d := Arrival(PowerUp(NOMINAL), [], 14450);
    assert !Due(NOMINAL, d.state, d.start);
    assert Run(NOMINAL, reqs).trace == [Cycle(14510, 15020)];
  }

  // ----- The scheduler as the source writes it -----

  class Ram {
    var busyUntil: nat
    var nextRefresh: nat
    var refreshCount: nat
    var arbitrationCount: nat
    var waitNs: nat
    ghost var log: seq<Slot>
    const config: Config

    ghost predicate Valid()
      reads this
    {
      config.Schedulable() && OnSchedule(config, Model())
    }

    ghost function Model(): State
      reads this
    {
      State(busyUntil, nextRefresh, refreshCount, arbitrationCount, waitNs)
    }

    constructor (aged: bool)
      ensures Valid() && Model() == PowerUp(config) && log == []
      ensures config == if aged then AGED else NOMINAL
    {
      config := if aged then AGED else NOMINAL;
      busyUntil, refreshCount, arbitrationCount, waitNs := 0, 0, 0, 0;
      nextRefresh := if aged then 13640 else 14500;
      log := [];
    }

    // The body of the refresh loop: one overdue refresh. `start` follows it.
    method RefreshTurn(start: nat, ghost d: Drained) returns (start': nat)
      requires d == Drained(Model(), start, log)
      modifies this
      ensures Drained(Model(), start', log) == RefreshOnce(config, d)
    {
      var ref: nat := nextRefresh;
      if ref < busyUntil { ref := busyUntil; }
      busyUntil := ref + config.refreshNs;
      nextRefresh := nextRefresh + config.intervalNs;
      refreshCount := refreshCount + 1;
      start' := if start < busyUntil then busyUntil else start;
      log := log + [Refresh(ref, busyUntil)];
    }

    method Response(isRead: bool, now: nat) returns (latency: nat)
      requires Valid()
      modifies this
      ensures Valid()
      ensures var r := Respond(config, old(Model()), old(log), isRead, now);
        Model() == r.state && log == r.log && latency == r.latency
    {
      WaitBound(config, Model(), log, isRead, now);
      var start: nat := if now > busyUntil then now else busyUntil;
      ghost var arrival := Drained(Model(), start, log);
      ghost var d := arrival;
      while config.intervalNs != 0 && nextRefresh <= start
        invariant d == Drained(Model(), start, log)
        invariant now <= start && busyUntil <= start
        invariant Drain(config, d) == Drain(config, arrival)
        decreases Backlog(config, d)
      {
        BacklogShrinks(config, d);
        start := RefreshTurn(start, d);
        d := RefreshOnce(config, d);
      }
      latency := CycleTurn(isRead, now, start, d);
    }

    // The bus cycle, after arbitration with a refresh that is near.
    method CycleTurn(isRead: bool, now: nat, start0: nat, ghost d: Drained) returns (latency: nat)
      requires d == Drained(Model(), start0, log) && now <= start0
      modifies this
      ensures var r := Serve(config, d, isRead, now);
        Model() == r.state && log == r.log && latency == r.latency
    {
      var start := start0;
      if config.intervalNs != 0 && nextRefresh - start <= config.arbitrationNs {
        start := start + config.arbitrationNs;
        arbitrationCount := arbitrationCount + 1;
      }
      busyUntil := start + config.cycleNs;
      waitNs := waitNs + (start - now);
      log := log + [Cycle(start, busyUntil)];
      latency := ((start - now) % WORD32 + (if isRead then config.readNs else config.writeNs)) % WORD32;
    }
  }
}
