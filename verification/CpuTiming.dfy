/**
 KD11-EA cycle timing (K1-5 clock and bus delays) and its composition with the
 memory scheduler: how long any memory access of a running CPU can take.
 */
module CpuTiming {
  import opened Ms11Memory

  datatype Profile = Profile(
    shortNs: nat, longNs: nat,
    msynRcNs: nat, msynLogicNs: nat,
    readEotNs: nat, writeAckNs: nat,
    grantRcNs: nat, grantLogicNs: nat, restartNs: nat,
    sackRcNs: nat, deviceIntrNs: nat, resetNs: nat)

  const NOMINAL_CLOCK := Profile(180, 240, 170, 38, 100, 28, 200, 84, 51, 100, 150, 100000000)
  const AGED_CLOCK := Profile(189, 251, 170, 38, 115, 35, 134, 84, 51, 100, 150, 74500000)

  function PeriodNs(p: Profile, longCycle: bool, loadBa: bool, relocate: bool): nat {
    if longCycle || (loadBa && relocate) then p.longNs else p.shortNs
  }

  // From the start of the micro-cycle to MSYN.
  function MsynNs(p: Profile, period: nat): nat {
    period / 2 + p.msynRcNs + p.msynLogicNs
  }

  datatype Transfer = None | Memory(isRead: bool) | Other(isRead: bool, ssynNs: nat)

  function CycleNs(p: Profile, period: nat, t: Transfer, ssynNs: nat, butService: bool, intr: bool): nat {
    var d0 := period;
    var granted := p.grantRcNs + p.grantLogicNs + p.restartNs + if intr then p.deviceIntrNs + p.sackRcNs else 0;
    var d1 := if butService then Max(d0, granted) else d0;
    if t.None? then d1 else
    Max(d1, MsynNs(p, period) + ssynNs + (if t.isRead then p.readEotNs else p.writeAckNs) + p.restartNs)
  }

  /** What one micro-cycle asks of the clock and the bus. */
  datatype Micro = Micro(
    longCycle: bool, loadBa: bool, relocate: bool,
    transfer: Transfer, butService: bool, intr: bool, resetPulse: bool)

  // Simulated time and the memory it times.
  datatype Cpu = Cpu(ns: nat, ram: State)

  // The memory access of a micro-cycle that makes one.
  function AccessOf(p: Profile, c: Config, cpu: Cpu, m: Micro): Response
    requires c.Schedulable() && m.transfer.Memory?
  {
    var msyn := cpu.ns + MsynNs(p, PeriodNs(p, m.longCycle, m.loadBa, m.relocate));
    Respond(c, cpu.ram, [], m.transfer.isRead, msyn)
  }

  function SsynNs(p: Profile, c: Config, cpu: Cpu, m: Micro): nat
    requires c.Schedulable()
  {
    match m.transfer
    case None => 0
    case Memory(_) => AccessOf(p, c, cpu, m).latency
    case Other(_, ssyn) => ssyn
  }

  /** A micro-cycle takes the short period, or the long one if it asks for it or loads BA
      through relocation. */
  lemma PeriodIs(p: Profile, longCycle: bool, loadBa: bool, relocate: bool)
    ensures longCycle ==> PeriodNs(p, longCycle, loadBa, relocate) == p.longNs
    ensures !longCycle ==> PeriodNs(p, longCycle, loadBa, relocate) == if loadBa && relocate then p.longNs else p.shortNs
  {}

  // The time at which grant and transfer are over, 0 without them: the grant with its
  // restart, and the interrupting device; MSYN half a period and two delays into the
  // cycle, then the answer, its end and the restart.
  function GrantEnd(p: Profile, butService: bool, intr: bool): nat {
    if !butService then 0
    else p.grantRcNs + p.grantLogicNs + p.restartNs + if intr then p.deviceIntrNs + p.sackRcNs else 0
  }

  function TransferEnd(p: Profile, period: nat, t: Transfer, ssynNs: nat): nat {
    match t
    case None => 0
    case Memory(isRead) => AnswerEnd(p, period, isRead, ssynNs)
    case Other(isRead, _) => AnswerEnd(p, period, isRead, ssynNs)
  }

  function AnswerEnd(p: Profile, period: nat, isRead: bool, ssynNs: nat): nat {
    period / 2 + p.msynRcNs + p.msynLogicNs + ssynNs + (if isRead then p.readEotNs else p.writeAckNs) + p.restartNs
  }

  /** A micro-cycle ends with the last of its period, its grant and its transfer. */
  lemma CycleIsLast(p: Profile, period: nat, t: Transfer, ssynNs: nat, butService: bool, intr: bool)
    ensures var ns := CycleNs(p, period, t, ssynNs, butService, intr);
      && ns >= period && ns >= GrantEnd(p, butService, intr) && ns >= TransferEnd(p, period, t, ssynNs)
      && (ns == period || ns == GrantEnd(p, butService, intr) || ns == TransferEnd(p, period, t, ssynNs))
  {}

  function Step(p: Profile, c: Config, cpu: Cpu, m: Micro): Cpu
    requires c.Schedulable()
  {
    var period := PeriodNs(p, m.longCycle, m.loadBa, m.relocate);
    var cycle := CycleNs(p, period, m.transfer, SsynNs(p, c, cpu, m), m.butService, m.intr);
    Cpu(cpu.ns + cycle + (if m.resetPulse then p.resetNs else 0),
        if m.transfer.Memory? then AccessOf(p, c, cpu, m).state else cpu.ram)
  }

  function Steps(p: Profile, c: Config, cpu: Cpu, program: seq<Micro>): Cpu
    requires c.Schedulable()
  {
    if program == [] then cpu else
    Step(p, c, Steps(p, c, cpu, program[..|program| - 1]), program[|program| - 1])
  }

  // How long the memory can still be busy with one access when the next MSYN
  // comes: the fastest access ends a transfer, and the next cycle is short.
  function CarryNs(p: Profile, c: Config): nat {
    var answered := Min(c.readNs + p.readEotNs, c.writeNs + p.writeAckNs);
    var covered := answered + p.restartNs + MsynNs(p, p.shortNs);
    if covered >= c.cycleNs then 0 else c.cycleNs - covered
  }

  function Min(a: nat, b: nat): nat {
    if a <= b then a else b
  }

  // The invariant of a run: the memory frees at most `CarryNs` after the
  // earliest MSYN of the coming micro-cycle.
  predicate Paced(p: Profile, c: Config, cpu: Cpu) {
    && c.Schedulable() && p.shortNs <= p.longNs
    && OnSchedule(c, cpu.ram)
    && cpu.ram.busyUntil <= cpu.ns + MsynNs(p, p.shortNs) + CarryNs(p, c)
  }

  // Delays far below the 32-bit range of the source.
  predicate Moderate(p: Profile, c: Config) {
    CarryNs(p, c) + c.refreshNs + c.arbitrationNs + Max(c.readNs, c.writeNs) < WORD32
  }

  lemma AccessBound(p: Profile, c: Config, cpu: Cpu, m: Micro)
    requires Paced(p, c, cpu) && Moderate(p, c) && m.transfer.Memory?
    ensures var r := AccessOf(p, c, cpu, m);
      && OnSchedule(c, r.state)
      && r.latency == r.start - (cpu.ns + MsynNs(p, PeriodNs(p, m.longCycle, m.loadBa, m.relocate))) + c.Access(m.transfer.isRead)
      && r.latency <= CarryNs(p, c) + c.refreshNs + c.arbitrationNs + c.Access(m.transfer.isRead)
  {
    var msyn := cpu.ns + MsynNs(p, PeriodNs(p, m.longCycle, m.loadBa, m.relocate));
    WaitBound(c, cpu.ram, [], m.transfer.isRead, msyn);
  }

  lemma StepKeepsPace(p: Profile, c: Config, cpu: Cpu, m: Micro)
    requires Paced(p, c, cpu) && Moderate(p, c)
    ensures Paced(p, c, Step(p, c, cpu, m))
  {
    if m.transfer.Memory? {
      AccessBound(p, c, cpu, m);
    }
  }

  lemma {:induction false} StepsKeepPace(p: Profile, c: Config, cpu: Cpu, program: seq<Micro>)
    requires Paced(p, c, cpu) && Moderate(p, c)
    ensures Paced(p, c, Steps(p, c, cpu, program))
  {
    if program != [] {
      var init := program[..|program| - 1];
      StepsKeepPace(p, c, cpu, init);
      StepKeepsPace(p, c, Steps(p, c, cpu, init), program[|program| - 1]);
    }
  }

  /** Whatever a CPU did since power-up, a memory access answers within its own
      access time, the carry-over, one refresh and one arbitration. */
  lemma {:induction false} EveryAccessAnswers(p: Profile, c: Config, program: seq<Micro>, m: Micro)
    requires c.Schedulable() && p.shortNs <= p.longNs && Moderate(p, c) && m.transfer.Memory?
    ensures var r := AccessOf(p, c, Steps(p, c, Cpu(0, PowerUp(c)), program), m);
      r.latency <= CarryNs(p, c) + c.refreshNs + c.arbitrationNs + c.Access(m.transfer.isRead)
  {
    var cpu := Cpu(0, PowerUp(c));
    StepsKeepPace(p, c, cpu, program);
    AccessBound(p, c, Steps(p, c, cpu, program), m);
  }

  /** The two machines of the source: 8 ns carry over nominally and none on the
      measured machine. */
  lemma {:induction false} MachineBounds(program: seq<Micro>, m: Micro)
    requires m.transfer.Memory?
    ensures CarryNs(NOMINAL_CLOCK, NOMINAL) == 8 && CarryNs(AGED_CLOCK, AGED) == 0
    ensures AccessOf(NOMINAL_CLOCK, NOMINAL, Steps(NOMINAL_CLOCK, NOMINAL, Cpu(0, PowerUp(NOMINAL)), program), m).latency
      <= 8 + 570 + 60 + if m.transfer.isRead then 385 else 125
    ensures AccessOf(AGED_CLOCK, AGED, Steps(AGED_CLOCK, AGED, Cpu(0, PowerUp(AGED)), program), m).latency
      <= 570 + 60 + if m.transfer.isRead then 385 else 125
  {
    EveryAccessAnswers(NOMINAL_CLOCK, NOMINAL, program, m);
    EveryAccessAnswers(AGED_CLOCK, AGED, program, m);
  }

  // A short micro-cycle that writes to memory.
  const WRITE := Micro(false, false, false, Memory(false), false, false, false)

  // Far from a refresh it waits for the array only.
  lemma QuietWrite(cpu: Cpu, start: nat)
    requires start == Max(cpu.ns + 298, cpu.ram.busyUntil) < 10_000 && cpu.ram.nextRefresh == 14_500
    ensures var r := AccessOf(NOMINAL_CLOCK, NOMINAL, cpu, WRITE);
      && r.latency == start - (cpu.ns + 298) + 125
      && r.state.busyUntil == start + 510 && r.state.nextRefresh == 14_500
  {
    var d := Arrival(cpu.ram, [], cpu.ns + 298);
    assert d.start == start && !Due(NOMINAL, d.state, d.start);
    assert Drain(NOMINAL, d) == d;
  }

  lemma QuietStep(cpu: Cpu, start: nat)
    requires start == Max(cpu.ns + 298, cpu.ram.busyUntil) < 10_000 && cpu.ram.nextRefresh == 14_500
    ensures var next := Step(NOMINAL_CLOCK, NOMINAL, cpu, WRITE);
      next.ns == start + 204 && next.ram.busyUntil == start + 510 && next.ram.nextRefresh == 14_500
  {
    QuietWrite(cpu, start);
    assert MsynNs(NOMINAL_CLOCK, 180) == 298;
  }

  /** The carry-over is real: two short write cycles in a row on the nominal
      machine meet the memory 8 ns too early. */
  lemma CarryIsReached()
    ensures var after := Step(NOMINAL_CLOCK, NOMINAL, Cpu(0, PowerUp(NOMINAL)), WRITE);
      AccessOf(NOMINAL_CLOCK, NOMINAL, after, WRITE).latency == 8 + 125
  {
    QuietStep(Cpu(0, PowerUp(NOMINAL)), 298);
    QuietWrite(Step(NOMINAL_CLOCK, NOMINAL, Cpu(0, PowerUp(NOMINAL)), WRITE), 808);
  }
}
