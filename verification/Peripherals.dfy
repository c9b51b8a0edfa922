/**
 The interrupting devices as state machines over one request queue: the DL11
 console line, the line clock and the PC11 paper tape. Each operation gives the
 device's next state and the queue's.
 */
module Peripherals {
  import opened Interrupts

  type Queue = seq<Request>

  datatype Option<+T> = None | Some(value: T)

  // Register bits.
  function Done(data: nat): bool { data / 128 % 2 == 1 }
  function Enable(data: nat): bool { data / 64 % 2 == 1 }
  function Go(data: nat): bool { data % 2 == 1 }

  function PostIf(c: bool, q: Queue, vector: nat, priority: nat): Queue {
    if c then Posted(q, vector, priority) else q
  }

  function CancelIf(c: bool, q: Queue, vector: nat): Queue {
    if c then Cancelled(q, vector) else q
  }

  // ----- DL11 -----

  datatype Dl11 = Dl11(
    initL: bool, rcvDone: bool, rcvIe: bool, rbuf: nat,
    xmitReady: bool, xmitIe: bool, txDoneAt: nat, charTime: nat)
  {
    // The transmitter is due.
    function Transmitted(q: Queue, now: nat): (Dl11, Queue) {
      if !xmitReady && txDoneAt > 0 && now >= txDoneAt then
        (this.(xmitReady := true, txDoneAt := 0), PostIf(xmitIe, q, TTY_OUT, 4))
      else (this, q)
    }

    // A character from the host is taken if the receiver is free.
    function Received(rx: Option<nat>): Dl11 {
      if !rcvDone && rx.Some? then this.(rbuf := rx.value % 256, rcvDone := true) else this
    }

    function Tick(q: Queue, now: nat, rx: Option<nat>): (Dl11, Queue) {
      if !initL then (this, q) else
      var (d, q1) := Transmitted(q, now);
      (d.Received(rx), PostIf(!d.rcvDone && rx.Some? && d.rcvIe, q1, TTY_IN, 4))
    }

    // Polling sets DONE without a request.
    function ReadRcsr(rx: Option<nat>): Dl11 {
      if initL then Received(rx) else this
    }

    function ReadRbuf(): Dl11 { this.(rcvDone := false) }

    function ReadXcsr(q: Queue, now: nat): (Dl11, Queue) { Transmitted(q, now) }

    function WriteRcsr(q: Queue, data: nat): (Dl11, Queue) {
      if !initL then (this, q) else
      var q1 := PostIf(!rcvIe && Enable(data) && rcvDone, q, TTY_IN, 4);
      (this.(rcvIe := Enable(data)), CancelIf(rcvIe && !Enable(data), q1, TTY_IN))
    }

    function WriteXcsr(q: Queue, data: nat): (Dl11, Queue) {
      if !initL then (this, q) else
      var q1 := PostIf(!xmitIe && Enable(data) && xmitReady, q, TTY_OUT, 4);
      (this.(xmitIe := Enable(data)), CancelIf(xmitIe && !Enable(data), q1, TTY_OUT))
    }

    function WriteXbuf(now: nat): Dl11 {
      if !initL then this else this.(xmitReady := false, txDoneAt := now + charTime)
    }

    function BusInit(q: Queue, level: bool): (Dl11, Queue) {
      if level then (this.(initL := true), q) else
      (this.(initL := false, rcvDone := false, rcvIe := false, xmitReady := true, xmitIe := false, txDoneAt := 0),
       Cancelled(Cancelled(q, TTY_IN), TTY_OUT))
    }

    // A pending request of the line has its enable bit set.
    predicate Enabled(q: Queue) {
      && (TTY_IN in VectorsOf(q) ==> rcvIe)
      && (TTY_OUT in VectorsOf(q) ==> xmitIe)
    }
  }

  // ----- Line clock -----

  datatype Kw11 = Kw11(initL: bool, monitor: bool, ie: bool, nextTick: nat, interval: nat)
  {
    function Tick(q: Queue, now: nat): (Kw11, Queue) {
      if !initL then (this, q) else
      var due := if nextTick == 0 then now + interval else nextTick;
      if now < due then (this.(nextTick := due), q) else
      var next := if due + interval < now then now + interval else due + interval;
      (this.(monitor := true, nextTick := next), PostIf(ie, q, LINE_CLOCK, 6))
    }

    function Write(q: Queue, data: nat): (Kw11, Queue) {
      if !initL then (this, q) else
      (this.(monitor := Done(data), ie := Enable(data)), CancelIf(!Enable(data), q, LINE_CLOCK))
    }

    function BusInit(q: Queue, level: bool): (Kw11, Queue) {
      if level then (this.(initL := true), q) else
      (this.(initL := false, monitor := true, ie := false), Cancelled(q, LINE_CLOCK))
    }

    predicate Enabled(q: Queue) {
      LINE_CLOCK in VectorsOf(q) ==> ie
    }
  }

  // ----- PC11 -----

  // PRS with PRB, and PPS with PPB. Each side is done at its time, if that is not 0.
  datatype Reader = Reader(err: bool, busy: bool, done: bool, ie: bool, prb: nat, doneAt: nat)
  datatype Punch = Punch(err: bool, done: bool, ie: bool, ppb: nat, doneAt: nat)

  datatype Pc11 = Pc11(initL: bool, reader: Reader, punch: Punch,
                       hasReader: bool, hasPunch: bool, readerTime: nat, punchTime: nat)
  {
    // The character under the reader, or the end of the tape.
    function ReaderService(q: Queue, ch: Option<nat>): (Pc11, Queue) {
      var got := hasReader && ch.Some?;
      (this.(reader := Reader(!got, false, true, reader.ie, if got then ch.value % 256 else reader.prb, 0)),
       PostIf(reader.ie, q, READER, 4))
    }

    function PunchService(q: Queue, written: bool): (Pc11, Queue) {
      (this.(punch := punch.(done := true, err := !(hasPunch && written), doneAt := 0)), PostIf(punch.ie, q, PUNCH, 4))
    }

    function ReaderDue(q: Queue, now: nat, ch: Option<nat>): (Pc11, Queue) {
      if reader.busy && reader.doneAt > 0 && now >= reader.doneAt then ReaderService(q, ch) else (this, q)
    }

    function PunchDue(q: Queue, now: nat, written: bool): (Pc11, Queue) {
      if !punch.done && punch.doneAt > 0 && now >= punch.doneAt then PunchService(q, written) else (this, q)
    }

    function Tick(q: Queue, now: nat, ch: Option<nat>, written: bool): (Pc11, Queue) {
      if !initL then (this, q) else
      var (p, q1) := ReaderDue(q, now, ch);
      p.PunchDue(q1, now, written)
    }

    function ReadPrs(q: Queue, now: nat, ch: Option<nat>): (Pc11, Queue) {
      if initL then ReaderDue(q, now, ch) else (this, q)
    }

    function ReadPrb(q: Queue): (Pc11, Queue) {
      (this.(reader := reader.(done := false)), Cancelled(q, READER))
    }

    function ReadPps(q: Queue, now: nat, written: bool): (Pc11, Queue) {
      if initL then PunchDue(q, now, written) else (this, q)
    }

    // GO starts the reader, or fails at once without a tape.
    function Start(q: Queue, now: nat): (Pc11, Queue) {
      var q1 := Cancelled(q, READER);
      if hasReader then
        (this.(reader := reader.(done := false, err := false, busy := true, doneAt := now + readerTime)), q1)
      else
        (this.(reader := reader.(done := true, err := true, busy := false)), PostIf(reader.ie, q1, READER, 4))
    }

    function SetReaderEnable(q: Queue, data: nat): (Pc11, Queue) {
      var q1 := PostIf(!reader.ie && Enable(data) && (reader.done || reader.err), q, READER, 4);
      (this.(reader := reader.(ie := Enable(data))), CancelIf(reader.ie && !Enable(data), q1, READER))
    }

    function WritePrs(q: Queue, data: nat, now: nat): (Pc11, Queue) {
      if !initL then (this, q) else
      var (p, q1) := SetReaderEnable(q, data);
      if Go(data) && !reader.busy then p.Start(q1, now) else (p, q1)
    }

    function WritePps(q: Queue, data: nat): (Pc11, Queue) {
      if !initL then (this, q) else
      var q1 := PostIf(!punch.ie && Enable(data) && (punch.done || punch.err), q, PUNCH, 4);
      (this.(punch := punch.(ie := Enable(data))), CancelIf(punch.ie && !Enable(data), q1, PUNCH))
    }

    function WritePpb(q: Queue, data: nat, now: nat): (Pc11, Queue) {
      if !initL then (this, q) else
      var q1 := Cancelled(q, PUNCH);
      var p := punch.(ppb := data % 256);
      if hasPunch then
        (this.(punch := p.(done := false, doneAt := now + punchTime)), q1)
      else
        (this.(punch := p.(done := true, err := true)), PostIf(punch.ie, q1, PUNCH, 4))
    }

    function BusInit(q: Queue, level: bool): (Pc11, Queue) {
      if level then (this.(initL := true), q) else
      (this.(initL := false, reader := reader.(busy := false, done := false, ie := false, doneAt := 0),
             punch := punch.(done := true, ie := false, doneAt := 0)),
       Cancelled(Cancelled(q, READER), PUNCH))
    }

    predicate Enabled(q: Queue) {
      && (READER in VectorsOf(q) ==> reader.ie)
      && (PUNCH in VectorsOf(q) ==> punch.ie)
    }
  }

  // ----- The machine -----

  datatype Fabric = Fabric(dl: Dl11, kw: Kw11, pc: Pc11, queue: Queue)
  {
    /** What holds between any two events. */
    predicate Inv() {
      && Distinct(queue) && VectorsOf(queue) <= DEVICE_VECTORS
      && dl.Enabled(queue) && kw.Enabled(queue) && pc.Enabled(queue)
    }
  }

  // Everything that can happen to the devices and the queue. The disks only post
  // and withdraw; what they do otherwise is modelled elsewhere.
  datatype Event =
    | DlTick(now: nat, rx: Option<nat>)
    | DlReadRcsr(rx: Option<nat>)
    | DlReadRbuf
    | DlReadXcsr(now: nat)
    | DlWriteRcsr(data: nat)
    | DlWriteXcsr(data: nat)
    | DlWriteXbuf(now: nat)
    | KwTick(now: nat)
    | KwWrite(data: nat)
    | PcTick(now: nat, ch: Option<nat>, written: bool)
    | PcReadPrs(now: nat, ch: Option<nat>)
    | PcReadPrb
    | PcReadPps(now: nat, written: bool)
    | PcWritePrs(data: nat, now: nat)
    | PcWritePps(data: nat)
    | PcWritePpb(data: nat, now: nat)
    | RkDone
    | RlDone
    | BusInit(level: bool)
    | Acknowledge(cpuPriority: nat)
    | CpuReset

  // INIT goes to the devices in the order in which they are on the bus: the console line
  // and the disks, then the line clock and the paper tape.
  function InitFront(f: Fabric, level: bool): Fabric {
    var g := DlStep(f, f.dl.BusInit(f.queue, level));
    g.(queue := CancelIf(!level, CancelIf(!level, g.queue, RK_DISK), RL_DISK))
  }

  function InitBack(f: Fabric, level: bool): Fabric {
    var g := KwStep(f, f.kw.BusInit(f.queue, level));
    PcStep(g, g.pc.BusInit(g.queue, level))
  }

  function Init(f: Fabric, level: bool): Fabric { InitBack(InitFront(f, level), level) }

  function DlStep(f: Fabric, r: (Dl11, Queue)): Fabric { f.(dl := r.0, queue := r.1) }
  function KwStep(f: Fabric, r: (Kw11, Queue)): Fabric { f.(kw := r.0, queue := r.1) }
  function PcStep(f: Fabric, r: (Pc11, Queue)): Fabric { f.(pc := r.0, queue := r.1) }

  // The granted request leaves the queue, if there is one.
  function TakeOut(f: Fabric, i: int): Fabric
    requires i < |f.queue|
  {
    if i < 0 then f else f.(queue := SwapRemove(f.queue, i))
  }

  function Step(f: Fabric, e: Event): Fabric {
    var q := f.queue;
    match e
    case DlTick(now, rx) => DlStep(f, f.dl.Tick(q, now, rx))
    case DlReadRcsr(rx) => f.(dl := f.dl.ReadRcsr(rx))
    case DlReadRbuf => f.(dl := f.dl.ReadRbuf())
    case DlReadXcsr(now) => DlStep(f, f.dl.ReadXcsr(q, now))
    case DlWriteRcsr(data) => DlStep(f, f.dl.WriteRcsr(q, data))
    case DlWriteXcsr(data) => DlStep(f, f.dl.WriteXcsr(q, data))
    case DlWriteXbuf(now) => f.(dl := f.dl.WriteXbuf(now))
    case KwTick(now) => KwStep(f, f.kw.Tick(q, now))
    case KwWrite(data) => KwStep(f, f.kw.Write(q, data))
    case PcTick(now, ch, written) => PcStep(f, f.pc.Tick(q, now, ch, written))
    case PcReadPrs(now, ch) => PcStep(f, f.pc.ReadPrs(q, now, ch))
    case PcReadPrb => PcStep(f, f.pc.ReadPrb(q))
    case PcReadPps(now, written) => PcStep(f, f.pc.ReadPps(q, now, written))
    case PcWritePrs(data, now) => PcStep(f, f.pc.WritePrs(q, data, now))
    case PcWritePps(data) => PcStep(f, f.pc.WritePps(q, data))
    case PcWritePpb(data, now) => PcStep(f, f.pc.WritePpb(q, data, now))
    case RkDone => f.(queue := Posted(q, RK_DISK, 5))
    case RlDone => f.(queue := Posted(q, RL_DISK, 5))
    case BusInit(level) => Init(f, level)
    case Acknowledge(cpu) => TakeOut(f, Pending(q, cpu))
    case CpuReset => f.(queue := [])
  }

  function Run(f: Fabric, events: seq<Event>): Fabric {
    if events == [] then f else Step(Run(f, events[..|events| - 1]), events[|events| - 1])
  }

  // ----- Power up -----

  // The console line runs at 9600 baud if no rate is given, and the clock at 60 Hz.
  function NewDl(baud: nat): Dl11 {
    Dl11(true, false, false, 0, true, false, 0, 10_000_000_000 / if baud == 0 then 9600 else baud)
  }

  function NewKw(hz: nat): Kw11 {
    Kw11(true, false, false, 0, 1_000_000_000 / if hz == 0 then 60 else hz)
  }

  function NewPc(hasReader: bool, hasPunch: bool): Pc11 {
    Pc11(true, Reader(false, false, false, false, 0, 0), Punch(false, true, false, 0, 0), hasReader, hasPunch, 3_333_333, 20_000_000)
  }

  function PowerUp(hz: nat, hasReader: bool, hasPunch: bool): Fabric {
    Fabric(NewDl(9600), NewKw(hz), NewPc(hasReader, hasPunch), [])
  }

  // ----- The invariant -----

  // A queue that may have lost or gained requests, but only of these vectors.
  predicate Touches(q: Queue, q': Queue, own: set<nat>) {
    && Distinct(q') && VectorsOf(q') <= VectorsOf(q) + own && VectorsOf(q) <= VectorsOf(q') + own
  }

  lemma PostIfFacts(c: bool, q: Queue, vector: nat, priority: nat)
    requires Distinct(q)
    ensures var q' := PostIf(c, q, vector, priority);
      && Touches(q, q', {vector})
      && (vector in VectorsOf(q') ==> vector in VectorsOf(q) || c)
  {
    PostedVectors(q, vector, priority);
  }

  lemma CancelIfFacts(c: bool, q: Queue, vector: nat)
    requires Distinct(q)
    ensures var q' := CancelIf(c, q, vector);
      && Touches(q, q', {vector})
      && (vector in VectorsOf(q') ==> vector in VectorsOf(q) && !c)
  {
    CancelledVectors(q, vector);
  }

  // What each device keeps: only its own vectors move, and what is pending of
  // them stays enabled.
  predicate DlKeeps(q: Queue, r: (Dl11, Queue)) {
    Touches(q, r.1, {TTY_IN, TTY_OUT}) && r.0.Enabled(r.1)
  }

  predicate KwKeeps(q: Queue, r: (Kw11, Queue)) {
    Touches(q, r.1, {LINE_CLOCK}) && r.0.Enabled(r.1)
  }

  predicate PcKeeps(q: Queue, r: (Pc11, Queue)) {
    Touches(q, r.1, {READER, PUNCH}) && r.0.Enabled(r.1)
  }

  // What a device finds at every access.
  predicate DlHolds(d: Dl11, q: Queue) {
    Distinct(q) && VectorsOf(q) <= DEVICE_VECTORS && d.Enabled(q)
  }

  lemma DlHoldsOn(d: Dl11, q: Queue, r: (Dl11, Queue))
    requires DlHolds(d, q) && DlKeeps(q, r)
    ensures DlHolds(r.0, r.1)
  {}

  predicate KwHolds(d: Kw11, q: Queue) {
    Distinct(q) && VectorsOf(q) <= DEVICE_VECTORS && d.Enabled(q)
  }

  lemma KwHoldsOn(d: Kw11, q: Queue, r: (Kw11, Queue))
    requires KwHolds(d, q) && KwKeeps(q, r)
    ensures KwHolds(r.0, r.1)
  {}

  predicate PcHolds(d: Pc11, q: Queue) {
    Distinct(q) && VectorsOf(q) <= DEVICE_VECTORS && d.Enabled(q)
  }

  lemma PcHoldsOn(d: Pc11, q: Queue, r: (Pc11, Queue))
    requires PcHolds(d, q) && PcKeeps(q, r)
    ensures PcHolds(r.0, r.1)
  {}

  lemma DlServiceKeeps(d: Dl11, q: Queue, now: nat, rx: Option<nat>)
    requires Distinct(q) && d.Enabled(q)
    ensures DlKeeps(q, d.ReadXcsr(q, now)) && DlKeeps(q, d.Tick(q, now, rx))
  {
    var (d1, q1) := d.Transmitted(q, now);
    PostIfFacts(d.xmitIe, q, TTY_OUT, 4);
    PostIfFacts(!d1.rcvDone && rx.Some? && d1.rcvIe, q1, TTY_IN, 4);
  }

  lemma DlWriteRcsrKeeps(d: Dl11, q: Queue, data: nat)
    requires Distinct(q) && d.Enabled(q)
    ensures DlKeeps(q, d.WriteRcsr(q, data))
  {
    var ready := !d.rcvIe && Enable(data) && d.rcvDone;
    PostIfFacts(ready, q, TTY_IN, 4);
    CancelIfFacts(d.rcvIe && !Enable(data), PostIf(ready, q, TTY_IN, 4), TTY_IN);
  }

  lemma DlWriteXcsrKeeps(d: Dl11, q: Queue, data: nat)
    requires Distinct(q) && d.Enabled(q)
    ensures DlKeeps(q, d.WriteXcsr(q, data))
  {
    var ready := !d.xmitIe && Enable(data) && d.xmitReady;
    PostIfFacts(ready, q, TTY_OUT, 4);
    CancelIfFacts(d.xmitIe && !Enable(data), PostIf(ready, q, TTY_OUT, 4), TTY_OUT);
  }

  lemma DlInitKeeps(d: Dl11, q: Queue, level: bool)
    requires Distinct(q) && d.Enabled(q)
    ensures DlKeeps(q, d.BusInit(q, level))
  {
    CancelIfFacts(true, q, TTY_IN);
    CancelIfFacts(true, Cancelled(q, TTY_IN), TTY_OUT);
  }

  lemma KwOperations(k: Kw11, q: Queue, now: nat, data: nat, level: bool)
    requires Distinct(q) && k.Enabled(q)
    ensures KwKeeps(q, k.Tick(q, now)) && KwKeeps(q, k.Write(q, data)) && KwKeeps(q, k.BusInit(q, level))
  {
    PostIfFacts(k.ie, q, LINE_CLOCK, 6);
    CancelIfFacts(!Enable(data), q, LINE_CLOCK);
    CancelIfFacts(true, q, LINE_CLOCK);
  }

  lemma ServiceKeeps(p: Pc11, q: Queue, ch: Option<nat>, written: bool)
    requires Distinct(q) && p.Enabled(q)
    ensures PcKeeps(q, p.ReaderService(q, ch)) && PcKeeps(q, p.PunchService(q, written))
  {
    PostIfFacts(p.reader.ie, q, READER, 4);
    PostIfFacts(p.punch.ie, q, PUNCH, 4);
  }

  lemma ReaderDueKeeps(p: Pc11, q: Queue, now: nat, ch: Option<nat>)
    requires Distinct(q) && p.Enabled(q)
    ensures PcKeeps(q, p.ReaderDue(q, now, ch)) && PcKeeps(q, p.ReadPrs(q, now, ch))
  {
    PostIfFacts(p.reader.ie, q, READER, 4);
  }

  lemma ReadPrbKeeps(p: Pc11, q: Queue)
    requires Distinct(q) && p.Enabled(q)
    ensures PcKeeps(q, p.ReadPrb(q))
  {
    CancelIfFacts(true, q, READER);
  }

  lemma StartKeeps(p: Pc11, q: Queue, now: nat)
    requires Distinct(q) && p.Enabled(q)
    ensures PcKeeps(q, p.Start(q, now))
  {
    PostIfFacts(p.reader.ie, q, READER, 4);
    CancelIfFacts(true, q, READER);
    PostIfFacts(p.reader.ie, Cancelled(q, READER), READER, 4);
  }

  lemma PunchDueKeeps(p: Pc11, q: Queue, now: nat, written: bool)
    requires Distinct(q) && p.Enabled(q)
    ensures PcKeeps(q, p.PunchDue(q, now, written)) && PcKeeps(q, p.ReadPps(q, now, written))
  {
    PostIfFacts(p.punch.ie, q, PUNCH, 4);
  }

  lemma WritePpsKeeps(p: Pc11, q: Queue, data: nat)
    requires Distinct(q) && p.Enabled(q)
    ensures PcKeeps(q, p.WritePps(q, data))
  {
    var ready := !p.punch.ie && Enable(data) && (p.punch.done || p.punch.err);
    PostIfFacts(ready, q, PUNCH, 4);
    CancelIfFacts(p.punch.ie && !Enable(data), PostIf(ready, q, PUNCH, 4), PUNCH);
  }

  lemma WritePpbKeeps(p: Pc11, q: Queue, data: nat, now: nat)
    requires Distinct(q) && p.Enabled(q)
    ensures PcKeeps(q, p.WritePpb(q, data, now))
  {
    CancelIfFacts(true, q, PUNCH);
    PostIfFacts(p.punch.ie, Cancelled(q, PUNCH), PUNCH, 4);
  }

  lemma PcTickKeeps(p: Pc11, q: Queue, now: nat, ch: Option<nat>, written: bool)
    requires Distinct(q) && p.Enabled(q)
    ensures PcKeeps(q, p.Tick(q, now, ch, written))
  {
    var (p1, q1) := p.ReaderDue(q, now, ch);
    ReaderDueKeeps(p, q, now, ch);
    PunchDueKeeps(p1, q1, now, written);
  }

  lemma ReaderEnableKeeps(p: Pc11, q: Queue, data: nat)
    requires Distinct(q) && p.Enabled(q)
    ensures PcKeeps(q, p.SetReaderEnable(q, data))
  {
    var ready := !p.reader.ie && Enable(data) && (p.reader.done || p.reader.err);
    PostIfFacts(ready, q, READER, 4);
    CancelIfFacts(p.reader.ie && !Enable(data), PostIf(ready, q, READER, 4), READER);
  }

  lemma WritePrsKeeps(p: Pc11, q: Queue, data: nat, now: nat)
    requires Distinct(q) && p.Enabled(q)
    ensures PcKeeps(q, p.WritePrs(q, data, now))
  {
    var (p1, q1) := p.SetReaderEnable(q, data);
    ReaderEnableKeeps(p, q, data);
    StartKeeps(p1, q1, now);
  }

  lemma PcInitKeeps(p: Pc11, q: Queue, level: bool)
    requires Distinct(q) && p.Enabled(q)
    ensures PcKeeps(q, p.BusInit(q, level))
  {
    CancelIfFacts(true, q, READER);
    CancelIfFacts(true, Cancelled(q, READER), PUNCH);
  }

  lemma DlStepInv(f: Fabric, r: (Dl11, Queue))
    requires f.Inv() && DlKeeps(f.queue, r)
    ensures DlStep(f, r).Inv()
  {}

  lemma KwStepInv(f: Fabric, r: (Kw11, Queue))
    requires f.Inv() && KwKeeps(f.queue, r)
    ensures KwStep(f, r).Inv()
  {}

  lemma PcStepInv(f: Fabric, r: (Pc11, Queue))
    requires f.Inv() && PcKeeps(f.queue, r)
    ensures PcStep(f, r).Inv()
  {}

  lemma DiskCancelInv(f: Fabric, c: bool, vector: nat)
    requires f.Inv() && (vector == RK_DISK || vector == RL_DISK)
    ensures f.(queue := CancelIf(c, f.queue, vector)).Inv()
  {
    CancelIfFacts(c, f.queue, vector);
  }

  lemma InitFrontKeeps(f: Fabric, level: bool)
    requires f.Inv()
    ensures InitFront(f, level).Inv()
  {
    DlInitKeeps(f.dl, f.queue, level);
    var g := DlStep(f, f.dl.BusInit(f.queue, level));
    DlStepInv(f, f.dl.BusInit(f.queue, level));
    DiskCancelInv(g, !level, RK_DISK);
    DiskCancelInv(g.(queue := CancelIf(!level, g.queue, RK_DISK)), !level, RL_DISK);
  }

  lemma InitBackKeeps(f: Fabric, level: bool)
    requires f.Inv()
    ensures KwStep(f, f.kw.BusInit(f.queue, level)).Inv() && InitBack(f, level).Inv()
  {
    KwOperations(f.kw, f.queue, 0, 0, level);
    var g := KwStep(f, f.kw.BusInit(f.queue, level));
    KwStepInv(f, f.kw.BusInit(f.queue, level));
    PcInitKeeps(g.pc, g.queue, level);
    PcStepInv(g, g.pc.BusInit(g.queue, level));
  }

  lemma InitKeeps(f: Fabric, level: bool)
    requires f.Inv()
    ensures Init(f, level).Inv()
  {
    InitFrontKeeps(f, level);
    InitBackKeeps(InitFront(f, level), level);
  }

  predicate DlEvent(e: Event) {
    e.DlTick? || e.DlReadXcsr? || e.DlWriteRcsr? || e.DlWriteXcsr?
  }

  predicate PcEvent(e: Event) {
    e.PcTick? || e.PcReadPrs? || e.PcReadPrb? || e.PcReadPps? || e.PcWritePrs? || e.PcWritePps? || e.PcWritePpb?
  }

  lemma DlEventKeepsInv(f: Fabric, e: Event)
    requires f.Inv() && DlEvent(e)
    ensures Step(f, e).Inv()
  {
    var q := f.queue;
    match e {
      case DlTick(now, rx) =>
        DlServiceKeeps(f.dl, q, now, rx);
        DlStepInv(f, f.dl.Tick(q, now, rx));
      case DlReadXcsr(now) =>
        DlServiceKeeps(f.dl, q, now, None);
        DlStepInv(f, f.dl.ReadXcsr(q, now));
      case DlWriteRcsr(data) =>
        DlWriteRcsrKeeps(f.dl, q, data);
        DlStepInv(f, f.dl.WriteRcsr(q, data));
      case DlWriteXcsr(data) =>
        DlWriteXcsrKeeps(f.dl, q, data);
        DlStepInv(f, f.dl.WriteXcsr(q, data));
    }
  }

  lemma PcEventKeepsInv(f: Fabric, e: Event)
    requires f.Inv() && PcEvent(e)
    ensures Step(f, e).Inv()
  {
    var q := f.queue;
    match e {
      case PcTick(now, ch, written) =>
        PcTickKeeps(f.pc, q, now, ch, written);
        PcStepInv(f, f.pc.Tick(q, now, ch, written));
      case PcReadPrs(now, ch) =>
        ReaderDueKeeps(f.pc, q, now, ch);
        PcStepInv(f, f.pc.ReadPrs(q, now, ch));
      case PcReadPrb =>
        ReadPrbKeeps(f.pc, q);
        PcStepInv(f, f.pc.ReadPrb(q));
      case PcReadPps(now, written) =>
        PunchDueKeeps(f.pc, q, now, written);
        PcStepInv(f, f.pc.ReadPps(q, now, written));
      case PcWritePrs(data, now) =>
        WritePrsKeeps(f.pc, q, data, now);
        PcStepInv(f, f.pc.WritePrs(q, data, now));
      case PcWritePps(data) =>
        WritePpsKeeps(f.pc, q, data);
        PcStepInv(f, f.pc.WritePps(q, data));
      case PcWritePpb(data, now) =>
        WritePpbKeeps(f.pc, q, data, now);
        PcStepInv(f, f.pc.WritePpb(q, data, now));
    }
  }

  lemma KwEventKeepsInv(f: Fabric, now: nat, data: nat)
    requires f.Inv()
    ensures Step(f, KwTick(now)).Inv() && Step(f, KwWrite(data)).Inv()
  {
    KwOperations(f.kw, f.queue, now, data, true);
    KwStepInv(f, f.kw.Tick(f.queue, now));
    KwStepInv(f, f.kw.Write(f.queue, data));
  }

  lemma QueueInv(f: Fabric, q: Queue)
    requires f.Inv() && Distinct(q) && VectorsOf(q) <= VectorsOf(f.queue) + {RK_DISK, RL_DISK}
    ensures f.(queue := q).Inv()
  {}

  lemma TakeOutKeepsInv(f: Fabric, i: int)
    requires f.Inv() && i < |f.queue|
    ensures TakeOut(f, i).Inv()
  {
    if i >= 0 {
      SwapRemoveVectors(f.queue, i);
      QueueInv(f, SwapRemove(f.queue, i));
    }
  }

  // The queue after the pending request is taken, if there is one.
  predicate Taken(q: Queue, priority: nat, q': Queue) {
    var i := Pending(q, priority);
    q' == if i < 0 then q else SwapRemove(q, i)
  }

  lemma AcknowledgeTakes(f: Fabric, priority: nat, q: Queue)
    requires f.Inv() && Taken(f.queue, priority, q)
    ensures Step(f, Acknowledge(priority)) == f.(queue := q) && f.(queue := q).Inv()
  {
    TakeOutKeepsInv(f, Pending(f.queue, priority));
  }

  lemma DiskPostKeepsInv(f: Fabric, vector: nat)
    requires f.Inv() && (vector == RK_DISK || vector == RL_DISK)
    ensures f.(queue := Posted(f.queue, vector, 5)).Inv()
  {
    PostedVectors(f.queue, vector, 5);
    QueueInv(f, Posted(f.queue, vector, 5));
  }

  /** Every event keeps the invariant. */
  lemma StepKeepsInv(f: Fabric, e: Event)
    requires f.Inv()
    ensures Step(f, e).Inv()
  {
    if DlEvent(e) {
      DlEventKeepsInv(f, e);
    } else if PcEvent(e) {
      PcEventKeepsInv(f, e);
    } else {
      match e {
        case KwTick(now) => KwEventKeepsInv(f, now, 0);
        case KwWrite(data) => KwEventKeepsInv(f, 0, data);
        case BusInit(level) => InitKeeps(f, level);
        case DlReadRcsr(_) =>
        case DlReadRbuf =>
        case DlWriteXbuf(_) =>
        case RkDone => DiskPostKeepsInv(f, RK_DISK);
        case RlDone => DiskPostKeepsInv(f, RL_DISK);
        case CpuReset =>
        case Acknowledge(cpu) =>
          TakeOutKeepsInv(f, Pending(f.queue, cpu));
          assert Step(f, e) == TakeOut(f, Pending(f.queue, cpu));
      }
    }
  }

  /** In any run, a pending request of an interruptible line has its enable bit set,
      the queue holds each vector once, and it always has room for another. */
  lemma {:induction false} RunKeepsInv(f: Fabric, events: seq<Event>)
    requires f.Inv()
    ensures Run(f, events).Inv() && |Run(f, events).queue| < MAX_PENDING
  {
    if events != [] {
      RunKeepsInv(f, events[..|events| - 1]);
      StepKeepsInv(Run(f, events[..|events| - 1]), events[|events| - 1]);
    }
    DevicesFit(Run(f, events).queue);
  }

  /** So it is from power up on. */
  lemma {:induction false} ReachableInv(hz: nat, hasReader: bool, hasPunch: bool, events: seq<Event>)
    ensures var f := Run(PowerUp(hz, hasReader, hasPunch), events);
      f.Inv() && |f.queue| < MAX_PENDING
  {
    RunKeepsInv(PowerUp(hz, hasReader, hasPunch), events);
  }

  /** So no request is ever dropped. */
  lemma {:induction false} RequestNeverDropped(f: Fabric, events: seq<Event>, vector: nat, priority: nat)
    requires f.Inv() && vector in DEVICE_VECTORS
    ensures vector in VectorsOf(Posted(Run(f, events).queue, vector, priority))
  {
    RunKeepsInv(f, events);
    PostedVectors(Run(f, events).queue, vector, priority);
  }

  lemma DlClearingWithdraws(f: Fabric, data: nat)
    requires f.Inv() && !Enable(data) && f.dl.initL
    ensures TTY_IN !in VectorsOf(Step(f, DlWriteRcsr(data)).queue)
    ensures TTY_OUT !in VectorsOf(Step(f, DlWriteXcsr(data)).queue)
  {
    StepKeepsInv(f, DlWriteRcsr(data));
    StepKeepsInv(f, DlWriteXcsr(data));
  }

  lemma KwClearingWithdraws(f: Fabric, data: nat)
    requires f.Inv() && !Enable(data) && f.kw.initL
    ensures LINE_CLOCK !in VectorsOf(Step(f, KwWrite(data)).queue)
  {
    StepKeepsInv(f, KwWrite(data));
  }

  lemma PcClearingWithdraws(f: Fabric, data: nat, now: nat)
    requires f.Inv() && !Enable(data) && f.pc.initL
    ensures READER !in VectorsOf(Step(f, PcWritePrs(data, now)).queue)
    ensures PUNCH !in VectorsOf(Step(f, PcWritePps(data)).queue)
  {
    StepKeepsInv(f, PcWritePrs(data, now));
    StepKeepsInv(f, PcWritePps(data));
  }

  /** A write that clears an enable bit withdraws the request at once. */
  lemma ClearingWithdraws(f: Fabric, data: nat, now: nat)
    requires f.Inv() && !Enable(data)
    ensures f.dl.initL ==> TTY_IN !in VectorsOf(Step(f, DlWriteRcsr(data)).queue)
    ensures f.dl.initL ==> TTY_OUT !in VectorsOf(Step(f, DlWriteXcsr(data)).queue)
    ensures f.kw.initL ==> LINE_CLOCK !in VectorsOf(Step(f, KwWrite(data)).queue)
    ensures f.pc.initL ==> READER !in VectorsOf(Step(f, PcWritePrs(data, now)).queue)
    ensures f.pc.initL ==> PUNCH !in VectorsOf(Step(f, PcWritePps(data)).queue)
  {
    if f.dl.initL { DlClearingWithdraws(f, data); }
    if f.kw.initL { KwClearingWithdraws(f, data); }
    if f.pc.initL { PcClearingWithdraws(f, data, now); }
  }

  // ----- Requests without their cause -----

  // A pending request of the console line has its DONE or READY bit set.
  predicate Backed(f: Fabric) {
    && (TTY_IN in VectorsOf(f.queue) ==> f.dl.rcvDone)
    && (TTY_OUT in VectorsOf(f.queue) ==> f.dl.xmitReady)
  }

  // Reading the received character, or writing the next one, clears the bit.
  predicate TakesCauseAway(f: Fabric, e: Event) {
    || (e.DlReadRbuf? && TTY_IN in VectorsOf(f.queue))
    || (e.DlWriteXbuf? && f.dl.initL && TTY_OUT in VectorsOf(f.queue))
  }

  lemma DlEventBacked(f: Fabric, e: Event)
    requires f.Inv() && Backed(f) && DlEvent(e)
    ensures Backed(Step(f, e))
  {
    var (d, q) := (f.dl, f.queue);
    match e {
      case DlTick(now, rx) =>
        var (d1, q1) := d.Transmitted(q, now);
        PostIfFacts(d.xmitIe, q, TTY_OUT, 4);
        PostIfFacts(!d1.rcvDone && rx.Some? && d1.rcvIe, q1, TTY_IN, 4);
      case DlReadXcsr(now) =>
        PostIfFacts(d.xmitIe, q, TTY_OUT, 4);
      case DlWriteRcsr(data) =>
        var ready := !d.rcvIe && Enable(data) && d.rcvDone;
        PostIfFacts(ready, q, TTY_IN, 4);
        CancelIfFacts(d.rcvIe && !Enable(data), PostIf(ready, q, TTY_IN, 4), TTY_IN);
      case DlWriteXcsr(data) =>
        var ready := !d.xmitIe && Enable(data) && d.xmitReady;
        PostIfFacts(ready, q, TTY_OUT, 4);
        CancelIfFacts(d.xmitIe && !Enable(data), PostIf(ready, q, TTY_OUT, 4), TTY_OUT);
    }
  }

  // Steps that leave the line alone and bring it no request.
  lemma OthersBacked(f: Fabric, f': Fabric)
    requires Backed(f) && f'.dl == f.dl && VectorsOf(f'.queue) <= VectorsOf(f.queue) + (DEVICE_VECTORS - {TTY_IN, TTY_OUT})
    ensures Backed(f')
  {}

  lemma PcEventTouches(f: Fabric, e: Event)
    requires f.Inv() && PcEvent(e)
    ensures Step(f, e).dl == f.dl && Touches(f.queue, Step(f, e).queue, {READER, PUNCH})
  {
    var (p, q) := (f.pc, f.queue);
    match e {
      case PcTick(now, ch, written) => PcTickKeeps(p, q, now, ch, written);
      case PcReadPrs(now, ch) => ReaderDueKeeps(p, q, now, ch);
      case PcReadPrb => ReadPrbKeeps(p, q);
      case PcReadPps(now, written) => PunchDueKeeps(p, q, now, written);
      case PcWritePrs(data, now) => WritePrsKeeps(p, q, data, now);
      case PcWritePps(data) => WritePpsKeeps(p, q, data);
      case PcWritePpb(data, now) => WritePpbKeeps(p, q, data, now);
    }
  }

  lemma InitBacked(f: Fabric, level: bool)
    requires f.Inv() && Backed(f)
    ensures Backed(Init(f, level))
  {
    InitKeeps(f, level);
    DlInitKeeps(f.dl, f.queue, level);
    var f1 := DlStep(f, f.dl.BusInit(f.queue, level));
    if level {
      KwOperations(f.kw, f.queue, 0, 0, level);
      PcInitKeeps(f.pc, f.queue, level);
    }
  }

  /** Only these two events can leave a request without its cause, and they do whenever it
      is still pending: no other register access, tick, INIT or acknowledge does. */
  lemma BackedIff(f: Fabric, e: Event)
    requires f.Inv() && Backed(f)
    ensures Backed(Step(f, e)) <==> !TakesCauseAway(f, e)
  {
    if DlEvent(e) {
      DlEventBacked(f, e);
    } else if PcEvent(e) {
      PcEventTouches(f, e);
      OthersBacked(f, Step(f, e));
    } else {
      match e {
        case KwTick(now) => KwOperations(f.kw, f.queue, now, 0, true); OthersBacked(f, Step(f, e));
        case KwWrite(data) => KwOperations(f.kw, f.queue, 0, data, true); OthersBacked(f, Step(f, e));
        case BusInit(level) => InitBacked(f, level);
        case DlReadRcsr(_) =>
        case DlReadRbuf =>
        case DlWriteXbuf(_) =>
        case RkDone => PostedVectors(f.queue, RK_DISK, 5); OthersBacked(f, Step(f, e));
        case RlDone => PostedVectors(f.queue, RL_DISK, 5); OthersBacked(f, Step(f, e));
        case CpuReset =>
        case Acknowledge(cpu) =>
          var i := Pending(f.queue, cpu);
          if i >= 0 { SwapRemoveVectors(f.queue, i); }
          OthersBacked(f, Step(f, e));
      }
    }
  }

  // A receiver that is enabled and free gets a character, and it is read.
  lemma {:induction false} StaleReceive(f: Fabric, now: nat, ch: nat)
    requires f.Inv() && f.dl.initL && f.dl.rcvIe && !f.dl.rcvDone
    ensures var g := Step(Step(f, DlTick(now, Some(ch))), DlReadRbuf);
      TTY_IN in VectorsOf(g.queue) && !g.dl.rcvDone
  {
    var (d1, q1) := f.dl.Transmitted(f.queue, now);
    PostIfFacts(f.dl.xmitIe, f.queue, TTY_OUT, 4);
    DevicesFit(q1);
    PostedVectors(q1, TTY_IN, 4);
  }

  // A ready transmitter is enabled, and a character is written.
  lemma {:induction false} StaleTransmit(f: Fabric, now: nat)
    requires f.Inv() && f.dl.initL && f.dl.xmitReady && !f.dl.xmitIe
    ensures var g := Step(Step(f, DlWriteXcsr(64)), DlWriteXbuf(now));
      TTY_OUT in VectorsOf(g.queue) && !g.dl.xmitReady
  {
    DevicesFit(f.queue);
    PostedVectors(f.queue, TTY_OUT, 4);
  }

  /** From power up: with the receiver enabled, a character that is read before its interrupt
      is taken, and with the transmitter enabled, one that is written before. */
  lemma {:induction false} StaleFromPowerUp(f: Fabric)
    requires f == PowerUp(60, false, false)
    ensures f.Inv() && Backed(f)
    ensures var g := Step(Step(Step(f, DlWriteRcsr(64)), DlTick(1, Some(65))), DlReadRbuf);
      TTY_IN in VectorsOf(g.queue) && !g.dl.rcvDone && !Backed(g)
    ensures var g := Step(Step(f, DlWriteXcsr(64)), DlWriteXbuf(1));
      TTY_OUT in VectorsOf(g.queue) && !g.dl.xmitReady && !Backed(g)
  {
    var f1 := Step(f, DlWriteRcsr(64));
    StepKeepsInv(f, DlWriteRcsr(64));
    StaleReceive(f1, 1, 65);
    StaleTransmit(f, 1);
  }
}
