/**
 Which requests are pending, told from the events alone: exactly what brings a request,
 what takes it away, and at which level it stands. `Peripherals` bounds the queue from
 above, this module says that no cause is lost.
 */
module Requests {
  import opened Interrupts
  import opened Peripherals

  // ----- Causes -----

  // The requests that an event brings: a character sent or received, a tick of the line
  // clock, the reader or the punch done, an enable bit that rises with its cause set, a
  // start without a tape, and a disk that is done.
  function Called(f: Fabric, e: Event): set<nat> {
    var (dl, kw, reader, punch) := (f.dl, f.kw, f.pc.reader, f.pc.punch);
    match e
    case DlTick(now, rx) =>
      (if dl.initL && dl.xmitIe && Sent(dl, now) then {TTY_OUT} else {})
      + (if dl.initL && dl.rcvIe && !dl.rcvDone && rx.Some? then {TTY_IN} else {})
    case DlReadXcsr(now) => if dl.xmitIe && Sent(dl, now) then {TTY_OUT} else {}
    case DlWriteRcsr(data) => if dl.initL && !dl.rcvIe && data / 64 % 2 == 1 && dl.rcvDone then {TTY_IN} else {}
    case DlWriteXcsr(data) => if dl.initL && !dl.xmitIe && data / 64 % 2 == 1 && dl.xmitReady then {TTY_OUT} else {}
    case KwTick(now) =>
      if kw.initL && kw.ie && (if kw.nextTick == 0 then kw.interval == 0 else kw.nextTick <= now) then {LINE_CLOCK} else {}
    case PcTick(now, _, _) =>
      (if f.pc.initL && reader.ie && ReadDone(reader, now) then {READER} else {})
      + (if f.pc.initL && punch.ie && PunchDone(punch, now) then {PUNCH} else {})
    case PcReadPrs(now, _) => if f.pc.initL && reader.ie && ReadDone(reader, now) then {READER} else {}
    case PcReadPps(now, _) => if f.pc.initL && punch.ie && PunchDone(punch, now) then {PUNCH} else {}
    case PcWritePrs(data, _) =>
      if f.pc.initL && data / 64 % 2 == 1
         && (if data % 2 == 1 && !reader.busy then !f.pc.hasReader else !reader.ie && (reader.done || reader.err))
      then {READER} else {}
    case PcWritePps(data) =>
      if f.pc.initL && !punch.ie && data / 64 % 2 == 1 && (punch.done || punch.err) then {PUNCH} else {}
    case PcWritePpb(_, _) => if f.pc.initL && punch.ie && !f.pc.hasPunch then {PUNCH} else {}
    case RkDone => {RK_DISK}
    case RlDone => {RL_DISK}
    case _ => {}
  }

  predicate Sent(dl: Dl11, now: nat) { !dl.xmitReady && 0 < dl.txDoneAt <= now }
  predicate ReadDone(reader: Reader, now: nat) { reader.busy && 0 < reader.doneAt <= now }
  predicate PunchDone(punch: Punch, now: nat) { !punch.done && 0 < punch.doneAt <= now }

  // The requests that an event takes away: an enable bit cleared, the reader's buffer read,
  // reader or punch started, INIT, and the grant of the processor.
  function Withdrawn(f: Fabric, e: Event): set<nat> {
    match e
    case DlWriteRcsr(data) => if f.dl.initL && data / 64 % 2 == 0 then {TTY_IN} else {}
    case DlWriteXcsr(data) => if f.dl.initL && data / 64 % 2 == 0 then {TTY_OUT} else {}
    case KwWrite(data) => if f.kw.initL && data / 64 % 2 == 0 then {LINE_CLOCK} else {}
    case PcReadPrb => {READER}
    case PcWritePrs(data, _) =>
      if f.pc.initL && (data / 64 % 2 == 0 || (data % 2 == 1 && !f.pc.reader.busy)) then {READER} else {}
    case PcWritePps(data) => if f.pc.initL && data / 64 % 2 == 0 then {PUNCH} else {}
    case PcWritePpb(_, _) => if f.pc.initL then {PUNCH} else {}
    case BusInit(level) => if level then {} else DEVICE_VECTORS
    case Acknowledge(priority) =>
      var i := Pending(f.queue, priority);
      if i >= 0 then {f.queue[i].vector} else {}
    case CpuReset => DEVICE_VECTORS
    case _ => {}
  }

  // A queue of device requests, each once.
  predicate Good(q: Queue) { Distinct(q) && VectorsOf(q) <= DEVICE_VECTORS }

  lemma PostsExactly(c: bool, q: Queue, vector: nat, priority: nat)
    requires Good(q) && vector in DEVICE_VECTORS
    ensures var q' := PostIf(c, q, vector, priority);
      Good(q') && VectorsOf(q') == VectorsOf(q) + if c then {vector} else {}
  {
    DevicesFit(q);
    PostedVectors(q, vector, priority);
  }

  lemma CancelsExactly(c: bool, q: Queue, vector: nat)
    requires Good(q)
    ensures var q' := CancelIf(c, q, vector);
      Good(q') && VectorsOf(q') == VectorsOf(q) - if c then {vector} else {}
  {
    CancelledVectors(q, vector);
  }

  // What an event is to do to the vectors.
  ghost predicate Moves(f: Fabric, e: Event) {
    VectorsOf(Step(f, e).queue) == VectorsOf(f.queue) - Withdrawn(f, e) + Called(f, e)
  }

  lemma DlMoves(f: Fabric, e: Event)
    requires f.Inv() && DlEvent(e)
    ensures Moves(f, e)
  {
    var (d, q) := (f.dl, f.queue);
    match e {
      case DlTick(now, rx) =>
        var (d1, q1) := d.Transmitted(q, now);
        PostsExactly(d.xmitIe && Sent(d, now), q, TTY_OUT, 4);
        PostsExactly(!d1.rcvDone && rx.Some? && d1.rcvIe, q1, TTY_IN, 4);
      case DlReadXcsr(now) =>
        PostsExactly(d.xmitIe && Sent(d, now), q, TTY_OUT, 4);
      case DlWriteRcsr(data) =>
        var rises := !d.rcvIe && Enable(data) && d.rcvDone;
        PostsExactly(rises, q, TTY_IN, 4);
        CancelsExactly(d.rcvIe && !Enable(data), PostIf(rises, q, TTY_IN, 4), TTY_IN);
      case DlWriteXcsr(data) =>
        var rises := !d.xmitIe && Enable(data) && d.xmitReady;
        PostsExactly(rises, q, TTY_OUT, 4);
        CancelsExactly(d.xmitIe && !Enable(data), PostIf(rises, q, TTY_OUT, 4), TTY_OUT);
    }
  }

  lemma KwMoves(f: Fabric, now: nat, data: nat)
    requires f.Inv()
    ensures Moves(f, KwTick(now)) && Moves(f, KwWrite(data))
  {
    PostsExactly(f.kw.ie, f.queue, LINE_CLOCK, 6);
    CancelsExactly(!Enable(data), f.queue, LINE_CLOCK);
  }

  lemma ReaderDueMoves(p: Pc11, q: Queue, now: nat, ch: Option<nat>)
    requires Good(q)
    ensures var (p', q') := p.ReaderDue(q, now, ch);
      && Good(q') && p'.punch == p.punch
      && VectorsOf(q') == VectorsOf(q) + if p.reader.ie && ReadDone(p.reader, now) then {READER} else {}
  {
    PostsExactly(p.reader.ie, q, READER, 4);
  }

  lemma PunchDueMoves(p: Pc11, q: Queue, now: nat, written: bool)
    requires Good(q)
    ensures var q' := p.PunchDue(q, now, written).1;
      VectorsOf(q') == VectorsOf(q) + if p.punch.ie && PunchDone(p.punch, now) then {PUNCH} else {}
  {
    PostsExactly(p.punch.ie, q, PUNCH, 4);
  }

  lemma PcTickMoves(f: Fabric, now: nat, ch: Option<nat>, written: bool)
    requires f.Inv()
    ensures Moves(f, PcTick(now, ch, written))
  {
    var (p1, q1) := f.pc.ReaderDue(f.queue, now, ch);
    ReaderDueMoves(f.pc, f.queue, now, ch);
    PunchDueMoves(p1, q1, now, written);
  }

  lemma ReadStatusMoves(f: Fabric, now: nat, ch: Option<nat>, written: bool)
    requires f.Inv()
    ensures Moves(f, PcReadPrs(now, ch)) && Moves(f, PcReadPps(now, written))
  {
    ReaderDueMoves(f.pc, f.queue, now, ch);
    PunchDueMoves(f.pc, f.queue, now, written);
  }

  lemma EnableMoves(p: Pc11, q: Queue, data: nat)
    requires Good(q) && p.Enabled(q)
    ensures var q' := p.SetReaderEnable(q, data).1;
      && Good(q')
      && VectorsOf(q') == (VectorsOf(q) - if data / 64 % 2 == 0 then {READER} else {})
           + if !p.reader.ie && data / 64 % 2 == 1 && (p.reader.done || p.reader.err) then {READER} else {}
  {
    var rises := !p.reader.ie && Enable(data) && (p.reader.done || p.reader.err);
    PostsExactly(rises, q, READER, 4);
    CancelsExactly(p.reader.ie && !Enable(data), PostIf(rises, q, READER, 4), READER);
  }

  lemma StartMoves(p: Pc11, q: Queue, now: nat)
    requires Good(q)
    ensures var q' := p.Start(q, now).1;
      VectorsOf(q') == (VectorsOf(q) - {READER}) + if p.reader.ie && !p.hasReader then {READER} else {}
  {
    CancelsExactly(true, q, READER);
    PostsExactly(p.reader.ie, Cancelled(q, READER), READER, 4);
  }

  lemma ReadPrbMoves(f: Fabric)
    requires f.Inv()
    ensures Moves(f, PcReadPrb)
  {
    CancelsExactly(true, f.queue, READER);
  }

  lemma WritePrsMoves(f: Fabric, data: nat, now: nat)
    requires f.Inv()
    ensures Moves(f, PcWritePrs(data, now))
  {
    var (p1, q1) := f.pc.SetReaderEnable(f.queue, data);
    EnableMoves(f.pc, f.queue, data);
    StartMoves(p1, q1, now);
  }

  lemma PcPunchMoves(f: Fabric, data: nat, now: nat)
    requires f.Inv()
    ensures Moves(f, PcWritePps(data)) && Moves(f, PcWritePpb(data, now))
  {
    var (p, q) := (f.pc, f.queue);
    var rises := !p.punch.ie && Enable(data) && (p.punch.done || p.punch.err);
    PostsExactly(rises, q, PUNCH, 4);
    CancelsExactly(p.punch.ie && !Enable(data), PostIf(rises, q, PUNCH, 4), PUNCH);
    CancelsExactly(true, q, PUNCH);
    PostsExactly(p.punch.ie, Cancelled(q, PUNCH), PUNCH, 4);
  }

  lemma InitMoves(f: Fabric, level: bool)
    requires f.Inv()
    ensures Moves(f, BusInit(level))
  {
    if !level {
      var q1 := Cancelled(f.queue, TTY_IN);
      var q2 := Cancelled(q1, TTY_OUT);
      var q3 := Cancelled(q2, RK_DISK);
      var q4 := Cancelled(q3, RL_DISK);
      var q5 := Cancelled(q4, LINE_CLOCK);
      var q6 := Cancelled(q5, READER);
      CancelsExactly(true, f.queue, TTY_IN);
      CancelsExactly(true, q1, TTY_OUT);
      CancelsExactly(true, q2, RK_DISK);
      CancelsExactly(true, q3, RL_DISK);
      CancelsExactly(true, q4, LINE_CLOCK);
      CancelsExactly(true, q5, READER);
      CancelsExactly(true, q6, PUNCH);
      assert Step(f, BusInit(false)).queue == Cancelled(q6, PUNCH);
    }
  }

  lemma GrantMoves(f: Fabric, priority: nat)
    requires f.Inv()
    ensures Moves(f, Acknowledge(priority))
  {
    var i := Pending(f.queue, priority);
    if i >= 0 { SwapRemoveVectors(f.queue, i); }
  }

  /** After any event exactly these requests are pending: those that it brings, and of those
      pending before the ones that it does not take away. */
  lemma PendingExactly(f: Fabric, e: Event)
    requires f.Inv()
    ensures VectorsOf(Step(f, e).queue) == VectorsOf(f.queue) - Withdrawn(f, e) + Called(f, e)
  {
    if DlEvent(e) {
      DlMoves(f, e);
    } else {
      match e {
        case KwTick(now) => KwMoves(f, now, 0);
        case KwWrite(data) => KwMoves(f, 0, data);
        case PcTick(now, ch, written) => PcTickMoves(f, now, ch, written);
        case PcReadPrs(now, ch) => ReadStatusMoves(f, now, ch, true);
        case PcReadPps(now, written) => ReadStatusMoves(f, now, None, written);
        case PcReadPrb => ReadPrbMoves(f);
        case PcWritePrs(data, now) => WritePrsMoves(f, data, now);
        case PcWritePps(data) => PcPunchMoves(f, data, 0);
        case PcWritePpb(data, now) => PcPunchMoves(f, data, now);
        case BusInit(level) => InitMoves(f, level);
        case Acknowledge(priority) => GrantMoves(f, priority);
        case RkDone => PostsExactly(true, f.queue, RK_DISK, 5);
        case RlDone => PostsExactly(true, f.queue, RL_DISK, 5);
        case DlReadRcsr(_) =>
        case DlReadRbuf =>
        case DlWriteXbuf(_) =>
        case CpuReset =>
      }
    }
  }

  // ----- Levels -----

  // The bus request level of each device: 6 for the line clock, 5 for the disks, else 4.
  function LevelOf(vector: nat): nat {
    if vector == LINE_CLOCK then 6 else if vector == RK_DISK || vector == RL_DISK then 5 else 4
  }

  predicate Levelled(q: Queue) {
    forall i :: 0 <= i < |q| ==> q[i].priority == LevelOf(q[i].vector)
  }

  lemma PostKeepsLevels(c: bool, q: Queue, vector: nat, priority: nat)
    requires Levelled(q) && priority == LevelOf(vector)
    ensures Levelled(PostIf(c, q, vector, priority))
  {}

  lemma RemoveKeepsLevels(q: Queue, i: nat)
    requires Levelled(q) && i < |q|
    ensures Levelled(SwapRemove(q, i))
  {}

  lemma CancelKeepsLevels(c: bool, q: Queue, vector: nat)
    requires Levelled(q)
    ensures Levelled(CancelIf(c, q, vector))
  {
    if c && vector in VectorsOf(q) { RemoveKeepsLevels(q, IndexOf(q, vector)); }
  }

  lemma DlKeepsLevels(f: Fabric, e: Event)
    requires Levelled(f.queue) && DlEvent(e)
    ensures Levelled(Step(f, e).queue)
  {
    var (d, q) := (f.dl, f.queue);
    match e {
      case DlTick(now, rx) =>
        var (d1, q1) := d.Transmitted(q, now);
        PostKeepsLevels(d.xmitIe, q, TTY_OUT, 4);
        PostKeepsLevels(!d1.rcvDone && rx.Some? && d1.rcvIe, q1, TTY_IN, 4);
      case DlReadXcsr(now) =>
        PostKeepsLevels(d.xmitIe, q, TTY_OUT, 4);
      case DlWriteRcsr(data) =>
        var q1 := PostIf(!d.rcvIe && Enable(data) && d.rcvDone, q, TTY_IN, 4);
        PostKeepsLevels(!d.rcvIe && Enable(data) && d.rcvDone, q, TTY_IN, 4);
        CancelKeepsLevels(d.rcvIe && !Enable(data), q1, TTY_IN);
      case DlWriteXcsr(data) =>
        var q1 := PostIf(!d.xmitIe && Enable(data) && d.xmitReady, q, TTY_OUT, 4);
        PostKeepsLevels(!d.xmitIe && Enable(data) && d.xmitReady, q, TTY_OUT, 4);
        CancelKeepsLevels(d.xmitIe && !Enable(data), q1, TTY_OUT);
    }
  }

  lemma DueKeepsLevels(p: Pc11, q: Queue, now: nat, ch: Option<nat>, written: bool)
    requires Levelled(q)
    ensures Levelled(p.ReaderDue(q, now, ch).1) && Levelled(p.PunchDue(q, now, written).1)
  {
    PostKeepsLevels(p.reader.ie, q, READER, 4);
    PostKeepsLevels(p.punch.ie, q, PUNCH, 4);
  }

  lemma ReaderKeepsLevels(p: Pc11, q: Queue, data: nat, now: nat)
    requires Levelled(q)
    ensures Levelled(p.SetReaderEnable(q, data).1) && Levelled(p.Start(q, now).1)
  {
    var rises := !p.reader.ie && Enable(data) && (p.reader.done || p.reader.err);
    PostKeepsLevels(rises, q, READER, 4);
    CancelKeepsLevels(p.reader.ie && !Enable(data), PostIf(rises, q, READER, 4), READER);
    CancelKeepsLevels(true, q, READER);
    PostKeepsLevels(p.reader.ie, Cancelled(q, READER), READER, 4);
  }

  lemma PunchKeepsLevels(p: Pc11, q: Queue, data: nat, now: nat)
    requires Levelled(q)
    ensures Levelled(p.WritePps(q, data).1) && Levelled(p.WritePpb(q, data, now).1)
  {
    var rises := !p.punch.ie && Enable(data) && (p.punch.done || p.punch.err);
    PostKeepsLevels(rises, q, PUNCH, 4);
    CancelKeepsLevels(p.punch.ie && !Enable(data), PostIf(rises, q, PUNCH, 4), PUNCH);
    CancelKeepsLevels(true, q, PUNCH);
    PostKeepsLevels(p.punch.ie, Cancelled(q, PUNCH), PUNCH, 4);
  }

  lemma PcKeepsLevels(f: Fabric, e: Event)
    requires Levelled(f.queue) && PcEvent(e)
    ensures Levelled(Step(f, e).queue)
  {
    var (p, q) := (f.pc, f.queue);
    match e {
      case PcTick(now, ch, written) =>
        var (p1, q1) := p.ReaderDue(q, now, ch);
        DueKeepsLevels(p, q, now, ch, written);
        DueKeepsLevels(p1, q1, now, ch, written);
      case PcReadPrs(now, ch) => DueKeepsLevels(p, q, now, ch, true);
      case PcReadPps(now, written) => DueKeepsLevels(p, q, now, None, written);
      case PcReadPrb => CancelKeepsLevels(true, q, READER);
      case PcWritePrs(data, now) =>
        var (p1, q1) := p.SetReaderEnable(q, data);
        ReaderKeepsLevels(p, q, data, now);
        ReaderKeepsLevels(p1, q1, data, now);
      case PcWritePps(data) => PunchKeepsLevels(p, q, data, 0);
      case PcWritePpb(data, now) => PunchKeepsLevels(p, q, data, now);
    }
  }

  lemma InitKeepsLevels(f: Fabric, level: bool)
    requires Levelled(f.queue)
    ensures Levelled(Step(f, BusInit(level)).queue)
  {
    if !level {
      var q1 := Cancelled(f.queue, TTY_IN);
      var q2 := Cancelled(q1, TTY_OUT);
      var q3 := Cancelled(q2, RK_DISK);
      var q4 := Cancelled(q3, RL_DISK);
      var q5 := Cancelled(q4, LINE_CLOCK);
      CancelKeepsLevels(true, f.queue, TTY_IN);
      CancelKeepsLevels(true, q1, TTY_OUT);
      CancelKeepsLevels(true, q2, RK_DISK);
      CancelKeepsLevels(true, q3, RL_DISK);
      CancelKeepsLevels(true, q4, LINE_CLOCK);
      CancelKeepsLevels(true, q5, READER);
      CancelKeepsLevels(true, Cancelled(q5, READER), PUNCH);
      assert Step(f, BusInit(false)).queue == Cancelled(Cancelled(q5, READER), PUNCH);
    }
  }

  /** Every event keeps each request at the level of its device. */
  lemma StepKeepsLevels(f: Fabric, e: Event)
    requires Levelled(f.queue)
    ensures Levelled(Step(f, e).queue)
  {
    if DlEvent(e) {
      DlKeepsLevels(f, e);
    } else if PcEvent(e) {
      PcKeepsLevels(f, e);
    } else {
      match e {
        case KwTick(now) => PostKeepsLevels(f.kw.ie, f.queue, LINE_CLOCK, 6);
        case KwWrite(data) => CancelKeepsLevels(!Enable(data), f.queue, LINE_CLOCK);
        case BusInit(level) => InitKeepsLevels(f, level);
        case Acknowledge(priority) =>
          var i := Pending(f.queue, priority);
          if i >= 0 { RemoveKeepsLevels(f.queue, i); }
        case RkDone => PostKeepsLevels(true, f.queue, RK_DISK, 5);
        case RlDone => PostKeepsLevels(true, f.queue, RL_DISK, 5);
        case DlReadRcsr(_) =>
        case DlReadRbuf =>
        case DlWriteXbuf(_) =>
        case CpuReset =>
      }
    }
  }

  lemma {:induction false} RunKeepsLevels(f: Fabric, events: seq<Event>)
    requires Levelled(f.queue)
    ensures Levelled(Run(f, events).queue)
  {
    if events != [] {
      RunKeepsLevels(f, events[..|events| - 1]);
      StepKeepsLevels(Run(f, events[..|events| - 1]), events[|events| - 1]);
    }
  }

  // ----- Over runs -----

  lemma {:induction false} VectorStands(q: Queue, vector: nat)
    requires Levelled(q) && vector in VectorsOf(q)
    ensures Request(vector, LevelOf(vector)) in q
  {
    var i :| 0 <= i < |q| && q[i].vector == vector;
    assert q[i] == Request(vector, LevelOf(vector));
  }

  /** In every reachable state an event that brings a request leaves it pending, at the level
      of its device. */
  lemma {:induction false} CauseInterrupts(f0: Fabric, events: seq<Event>, e: Event, vector: nat)
    requires f0.Inv() && Levelled(f0.queue) && vector in Called(Run(f0, events), e)
    ensures Request(vector, LevelOf(vector)) in Step(Run(f0, events), e).queue
  {
    var f := Run(f0, events);
    RunKeepsInv(f0, events);
    RunKeepsLevels(f0, events);
    PendingExactly(f, e);
    StepKeepsLevels(f, e);
    VectorStands(Step(f, e).queue, vector);
  }

  /** The processor is granted the first request of the highest level above its own, that one
      leaves and the others stay. If there is none, nothing changes. */
  lemma GrantTakes(f: Fabric, priority: nat)
    requires f.Inv() && priority < 8
    ensures var (i, q) := (Pending(f.queue, priority), Step(f, Acknowledge(priority)).queue);
      if i < 0 then q == f.queue && NoneEligible(f.queue, priority)
      else multiset(q) == multiset(f.queue) - multiset{f.queue[i]} && IsGranted(f.queue, i, priority)
  {
    GrantedIsFirst(f.queue, priority);
    GrantRemoves(f, priority);
  }

  lemma GrantRemoves(f: Fabric, priority: nat)
    requires priority < 8
    ensures var (i, q) := (Pending(f.queue, priority), Step(f, Acknowledge(priority)).queue);
      if i < 0 then q == f.queue else i < |f.queue| && multiset(q) == multiset(f.queue) - multiset{f.queue[i]}
  {
    var i := Pending(f.queue, priority);
    GrantedIsFirst(f.queue, priority);
    if i >= 0 { SwapRemoveIsRemoval(f.queue, i); }
  }

  predicate NoneEligible(q: Queue, priority: nat) {
    forall j :: 0 <= j < |q| ==> !Eligible(q[j], priority)
  }

  // The first request of the highest level above the processor's.
  predicate IsGranted(q: Queue, i: nat, priority: nat) {
    && i < |q| && Eligible(q[i], priority)
    && forall j :: 0 <= j < |q| && Eligible(q[j], priority) ==>
         q[j].priority < q[i].priority || (q[j].priority == q[i].priority && i <= j)
  }

  lemma GrantedIsFirst(q: Queue, priority: nat)
    requires priority < 8
    ensures var i := Pending(q, priority);
      if i < 0 then NoneEligible(q, priority) else IsGranted(q, i, priority)
  {
    PendingIsHighest(q, priority);
  }

  // Events that leave a device alone.
  predicate KeepsDl(e: Event) {
    !DlEvent(e) && !e.DlReadRcsr? && !e.DlReadRbuf? && !e.DlWriteXbuf? && !e.BusInit?
  }
  predicate KeepsKw(e: Event) { !e.KwTick? && !e.KwWrite? && !e.BusInit? }
  predicate KeepsPc(e: Event) { !PcEvent(e) && !e.BusInit? }

  lemma {:induction false} DevicesKept(f: Fabric, events: seq<Event>)
    ensures (forall i :: 0 <= i < |events| ==> KeepsDl(events[i])) ==> Run(f, events).dl == f.dl
    ensures (forall i :: 0 <= i < |events| ==> KeepsKw(events[i])) ==> Run(f, events).kw == f.kw
    ensures (forall i :: 0 <= i < |events| ==> KeepsPc(events[i])) ==> Run(f, events).pc == f.pc
  {
    if events != [] {
      DevicesKept(f, events[..|events| - 1]);
    }
  }

  /** A tick of the line clock one interval after another one, or later, interrupts at level
      6 if it is enabled then. */
  lemma {:induction false} ClockInterrupts(f: Fabric, t: nat, events: seq<Event>, now: nat)
    requires f.Inv() && Levelled(f.queue) && f.kw.initL && f.kw.ie && 0 < f.kw.interval <= now - t
    requires f.kw.nextTick <= t + f.kw.interval && forall i :: 0 <= i < |events| ==> KeepsKw(events[i])
    ensures Request(0x40, 6) in Step(Run(Step(f, KwTick(t)), events), KwTick(now)).queue
  {
    var f1 := Step(f, KwTick(t));
    StepKeepsInv(f, KwTick(t));
    StepKeepsLevels(f, KwTick(t));
    DevicesKept(f1, events);
    assert 0 < f1.kw.nextTick <= t + f.kw.interval;
    CauseInterrupts(f1, events, KwTick(now), LINE_CLOCK);
  }

  /** Its deadline is never further off than that, if no tick was later than t. */
  lemma {:induction false} DeadlineIsNear(f: Fabric, events: seq<Event>, t: nat)
    requires f.kw.nextTick <= t + f.kw.interval
    requires forall i :: 0 <= i < |events| && events[i].KwTick? ==> events[i].now <= t
    ensures var g := Run(f, events); g.kw.interval == f.kw.interval && g.kw.nextTick <= t + f.kw.interval
  {
    if events != [] {
      DeadlineIsNear(f, events[..|events| - 1], t);
      DeadlineStep(Run(f, events[..|events| - 1]), events[|events| - 1], t);
    }
  }

  lemma DeadlineStep(f: Fabric, e: Event, t: nat)
    requires f.kw.nextTick <= t + f.kw.interval && (e.KwTick? ==> e.now <= t)
    ensures var g := Step(f, e); g.kw.interval == f.kw.interval && g.kw.nextTick <= t + f.kw.interval
  {}

  /** A character written to the console line interrupts at level 4 when it has left, one
      character time later. */
  lemma {:induction false} CharacterInterrupts(f: Fabric, t: nat, events: seq<Event>, now: nat, rx: Option<nat>)
    requires f.Inv() && Levelled(f.queue) && f.dl.initL && f.dl.xmitIe && 0 < f.dl.charTime <= now - t
    requires forall i :: 0 <= i < |events| ==> KeepsDl(events[i])
    ensures Request(0x34, 4) in Step(Run(Step(f, DlWriteXbuf(t)), events), DlTick(now, rx)).queue
  {
    var f1 := Step(f, DlWriteXbuf(t));
    StepKeepsInv(f, DlWriteXbuf(t));
    DevicesKept(f1, events);
    CauseInterrupts(f1, events, DlTick(now, rx), TTY_OUT);
  }

  /** A character that arrives while the receiver is free interrupts at level 4. */
  lemma {:induction false} ArrivalInterrupts(f0: Fabric, events: seq<Event>, now: nat, ch: nat)
    requires f0.Inv() && Levelled(f0.queue)
    requires var f := Run(f0, events); f.dl.initL && f.dl.rcvIe && !f.dl.rcvDone
    ensures var g := Step(Run(f0, events), DlTick(now, Some(ch)));
      Request(0x30, 4) in g.queue && g.dl.rcvDone && g.dl.rbuf == ch % 256
  {
    CauseInterrupts(f0, events, DlTick(now, Some(ch)), TTY_IN);
  }

  /** The reader interrupts at level 4 when the character it was started for is there, or at
      the end of the tape. */
  lemma {:induction false} ReaderInterrupts(f: Fabric, data: nat, t: nat, events: seq<Event>, now: nat, ch: Option<nat>, written: bool)
    requires f.Inv() && Levelled(f.queue) && f.pc.initL && f.pc.hasReader && 0 < f.pc.readerTime <= now - t
    requires data / 64 % 2 == 1 && data % 2 == 1 && !f.pc.reader.busy && forall i :: 0 <= i < |events| ==> KeepsPc(events[i])
    ensures var g := Step(Run(Step(f, PcWritePrs(data, t)), events), PcTick(now, ch, written));
      && Request(0x38, 4) in g.queue && g.pc.reader.done && !g.pc.reader.busy && (g.pc.reader.err <==> ch.None?)
      && g.pc.reader.prb == if ch.Some? then ch.value % 256 else f.pc.reader.prb
  {
    var f1 := Step(f, PcWritePrs(data, t));
    StepKeepsInv(f, PcWritePrs(data, t));
    StepKeepsLevels(f, PcWritePrs(data, t));
    DevicesKept(f1, events);
    CauseInterrupts(f1, events, PcTick(now, ch, written), READER);
  }

  /** The punch interrupts at level 4 when the character it was given is punched. */
  lemma {:induction false} PunchInterrupts(f: Fabric, data: nat, t: nat, events: seq<Event>, now: nat, ch: Option<nat>, written: bool)
    requires f.Inv() && Levelled(f.queue) && f.pc.initL && f.pc.hasPunch && f.pc.punch.ie && 0 < f.pc.punchTime <= now - t
    requires forall i :: 0 <= i < |events| ==> KeepsPc(events[i])
    ensures var g := Step(Run(Step(f, PcWritePpb(data, t)), events), PcTick(now, ch, written));
      Request(0x3C, 4) in g.queue && g.pc.punch.done && (g.pc.punch.err <==> !written) && g.pc.punch.ppb == data % 256
  {
    var f1 := Step(f, PcWritePpb(data, t));
    StepKeepsInv(f, PcWritePpb(data, t));
    StepKeepsLevels(f, PcWritePpb(data, t));
    DevicesKept(f1, events);
    CauseInterrupts(f1, events, PcTick(now, ch, written), PUNCH);
  }

  /** INIT disables all interrupts, ends what the devices do, and leaves no request of them. */
  lemma InitState(f: Fabric)
    requires f.Inv()
    ensures var g := Step(f, BusInit(false));
      && VectorsOf(g.queue) == {}
      && g.dl == f.dl.(initL := false, rcvDone := false, rcvIe := false, xmitReady := true, xmitIe := false, txDoneAt := 0)
      && g.kw == f.kw.(initL := false, monitor := true, ie := false)
      && !g.pc.initL && g.pc.reader == Reader(f.pc.reader.err, false, false, false, f.pc.reader.prb, 0)
      && g.pc.punch == Punch(f.pc.punch.err, true, false, f.pc.punch.ppb, 0)
    ensures Step(f, BusInit(true)).queue == f.queue
  {
    PendingExactly(f, BusInit(false));
  }

  // The times of the devices, as they are from power up on.
  predicate Timed(f: Fabric, interval: nat) {
    f.dl.charTime == 1_041_666 && f.kw.interval == interval && f.pc.readerTime == 3_333_333 && f.pc.punchTime == 20_000_000
  }

  lemma {:induction false} StepKeepsTimes(f: Fabric, e: Event, interval: nat)
    requires Timed(f, interval)
    ensures Timed(Step(f, e), interval)
  {}

  /** Over any run from power up the queue is as above, and a character takes 1041666 ns on
      the console line, the clock 1/50 s or 1/60 s, the reader 3333333 ns and the punch
      20 ms. */
  lemma {:induction false} FromPowerUp(hz: nat, hasReader: bool, hasPunch: bool, events: seq<Event>)
    ensures var f := Run(PowerUp(hz, hasReader, hasPunch), events);
      f.Inv() && Levelled(f.queue) && Timed(f, if hz == 50 then 20_000_000 else if hz == 0 || hz == 60 then 16_666_666 else f.kw.interval)
  {
    if events == [] {
    } else {
      var init := events[..|events| - 1];
      FromPowerUp(hz, hasReader, hasPunch, init);
      var f := Run(PowerUp(hz, hasReader, hasPunch), init);
      StepKeepsInv(f, events[|events| - 1]);
      StepKeepsLevels(f, events[|events| - 1]);
      StepKeepsTimes(f, events[|events| - 1], f.kw.interval);
    }
  }
}
