/**
 The console line, the line clock and the paper tape on one interrupt controller: the
 objects together are the fabric of `Peripherals`, and keep its invariant over any run.
 */
module Machine {
  import opened Interrupts
  import opened Devices
  import P = Peripherals

  class Machine {
    const intc: IntController
    const dl: Dl11
    const kw: Kw11
    const pc: Pc11

    ghost predicate Shape()
      reads intc, intc.queue
    {
      intc.Valid() && dl.intc == intc && kw.intc == intc && pc.intc == intc
    }

    ghost function Model(): P.Fabric
      requires Shape()
      reads intc, intc.queue, dl, kw, pc
    {
      P.Fabric(dl.Model(), kw.Model(), pc.Model(), intc.Contents())
    }

    ghost predicate Valid()
      reads intc, intc.queue, dl, kw, pc
    {
      Shape() && Model().Inv()
    }

    constructor (rtcHz: nat, hasReader: bool, hasPunch: bool)
      ensures Valid() && Model() == P.PowerUp(rtcHz, hasReader, hasPunch)
      ensures fresh(intc) && fresh(intc.queue) && fresh(dl) && fresh(kw) && fresh(pc)
    {
      var controller := new IntController();
      intc := controller;
      dl := new Dl11(controller, 9600);
      kw := new Kw11(controller, rtcHz);
      pc := new Pc11(controller, hasReader, hasPunch);
    }

    // The devices are served one after the other.
    method Tick(now: nat, rx: P.Option<nat>, ch: P.Option<nat>, written: bool)
      requires Valid()
      modifies intc`count, intc.queue, dl, kw, pc
      ensures Valid()
      ensures Model() == P.Step(P.Step(P.Step(old(Model()), P.DlTick(now, rx)), P.KwTick(now)), P.PcTick(now, ch, written))
    {
      DlAccess(P.DlTick(now, rx));
      KwAccess(P.KwTick(now));
      PcAccess(P.PcTick(now, ch, written));
    }

    // INIT goes to the devices in the order in which they are on the bus.
    method SetInit(level: bool)
      requires Valid()
      modifies intc`count, intc.queue, dl, kw, pc
      ensures Valid() && Model() == P.Step(old(Model()), P.BusInit(level))
    {
      InitFront(level);
      InitBack(level);
    }

    method InitFront(level: bool)
      requires Valid()
      modifies intc`count, intc.queue, dl
      ensures Valid() && Model() == P.InitFront(old(Model()), level)
    {
      ghost var f := P.InitFront(Model(), level);
      P.InitFrontKeeps(Model(), level);
      dl.BusInit(level);
      DisksWithdraw(level);
      assert Model() == f;
    }

    method InitBack(level: bool)
      requires Valid()
      modifies intc`count, intc.queue, kw, pc
      ensures Valid() && Model() == P.InitBack(old(Model()), level)
    {
      ghost var f := Model();
      P.InitBackKeeps(f, level);
      kw.BusInit(level);
      assert Model() == P.KwStep(f, f.kw.BusInit(f.queue, level));
      pc.BusInit(level);
      assert Model() == P.InitBack(f, level);
    }

    // INIT makes the disks withdraw their requests.
    method DisksWithdraw(level: bool)
      requires Shape()
      modifies intc`count, intc.queue
      ensures Shape()
      ensures intc.Contents() == P.CancelIf(!level, P.CancelIf(!level, old(intc.Contents()), RK_DISK), RL_DISK)
    {
      if !level {
        intc.Cancel(RK_DISK);
        intc.Cancel(RL_DISK);
      }
    }

    method CpuReset()
      requires Valid()
      modifies intc`count, intc.queue
      ensures Valid() && Model() == P.Step(old(Model()), P.CpuReset)
    {
      intc.Reset();
    }

    // The processor takes the pending request, if there is one.
    method Acknowledge(priority: nat)
      requires Valid()
      modifies intc`count, intc.queue
      ensures Valid() && Model() == P.Step(old(Model()), P.Acknowledge(priority))
    {
      ghost var f := Model();
      TakeRequest(priority);
      P.AcknowledgeTakes(f, priority, intc.Contents());
    }

    method TakeRequest(priority: nat)
      requires Shape()
      modifies intc`count, intc.queue
      ensures Shape()
      ensures P.Taken(old(intc.Contents()), priority, intc.Contents())
    {
      var i := intc.GetPending(priority);
      if i >= 0 {
        var _ := intc.Ack(priority);
      }
    }

    method DlAccess(e: P.Event)
      requires Valid() && (P.DlEvent(e) || e.DlReadRcsr? || e.DlReadRbuf? || e.DlWriteXbuf?)
      modifies intc`count, intc.queue, dl
      ensures Valid() && Model() == P.Step(old(Model()), e)
    {
      ghost var f := P.Step(Model(), e);
      P.StepKeepsInv(Model(), e);
      match e {
        case DlTick(now, rx) => dl.Tick(now, rx);
        case DlReadRcsr(rx) => var _, _ := dl.ReadRcsr(rx);
        case DlReadRbuf => var _ := dl.ReadRbuf();
        case DlReadXcsr(now) => var _, _ := dl.ReadXcsr(now);
        case DlWriteRcsr(data) => dl.WriteRcsr(data);
        case DlWriteXcsr(data) => dl.WriteXcsr(data);
        case DlWriteXbuf(now) => dl.WriteXbuf(now);
      }
      assert Model() == f;
    }

    method KwAccess(e: P.Event)
      requires Valid() && (e.KwTick? || e.KwWrite?)
      modifies intc`count, intc.queue, kw
      ensures Valid() && Model() == P.Step(old(Model()), e)
    {
      ghost var f := P.Step(Model(), e);
      P.StepKeepsInv(Model(), e);
      match e {
        case KwTick(now) => kw.Tick(now);
        case KwWrite(data) => kw.Write(data);
      }
      assert Model() == f;
    }

    method PcAccess(e: P.Event)
      requires Valid() && P.PcEvent(e)
      modifies intc`count, intc.queue, pc
      ensures Valid() && Model() == P.Step(old(Model()), e)
    {
      if e.PcReadPps? || e.PcWritePps? || e.PcWritePpb? {
        PunchAccess(e);
      } else {
        ReaderAccess(e);
      }
    }

    method PunchAccess(e: P.Event)
      requires Valid() && (e.PcReadPps? || e.PcWritePps? || e.PcWritePpb?)
      modifies intc`count, intc.queue, pc
      ensures Valid() && Model() == P.Step(old(Model()), e)
    {
      ghost var f := P.Step(Model(), e);
      P.StepKeepsInv(Model(), e);
      match e {
        case PcReadPps(now, written) => pc.ReadPps(now, written);
        case PcWritePps(data) => pc.WritePps(data);
        case PcWritePpb(data, now) => pc.WritePpb(data, now);
      }
      assert Model() == f;
    }

    method ReaderAccess(e: P.Event)
      requires Valid() && (e.PcTick? || e.PcReadPrs? || e.PcReadPrb? || e.PcWritePrs?)
      modifies intc`count, intc.queue, pc
      ensures Valid() && Model() == P.Step(old(Model()), e)
    {
      ghost var f := P.Step(Model(), e);
      P.StepKeepsInv(Model(), e);
      match e {
        case PcTick(now, ch, written) => pc.Tick(now, ch, written);
        case PcReadPrs(now, ch) => pc.ReadPrs(now, ch);
        case PcReadPrb => var _ := pc.ReadPrb();
        case PcWritePrs(data, now) => pc.WritePrs(data, now);
      }
      assert Model() == f;
    }

    // A disk has finished.
    method DiskDone(vector: nat)
      requires Valid() && (vector == RK_DISK || vector == RL_DISK)
      modifies intc`count, intc.queue
      ensures Valid() && Model() == P.Step(old(Model()), if vector == RK_DISK then P.RkDone else P.RlDone)
      ensures vector in VectorsOf(intc.Contents())
    {
      P.DiskPostKeepsInv(Model(), vector);
      DevicesFit(intc.Contents());
      PostedVectors(intc.Contents(), vector, 5);
      var _ := intc.Post(vector, 5);
    }

    method Handle(e: P.Event)
      requires Valid()
      modifies intc`count, intc.queue, dl, kw, pc
      ensures Valid() && Model() == P.Step(old(Model()), e)
    {
      if P.PcEvent(e) {
        PcAccess(e);
      } else if e.KwTick? || e.KwWrite? {
        KwAccess(e);
      } else if P.DlEvent(e) || e.DlReadRcsr? || e.DlReadRbuf? || e.DlWriteXbuf? {
        DlAccess(e);
      } else {
        match e {
          case RkDone => DiskDone(RK_DISK);
          case RlDone => DiskDone(RL_DISK);
          case BusInit(level) => SetInit(level);
          case Acknowledge(priority) => Acknowledge(priority);
          case CpuReset => CpuReset();
        }
      }
    }

    /** Any run of the objects is a run of the fabric, and keeps its invariant. */
    method RunAll(events: seq<P.Event>)
      requires Valid()
      modifies intc`count, intc.queue, dl, kw, pc
      ensures Valid() && Model() == P.Run(old(Model()), events)
      ensures |intc.Contents()| < MAX_PENDING
    {
      ghost var f := Model();
      for i := 0 to |events|
        invariant Valid() && Model() == P.Run(f, events[..i])
      {
        Handle(events[i]);
        assert events[..i + 1][..i] == events[..i];
      }
      assert events[..|events|] == events;
      DevicesFit(intc.Contents());
    }
  }
}
