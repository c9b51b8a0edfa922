/**
 The register-level code of the DL11, the line clock and the PC11. Each operation is
 proved to be the step of `Peripherals` it stands for, and to keep what holds of its
 requests: a pending one has its enable bit set, and the queue has room for another.
 */
module Devices {
  import opened Interrupts
  import P = Peripherals
  import R = Requests

  // An enable bit that rises with its cause requests, and one that falls withdraws.
  method Edges(intc: IntController, rises: bool, falls: bool, vector: nat)
    requires intc.Valid()
    modifies intc`count, intc.queue
    ensures intc.Valid()
    ensures intc.Contents() == P.CancelIf(falls, P.PostIf(rises, old(intc.Contents()), vector, 4), vector)
  {
    if rises {
      var _ := intc.Post(vector, 4);
    }
    if falls {
      intc.Cancel(vector);
    }
  }

  class Dl11 {
    var initL: bool
    var rcvDone: bool
    var rcvIe: bool
    var rbuf: nat
    var xmitReady: bool
    var xmitIe: bool
    var txDoneAt: nat
    const charTime: nat
    const intc: IntController

    // A pending request of the device has its enable bit set.
    ghost predicate Valid()
      reads this, intc, intc.queue
    {
      intc.Valid() && P.DlHolds(Model(), intc.Contents())
    }

    ghost function Model(): P.Dl11
      reads this
    {
      P.Dl11(initL, rcvDone, rcvIe, rbuf, xmitReady, xmitIe, txDoneAt, charTime)
    }

    // The character time is ten bits at the baud rate, 9600 if none is given.
    constructor (intc: IntController, baud: nat)
      requires intc.Valid() && VectorsOf(intc.Contents()) <= DEVICE_VECTORS - {TTY_IN, TTY_OUT}
      ensures Valid() && this.intc == intc
      ensures Model() == P.NewDl(baud)
    {
      this.intc := intc;
      initL, rcvDone, rcvIe, rbuf := true, false, false, 0;
      xmitReady, xmitIe, txDoneAt := true, false, 0;
      charTime := 10_000_000_000 / if baud == 0 then 9600 else baud;
    }

    // The transmitter is done when its deadline has passed.
    method Transmitted(now: nat)
      requires Valid()
      modifies this`xmitReady, this`txDoneAt, intc`count, intc.queue
      ensures Valid()
      ensures (Model(), intc.Contents()) == old(Model()).Transmitted(old(intc.Contents()), now)
      ensures old(!xmitReady && 0 < txDoneAt <= now) ==> xmitReady && (xmitIe ==> TTY_OUT in VectorsOf(intc.Contents()))
    {
      R.PostsExactly(xmitIe, intc.Contents(), TTY_OUT, 4);
      P.DlServiceKeeps(Model(), intc.Contents(), now, P.None);
      P.DlHoldsOn(Model(), intc.Contents(), Model().ReadXcsr(intc.Contents(), now));
      if !xmitReady && txDoneAt > 0 {
        if now >= txDoneAt {
          xmitReady := true;
          txDoneAt := 0;
          if xmitIe {
            var _ := intc.Post(TTY_OUT, 4);
          }
        }
      }
    }

    method Tick(now: nat, rx: P.Option<nat>)
      requires Valid()
      modifies this`xmitReady, this`txDoneAt, this`rbuf, this`rcvDone, intc`count, intc.queue
      ensures Valid()
      ensures (Model(), intc.Contents()) == old(Model()).Tick(old(intc.Contents()), now, rx)
    {
      P.DlServiceKeeps(Model(), intc.Contents(), now, rx);
      P.DlHoldsOn(Model(), intc.Contents(), Model().Tick(intc.Contents(), now, rx));
      if !initL { return; }
      Transmitted(now);
      if !rcvDone {
        if rx.Some? {
          rbuf := rx.value % 256;
          rcvDone := true;
          if rcvIe {
            var _ := intc.Post(TTY_IN, 4);
          }
        }
      }
    }

    method ReadRcsr(rx: P.Option<nat>) returns (done: bool, ie: bool)
      requires Valid()
      modifies this`rbuf, this`rcvDone
      ensures Valid() && Model() == old(Model()).ReadRcsr(rx) && done == rcvDone && ie == rcvIe
    {
      if initL && !rcvDone {
        if rx.Some? {
          rbuf := rx.value % 256;
          rcvDone := true;
        }
      }
      done, ie := rcvDone, rcvIe;
    }

    method ReadRbuf() returns (data: nat)
      requires Valid()
      modifies this`rcvDone
      ensures Valid() && Model() == old(Model()).ReadRbuf() && data == rbuf
    {
      data := rbuf;
      rcvDone := false;
    }

    method ReadXcsr(now: nat) returns (ready: bool, ie: bool)
      requires Valid()
      modifies this`xmitReady, this`txDoneAt, intc`count, intc.queue
      ensures Valid() && ready == xmitReady && ie == xmitIe
      ensures (Model(), intc.Contents()) == old(Model()).ReadXcsr(old(intc.Contents()), now)
    {
      Transmitted(now);
      ready, ie := xmitReady, xmitIe;
    }

    method WriteRcsr(data: nat)
      requires Valid()
      modifies this`rcvIe, intc`count, intc.queue
      ensures Valid()
      ensures (Model(), intc.Contents()) == old(Model()).WriteRcsr(old(intc.Contents()), data)
    {
      P.DlWriteRcsrKeeps(Model(), intc.Contents(), data);
      P.DlHoldsOn(Model(), intc.Contents(), Model().WriteRcsr(intc.Contents(), data));
      if !initL { return; }
      var oldIe := rcvIe;
      rcvIe := P.Enable(data);
      Edges(intc, !oldIe && rcvIe && rcvDone, oldIe && !rcvIe, TTY_IN);
    }

    method WriteXcsr(data: nat)
      requires Valid()
      modifies this`xmitIe, intc`count, intc.queue
      ensures Valid()
      ensures (Model(), intc.Contents()) == old(Model()).WriteXcsr(old(intc.Contents()), data)
    {
      P.DlWriteXcsrKeeps(Model(), intc.Contents(), data);
      P.DlHoldsOn(Model(), intc.Contents(), Model().WriteXcsr(intc.Contents(), data));
      if !initL { return; }
      var oldIe := xmitIe;
      xmitIe := P.Enable(data);
      Edges(intc, !oldIe && xmitIe && xmitReady, oldIe && !xmitIe, TTY_OUT);
    }

    method WriteXbuf(now: nat)
      requires Valid()
      modifies this`xmitReady, this`txDoneAt
      ensures Valid() && Model() == old(Model()).WriteXbuf(now)
    {
      if !initL { return; }
      xmitReady := false;
      txDoneAt := now + charTime;
    }

    method BusInit(level: bool)
      requires Valid()
      modifies this, intc`count, intc.queue
      ensures Valid()
      ensures (Model(), intc.Contents()) == old(Model()).BusInit(old(intc.Contents()), level)
    {
      P.DlInitKeeps(Model(), intc.Contents(), level);
      P.DlHoldsOn(Model(), intc.Contents(), Model().BusInit(intc.Contents(), level));
      initL := level;
      if level { return; }
      rcvDone, rcvIe := false, false;
      xmitReady, xmitIe := true, false;
      txDoneAt := 0;
      intc.Cancel(TTY_IN);
      intc.Cancel(TTY_OUT);
    }
  }

  class Kw11 {
    var initL: bool
    var monitor: bool
    var ie: bool
    var nextTick: nat
    const interval: nat
    const intc: IntController

    // A pending request of the device has its enable bit set.
    ghost predicate Valid()
      reads this, intc, intc.queue
    {
      intc.Valid() && P.KwHolds(Model(), intc.Contents())
    }

    ghost function Model(): P.Kw11
      reads this
    {
      P.Kw11(initL, monitor, ie, nextTick, interval)
    }

    constructor (intc: IntController, hz: nat)
      requires intc.Valid() && VectorsOf(intc.Contents()) <= DEVICE_VECTORS - {LINE_CLOCK}
      ensures Valid() && this.intc == intc
      ensures Model() == P.NewKw(hz)
    {
      this.intc := intc;
      initL, monitor, ie, nextTick := true, false, false, 0;
      interval := 1_000_000_000 / if hz == 0 then 60 else hz;
    }

    method Tick(now: nat)
      requires Valid()
      modifies this`monitor, this`nextTick, intc`count, intc.queue
      ensures Valid()
      ensures (Model(), intc.Contents()) == old(Model()).Tick(old(intc.Contents()), now)
      ensures old(initL && ie && 0 < nextTick <= now) ==> monitor && LINE_CLOCK in VectorsOf(intc.Contents())
    {
      R.PostsExactly(ie, intc.Contents(), LINE_CLOCK, 6);
      P.KwOperations(Model(), intc.Contents(), now, 0, true);
      P.KwHoldsOn(Model(), intc.Contents(), Model().Tick(intc.Contents(), now));
      if !initL { return; }
      if nextTick == 0 {
        nextTick := now + interval;
      }
      if now >= nextTick {
        monitor := true;
        nextTick := nextTick + interval;
        if nextTick < now {
          nextTick := now + interval;
        }
        if ie {
          var _ := intc.Post(LINE_CLOCK, 6);
        }
      }
    }

    method Write(data: nat)
      requires Valid()
      modifies this`monitor, this`ie, intc`count, intc.queue
      ensures Valid()
      ensures (Model(), intc.Contents()) == old(Model()).Write(old(intc.Contents()), data)
    {
      P.KwOperations(Model(), intc.Contents(), 0, data, true);
      P.KwHoldsOn(Model(), intc.Contents(), Model().Write(intc.Contents(), data));
      if !initL { return; }
      monitor, ie := P.Done(data), P.Enable(data);
      if !ie {
        intc.Cancel(LINE_CLOCK);
      }
    }

    method BusInit(level: bool)
      requires Valid()
      modifies this`initL, this`monitor, this`ie, intc`count, intc.queue
      ensures Valid()
      ensures (Model(), intc.Contents()) == old(Model()).BusInit(old(intc.Contents()), level)
    {
      P.KwOperations(Model(), intc.Contents(), 0, 0, level);
      P.KwHoldsOn(Model(), intc.Contents(), Model().BusInit(intc.Contents(), level));
      initL := level;
      if level { return; }
      monitor, ie := true, false;
      intc.Cancel(LINE_CLOCK);
    }
  }

  class Pc11 {
    var initL: bool
    var reader: P.Reader
    var punch: P.Punch
    const hasReader: bool
    const hasPunch: bool
    const intc: IntController

    // A pending request of the device has its enable bit set.
    ghost predicate Valid()
      reads this, intc, intc.queue
    {
      intc.Valid() && P.PcHolds(Model(), intc.Contents())
    }

    ghost function Model(): P.Pc11
      reads this
    {
      P.Pc11(initL, reader, punch, hasReader, hasPunch, 3_333_333, 20_000_000)
    }

    constructor (intc: IntController, hasReader: bool, hasPunch: bool)
      requires intc.Valid() && VectorsOf(intc.Contents()) <= DEVICE_VECTORS - {READER, PUNCH}
      ensures Valid() && this.intc == intc && this.hasReader == hasReader && this.hasPunch == hasPunch
      ensures Model() == P.NewPc(hasReader, hasPunch)
    {
      this.intc, this.hasReader, this.hasPunch := intc, hasReader, hasPunch;
      initL, reader, punch := true, P.Reader(false, false, false, false, 0, 0), P.Punch(false, true, false, 0, 0);
    }

    method ReaderService(ch: P.Option<nat>)
      requires Valid()
      modifies this`reader, intc`count, intc.queue
      ensures Valid()
      ensures (Model(), intc.Contents()) == old(Model()).ReaderService(old(intc.Contents()), ch)
      ensures reader.done && (reader.ie ==> READER in VectorsOf(intc.Contents()))
    {
      R.PostsExactly(reader.ie, intc.Contents(), READER, 4);
      P.ServiceKeeps(Model(), intc.Contents(), ch, true);
      P.PcHoldsOn(Model(), intc.Contents(), Model().ReaderService(intc.Contents(), ch));
      reader := reader.(busy := false);
      if !hasReader || ch.None? {
        reader := reader.(err := true, done := true, doneAt := 0);
      } else {
        reader := reader.(prb := ch.value % 256, done := true, err := false, doneAt := 0);
      }
      if reader.ie {
        var _ := intc.Post(READER, 4);
      }
    }

    method PunchService(written: bool)
      requires Valid()
      modifies this`punch, intc`count, intc.queue
      ensures Valid()
      ensures (Model(), intc.Contents()) == old(Model()).PunchService(old(intc.Contents()), written)
      ensures punch.done && (punch.ie ==> PUNCH in VectorsOf(intc.Contents()))
    {
      R.PostsExactly(punch.ie, intc.Contents(), PUNCH, 4);
      P.ServiceKeeps(Model(), intc.Contents(), P.None, written);
      P.PcHoldsOn(Model(), intc.Contents(), Model().PunchService(intc.Contents(), written));
      punch := punch.(done := true, err := !(hasPunch && written), doneAt := 0);
      if punch.ie {
        var _ := intc.Post(PUNCH, 4);
      }
    }

    method Tick(now: nat, ch: P.Option<nat>, written: bool)
      requires Valid()
      modifies this`reader, this`punch, intc`count, intc.queue
      ensures Valid()
      ensures (Model(), intc.Contents()) == old(Model()).Tick(old(intc.Contents()), now, ch, written)
    {
      if !initL { return; }
      if reader.busy && reader.doneAt > 0 && now >= reader.doneAt {
        ReaderService(ch);
      }
      if !punch.done && punch.doneAt > 0 && now >= punch.doneAt {
        PunchService(written);
      }
    }

    method ReadPrs(now: nat, ch: P.Option<nat>)
      requires Valid()
      modifies this`reader, intc`count, intc.queue
      ensures Valid()
      ensures (Model(), intc.Contents()) == old(Model()).ReadPrs(old(intc.Contents()), now, ch)
    {
      if initL && reader.busy && reader.doneAt > 0 && now >= reader.doneAt {
        ReaderService(ch);
      }
    }

    method ReadPrb() returns (data: nat)
      requires Valid()
      modifies this`reader, intc`count, intc.queue
      ensures Valid() && data == old(reader.prb) % 256
      ensures (Model(), intc.Contents()) == old(Model()).ReadPrb(old(intc.Contents()))
    {
      P.ReadPrbKeeps(Model(), intc.Contents());
      P.PcHoldsOn(Model(), intc.Contents(), Model().ReadPrb(intc.Contents()));
      data := reader.prb % 256;
      reader := reader.(done := false);
      intc.Cancel(READER);
    }

    method ReadPps(now: nat, written: bool)
      requires Valid()
      modifies this`punch, intc`count, intc.queue
      ensures Valid()
      ensures (Model(), intc.Contents()) == old(Model()).ReadPps(old(intc.Contents()), now, written)
    {
      if initL && !punch.done && punch.doneAt > 0 && now >= punch.doneAt {
        PunchService(written);
      }
    }

    method Start(now: nat)
      requires Valid()
      modifies this`reader, intc`count, intc.queue
      ensures Valid()
      ensures (Model(), intc.Contents()) == old(Model()).Start(old(intc.Contents()), now)
    {
      P.StartKeeps(Model(), intc.Contents(), now);
      P.PcHoldsOn(Model(), intc.Contents(), Model().Start(intc.Contents(), now));
      reader := reader.(done := false, err := false, busy := true);
      intc.Cancel(READER);
      if hasReader {
        reader := reader.(doneAt := now + 3_333_333);
      } else {
        reader := reader.(err := true, done := true, busy := false);
        if reader.ie {
          var _ := intc.Post(READER, 4);
        }
      }
    }

    // A write of the reader's enable bit.
    method SetReaderEnable(data: nat)
      requires Valid()
      modifies this`reader, intc`count, intc.queue
      ensures Valid()
      ensures (Model(), intc.Contents()) == old(Model()).SetReaderEnable(old(intc.Contents()), data)
    {
      P.ReaderEnableKeeps(Model(), intc.Contents(), data);
      P.PcHoldsOn(Model(), intc.Contents(), Model().SetReaderEnable(intc.Contents(), data));
      var oldIe := reader.ie;
      reader := reader.(ie := P.Enable(data));
      Edges(intc, !oldIe && reader.ie && (reader.done || reader.err), oldIe && !reader.ie, READER);
    }

    method WritePrs(data: nat, now: nat)
      requires Valid()
      modifies this`reader, intc`count, intc.queue
      ensures Valid()
      ensures (Model(), intc.Contents()) == old(Model()).WritePrs(old(intc.Contents()), data, now)
    {
      if !initL { return; }
      SetReaderEnable(data);
      if P.Go(data) && !reader.busy {
        Start(now);
      }
    }

    method WritePps(data: nat)
      requires Valid()
      modifies this`punch, intc`count, intc.queue
      ensures Valid()
      ensures (Model(), intc.Contents()) == old(Model()).WritePps(old(intc.Contents()), data)
    {
      P.WritePpsKeeps(Model(), intc.Contents(), data);
      P.PcHoldsOn(Model(), intc.Contents(), Model().WritePps(intc.Contents(), data));
      if !initL { return; }
      var oldIe := punch.ie;
      punch := punch.(ie := P.Enable(data));
      Edges(intc, !oldIe && punch.ie && (punch.done || punch.err), oldIe && !punch.ie, PUNCH);
    }

    method WritePpb(data: nat, now: nat)
      requires Valid()
      modifies this`punch, intc`count, intc.queue
      ensures Valid()
      ensures (Model(), intc.Contents()) == old(Model()).WritePpb(old(intc.Contents()), data, now)
    {
      P.WritePpbKeeps(Model(), intc.Contents(), data, now);
      P.PcHoldsOn(Model(), intc.Contents(), Model().WritePpb(intc.Contents(), data, now));
      if !initL { return; }
      punch := punch.(ppb := data % 256, done := false);
      intc.Cancel(PUNCH);
      if hasPunch {
        punch := punch.(doneAt := now + 20_000_000);
      } else {
        punch := punch.(err := true, done := true);
        if punch.ie {
          var _ := intc.Post(PUNCH, 4);
        }
      }
    }

    method BusInit(level: bool)
      requires Valid()
      modifies this, intc`count, intc.queue
      ensures Valid()
      ensures (Model(), intc.Contents()) == old(Model()).BusInit(old(intc.Contents()), level)
    {
      P.PcInitKeeps(Model(), intc.Contents(), level);
      P.PcHoldsOn(Model(), intc.Contents(), Model().BusInit(intc.Contents(), level));
      initL := level;
      if level { return; }
      reader := reader.(busy := false, done := false, ie := false, doneAt := 0);
      punch := punch.(done := true, ie := false, doneAt := 0);
      intc.Cancel(READER);
      intc.Cancel(PUNCH);
    }
  }
}
