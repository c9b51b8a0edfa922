/**
 The status bits of the devices as flip-flops: for each bit, over all events, what sets it
 and what clears it, and what the bits are after a run.
 */
module DeviceBits {
  import opened Interrupts
  import opened Peripherals
  import opened Requests

  // A bit that is set, cleared, or as before. Clearing wins.
  predicate Flips(was: bool, set_: bool, clear: bool, now: bool) {
    now == (!clear && (set_ || was))
  }

  // BUS INIT is asserted.
  predicate Asserts(e: Event) { e == BusInit(false) }

  /** INIT reaches all three devices, and nothing else does. */
  lemma InitBits(f: Fabric, e: Event)
    ensures var g := Step(f, e);
      && g.dl.initL == (if e.BusInit? then e.level else f.dl.initL)
      && g.kw.initL == (if e.BusInit? then e.level else f.kw.initL)
      && g.pc.initL == (if e.BusInit? then e.level else f.pc.initL)
  {}

  // A character arrives in the free receiver, in the service of the line or in a poll.
  predicate Arrives(dl: Dl11, e: Event) {
    dl.initL && !dl.rcvDone && ((e.DlTick? && e.rx.Some?) || (e.DlReadRcsr? && e.rx.Some?))
  }

  // The character sent has left.
  predicate Leaves(dl: Dl11, e: Event) {
    ((e.DlTick? && dl.initL) || e.DlReadXcsr?) && !dl.xmitReady && 0 < dl.txDoneAt <= e.now
  }

  /** The console line: DONE from the arrival of a character until RBUF is read, READY from
      its leaving until the next one is written. */
  lemma LineBits(f: Fabric, e: Event)
    ensures var (d, d') := (f.dl, Step(f, e).dl);
      && Flips(d.rcvDone, Arrives(d, e), e.DlReadRbuf? || Asserts(e), d'.rcvDone)
      && Flips(d.xmitReady, Leaves(d, e) || Asserts(e), d.initL && e.DlWriteXbuf?, d'.xmitReady)
      && (!Arrives(d, e) ==> d'.rbuf == d.rbuf)
  {}

  /** Its enable bits are those last written. */
  lemma LineEnables(f: Fabric, e: Event)
    ensures var (d, d') := (f.dl, Step(f, e).dl);
      && d'.rcvIe == (if d.initL && e.DlWriteRcsr? then e.data / 64 % 2 == 1 else d.rcvIe && !Asserts(e))
      && d'.xmitIe == (if d.initL && e.DlWriteXcsr? then e.data / 64 % 2 == 1 else d.xmitIe && !Asserts(e))
  {}

  /** Its deadline is one character time after the last character. */
  lemma LineDeadline(f: Fabric, e: Event)
    ensures var (d, d') := (f.dl, Step(f, e).dl);
      && d'.txDoneAt == (if d.initL && e.DlWriteXbuf? then e.now + d.charTime
                         else if Leaves(d, e) || Asserts(e) then 0 else d.txDoneAt)
  {}

  // The clock reaches its deadline. The first service only sets it.
  predicate Ticks(kw: Kw11, e: Event) {
    kw.initL && e.KwTick? && if kw.nextTick == 0 then kw.interval == 0 else kw.nextTick <= e.now
  }

  /** The line clock: the monitor bit from a tick until a write clears it. Both bits are
      otherwise those last written. */
  lemma ClockBits(f: Fabric, e: Event)
    ensures var (k, k') := (f.kw, Step(f, e).kw);
      && k'.monitor == (if k.initL && e.KwWrite? then e.data / 128 % 2 == 1
                        else k.monitor || Asserts(e) || Ticks(k, e))
      && k'.ie == (if k.initL && e.KwWrite? then e.data / 64 % 2 == 1 else k.ie && !Asserts(e))
      && (!e.KwTick? ==> k'.nextTick == k.nextTick)
  {}

  // The reader is started, or fails at once without a tape.
  predicate Starts(p: Pc11, e: Event) {
    p.initL && e.PcWritePrs? && e.data % 2 == 1 && !p.reader.busy
  }

  predicate ReaderEnds(p: Pc11, e: Event) {
    p.initL && (e.PcTick? || e.PcReadPrs?) && ReadDone(p.reader, e.now)
  }

  predicate PunchEnds(p: Pc11, e: Event) {
    p.initL && (e.PcTick? || e.PcReadPps?) && PunchDone(p.punch, e.now)
  }

  /** The reader: BUSY from its start until the character is there, */
  lemma ReaderBits(f: Fabric, e: Event)
    ensures var (p, r, r') := (f.pc, f.pc.reader, Step(f, e).pc.reader);
      && Flips(r.busy, Starts(p, e) && p.hasReader, ReaderEnds(p, e) || Asserts(e), r'.busy)
  {}

  /** DONE from then until the character is read or the reader is started again, */
  lemma ReaderDone(f: Fabric, e: Event)
    ensures var (p, r, r') := (f.pc, f.pc.reader, Step(f, e).pc.reader);
      && Flips(r.done, ReaderEnds(p, e) || (Starts(p, e) && !p.hasReader),
               e.PcReadPrb? || (Starts(p, e) && p.hasReader) || Asserts(e), r'.done)
  {}

  /** ERR at the end of the tape, and the last character. */
  lemma ReaderFields(f: Fabric, e: Event)
    ensures var (p, r, r') := (f.pc, f.pc.reader, Step(f, e).pc.reader);
      && r'.err == (if ReaderEnds(p, e) then !(p.hasReader && e.ch.Some?) else if Starts(p, e) then !p.hasReader else r.err)
      && r'.prb == (if ReaderEnds(p, e) && p.hasReader && e.ch.Some? then e.ch.value % 256 else r.prb)
  {}

  /** Its deadline is that of the last start. */
  lemma ReaderDeadline(f: Fabric, e: Event)
    ensures var (p, r, r') := (f.pc, f.pc.reader, Step(f, e).pc.reader);
      && r'.doneAt == (if Starts(p, e) && p.hasReader then e.now + p.readerTime
                       else if ReaderEnds(p, e) || Asserts(e) then 0 else r.doneAt)
  {}

  /** The punch: READY until a character is given to it and again when that is punched. */
  lemma PunchBits(f: Fabric, e: Event)
    ensures var (p, u, u') := (f.pc, f.pc.punch, Step(f, e).pc.punch);
      var given := p.initL && e.PcWritePpb?;
      && Flips(u.done, PunchEnds(p, e) || (given && !p.hasPunch) || Asserts(e), given && p.hasPunch, u'.done)
      && u'.err == (if PunchEnds(p, e) then !(p.hasPunch && e.written) else u.err || (given && !p.hasPunch))
      && u'.ppb == (if given then e.data % 256 else u.ppb)
  {}

  /** Its deadline is that of the last character. */
  lemma PunchDeadline(f: Fabric, e: Event)
    ensures var (p, u, u') := (f.pc, f.pc.punch, Step(f, e).pc.punch);
      var given := p.initL && e.PcWritePpb?;
      && u'.doneAt == (if given && p.hasPunch then e.now + p.punchTime
                       else if PunchEnds(p, e) || Asserts(e) then 0 else u.doneAt)
  {}

  /** The enable bits of both are those last written. */
  lemma TapeEnables(f: Fabric, e: Event)
    ensures var (p, p') := (f.pc, Step(f, e).pc);
      && p'.reader.ie == (if p.initL && e.PcWritePrs? then e.data / 64 % 2 == 1 else p.reader.ie && !Asserts(e))
      && p'.punch.ie == (if p.initL && e.PcWritePps? then e.data / 64 % 2 == 1 else p.punch.ie && !Asserts(e))
  {}

  // ----- The clock keeps time -----

  // Event i is not a tick more than an interval late.
  predicate InTime(f: Fabric, events: seq<Event>, i: nat)
    requires i < |events|
  {
    events[i].KwTick? ==> events[i].now <= Run(f, events[..i]).kw.nextTick + f.kw.interval
  }

  // The ticks that came due.
  function Expired(f: Fabric, events: seq<Event>): nat {
    if events == [] then 0 else
    var n := |events| - 1;
    Expired(f, events[..n]) + if Ticks(Run(f, events[..n]).kw, events[n]) then 1 else 0
  }

  /** The deadlines do not drift: over any run in which no tick is more than an interval
      late, each tick that comes due moves the deadline by exactly one interval. */
  lemma {:induction false} KeepsTime(f: Fabric, events: seq<Event>)
    requires f.kw.nextTick > 0 && f.kw.interval > 0 && forall i :: 0 <= i < |events| ==> InTime(f, events, i)
    ensures var g := Run(f, events);
      g.kw.interval == f.kw.interval && g.kw.nextTick == f.kw.nextTick + Expired(f, events) * f.kw.interval
  {
    if events != [] {
      var n := |events| - 1;
      var before := events[..n];
      forall i | 0 <= i < n ensures InTime(f, before, i) {
        assert InTime(f, events, i) && before[..i] == events[..i];
      }
      KeepsTime(f, before);
      assert InTime(f, events, n);
      DeadlineMoves(Run(f, before), events[n]);
      NextMultiple(Expired(f, before), f.kw.interval);
    }
  }

  /** A tick that is later than that starts the intervals anew. */
  lemma DeadlineMoves(f: Fabric, e: Event)
    ensures var (k, k') := (f.kw, Step(f, e).kw);
      && k'.interval == k.interval
      && k'.nextTick == (if !e.KwTick? || !k.initL then k.nextTick
                         else if !Ticks(k, e) then (if k.nextTick == 0 then e.now + k.interval else k.nextTick)
                         else if e.now <= k.nextTick + k.interval then k.nextTick + k.interval else e.now + k.interval)
  {}

  lemma NextMultiple(n: nat, d: nat)
    ensures (n + 1) * d == n * d + d && n * d >= 0
  {}

  // ----- Power up -----

  /** At power up the line clock is stopped before its first interval, transmitter and punch
      are ready, nothing is enabled and no request is pending. */
  lemma AtPowerUp(hz: nat, hasReader: bool, hasPunch: bool)
    ensures var f := PowerUp(hz, hasReader, hasPunch);
      && f.queue == [] && f.dl.initL && f.kw.initL && f.pc.initL
      && !f.dl.rcvIe && !f.dl.xmitIe && !f.kw.ie && !f.pc.reader.ie && !f.pc.punch.ie
      && !f.dl.rcvDone && f.dl.xmitReady && f.dl.txDoneAt == 0 && f.kw.nextTick == 0 && !f.kw.monitor
      && !f.pc.reader.done && !f.pc.reader.busy && !f.pc.reader.err && f.pc.punch.done && !f.pc.punch.err
      && f.pc.hasReader == hasReader && f.pc.hasPunch == hasPunch
    ensures NewDl(0) == NewDl(9600)
  {}
}
