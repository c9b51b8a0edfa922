/**
 KT memory management of the KD11-EA. An address is mapped when BA is loaded and
 checked when the transfer starts, E83 decides the aborts, and SR0 and SR2 freeze
 on the first one.
 */
module KtMemory {
  import opened Proms

  // PDR bits 14-8, 6, 3 and 2-1.
  datatype Pdr = Pdr(plf: nat, written: bool, expandDown: bool, acf: nat)
  {
    predicate Ok() { plf < 128 && acf < 4 }
  }

  // SR0 bits 15, 14 and 13.
  datatype Faults = Faults(nonResident: bool, pageLength: bool, readOnly: bool)
  {
    predicate Any() { nonResident || pageLength || readOnly }
  }

  const NO_FAULT := Faults(false, false, false)

  // SR0 bits 15-13, 8, 6-5, 3-1 and 0.
  datatype Sr0 = Sr0(faults: Faults, maint: bool, mode: nat, page: nat, enable: bool)

  const SR0_CLEAR := Sr0(NO_FAULT, false, 0, 0, false)

  // The types of a bus transfer.
  datatype Use = Dati | Datip | Dato | Datob
  {
    predicate C1() { Dato? || Datob? }
    predicate C0() { Datip? || Datob? }
  }

  // page is the entry of the last relocation, -1 when it was off, and vba and ba
  // are the address registers of the CPU that LOAD BA fills.
  datatype Kt = Kt(par: seq<nat>, pdr: seq<Pdr>, sr0: Sr0, sr2: nat, page: int, mode: nat, vba: nat, ba: nat)
  {
    predicate Valid() {
      && |par| == 16 && |pdr| == 16 && mode < 4 && vba < 0x1_0000
      && (page == -1 || page == Index(vba, mode))
      && (forall i :: 0 <= i < 16 ==> par[i] < 4096)
      && (forall i :: 0 <= i < 16 ==> pdr[i].Ok())
    }
  }

  // ----- A virtual address -----

  function PageOf(vba: nat): nat { vba / 8192 % 8 }
  function BlockOf(vba: nat): (b: nat) ensures b < 128 { vba / 64 % 128 }
  function Displacement(vba: nat): (d: nat) ensures d < 64 { vba % 64 }

  // Kernel pages 0-7, then user pages 0-7.
  function Index(vba: nat, mode: nat): (i: nat)
    ensures i < 16
  {
    (if mode == 3 then 8 else 0) + PageOf(vba)
  }

  // What the adder and the 18 lines of PBA give.
  function Address(paf: nat, vba: nat): nat {
    ((paf + BlockOf(vba)) % 8192 * 64 + Displacement(vba)) % 0x4_0000
  }

  // Without relocation the top 4K words are the I/O page.
  function Direct(vba: nat): nat {
    if PageOf(vba) == 7 then 0x3_0000 + vba else vba
  }

  // ----- Protection -----

  predicate Compare(pdr: Pdr, block: nat) {
    block > pdr.plf || (pdr.expandDown && block == pdr.plf)
  }

  // The two bits of the mode differ.
  predicate Illegal(mode: nat) { (mode / 2 + mode) % 2 == 1 }

  predicate Acf1(acf: nat) { acf / 2 % 2 == 1 }
  predicate Acf0(acf: nat) { acf % 2 == 1 }

  function FaultsOf(pdr: Pdr, block: nat, mode: nat, use: Use): Faults {
    Decode(E83(use.C1(), use.C0(), true, Illegal(mode), Acf1(pdr.acf), Acf0(pdr.acf), Compare(pdr, block), pdr.expandDown))
  }

  lemma LinesMean(pdr: Pdr, block: nat, mode: nat, use: Use)
    requires pdr.Ok() && mode < 4
    ensures Illegal(mode) || !Acf0(pdr.acf) <==> mode == 1 || mode == 2 || pdr.acf == 0 || pdr.acf == 2
    ensures Compare(pdr, block) != pdr.expandDown <==> !Inside(pdr, block)
    ensures !Acf1(pdr.acf) && Acf0(pdr.acf) && (use.C1() || use.C0()) <==> pdr.acf == 1 && !use.Dati?
  {}

  function Decode(d: nat): Faults {
    Faults(d % 2 == 1, d / 2 % 2 == 1, d / 4 % 2 == 1)
  }

  // The block is within the length of the page, in the direction it grows.
  predicate Inside(pdr: Pdr, block: nat) {
    if pdr.expandDown then block >= pdr.plf else block <= pdr.plf
  }

  // Kernel or user mode, a block of the page, and read-write access or a read.
  predicate Granted(pdr: Pdr, block: nat, mode: nat, use: Use) {
    mode in {0, 3} && Inside(pdr, block) && (pdr.acf == 3 || (pdr.acf == 1 && use.Dati?))
  }

  lemma E83Value(c1: bool, c0: bool, illegal: bool, acf1: bool, acf0: bool, compare: bool, ed: bool)
    ensures E83(c1, c0, true, illegal, acf1, acf0, compare, ed) ==
      Line(illegal || !acf0) + 2 * Line(compare != ed) + 4 * Line(!acf1 && acf0 && (c1 || c0))
  {}

  lemma DecodeSum(d: nat, nr: bool, pl: bool, ro: bool)
    requires d == Line(nr) + 2 * Line(pl) + 4 * Line(ro)
    ensures Decode(d) == Faults(nr, pl, ro)
  {}

  lemma E83Faults(c1: bool, c0: bool, illegal: bool, acf1: bool, acf0: bool, compare: bool, ed: bool)
    ensures Decode(E83(c1, c0, true, illegal, acf1, acf0, compare, ed)) ==
      Faults(illegal || !acf0, compare != ed, !acf1 && acf0 && (c1 || c0))
  {
    E83Value(c1, c0, illegal, acf1, acf0, compare, ed);
    DecodeSum(E83(c1, c0, true, illegal, acf1, acf0, compare, ed),
      illegal || !acf0, compare != ed, !acf1 && acf0 && (c1 || c0));
  }

  /** E83 aborts as non-resident for an illegal mode or ACF 0 or 2, for length when the
      block is outside the page, and as read-only for ACF 1 and anything but DATI. */
  lemma FaultsExact(pdr: Pdr, block: nat, mode: nat, use: Use)
    requires pdr.Ok() && mode < 4
    ensures FaultsOf(pdr, block, mode, use) == Faults(
      mode == 1 || mode == 2 || pdr.acf == 0 || pdr.acf == 2,
      !Inside(pdr, block),
      pdr.acf == 1 && !use.Dati?)
    ensures FaultsOf(pdr, block, mode, use).Any() <==> !Granted(pdr, block, mode, use)
  {
    LinesMean(pdr, block, mode, use);
    E83Faults(use.C1(), use.C0(), Illegal(mode), Acf1(pdr.acf), Acf0(pdr.acf), Compare(pdr, block), pdr.expandDown);
  }

  // ----- The steps -----

  // A bus cycle of the processor: the entry of its page (-1 without relocation), its
  // address and its type.
  datatype Access = Access(page: int, address: nat, use: Use)

  datatype Outcome = Idle | Aborted(faults: Faults) | Cancelled | Ran(access: Access)

  datatype Event =
    | LoadBa(vba: nat, mode: nat, enabMaint: bool)
    | Transfer(use: Use, odd: bool, answered: bool, ktWrite: bool)
    | LoadIr(pc: nat)
    | WritePar(i: nat, data: nat, low: bool, high: bool)
    | WritePdr(i: nat, data: nat, low: bool, high: bool)
    | WriteSr0(data: nat, low: bool, high: bool)
    | BusInit(asserted: bool)
  {
    predicate Ok() {
      match this
      case LoadBa(vba, mode, _) => vba < 0x1_0000 && mode < 4
      case WritePar(i, _, _, _) => i < 16
      case WritePdr(i, _, _, _) => i < 16
      case _ => true
    }
  }

  // SR0 6:1 follow every relocated reference until an abort freezes them.
  function Track(sr0: Sr0, mode: nat, vba: nat): Sr0 {
    if sr0.faults.Any() then sr0 else sr0.(mode := mode, page := PageOf(vba))
  }

  // An abort is latched with its mode and page, unless one is there already.
  function Latch(sr0: Sr0, faults: Faults, mode: nat, vba: nat): Sr0 {
    if sr0.faults.Any() || !faults.Any() then sr0
    else sr0.(faults := faults, mode := mode, page := PageOf(vba))
  }

  // mmu_translate with MMU_MAP, as LOAD BA calls it.
  function MapBa(s: Kt, vba: nat, mode: nat, relocate: bool): (s': Kt)
    requires s.Valid() && vba < 0x1_0000 && mode < 4
    ensures s'.Valid()
  {
    if relocate then
      s.(sr0 := Track(s.sr0, mode, vba), page := Index(vba, mode), mode := mode,
         vba := vba, ba := Address(s.par[Index(vba, mode)], vba))
    else s.(page := -1, vba := vba, ba := Direct(vba))
  }

  // mmu_translate with the type of a transfer.
  function Check(s: Kt, use: Use): (r: (Kt, Faults))
    requires s.Valid() && s.page >= 0
    ensures r.0.Valid()
  {
    var f := FaultsOf(s.pdr[s.page], BlockOf(s.vba), s.mode, use);
    (s.(sr0 := Latch(Track(s.sr0, s.mode, s.vba), f, s.mode, s.vba)), f)
  }

  // The end of a transfer that ran: a relocated write that was answered and did not
  // go to a KT register marks its page.
  function MarkWritten(s: Kt, use: Use, answered: bool, ktWrite: bool): (s': Kt)
    requires s.Valid()
    ensures s'.Valid()
  {
    if s.page >= 0 && use.C1() && answered && !ktWrite
    then s.(pdr := s.pdr[s.page := s.pdr[s.page].(written := true)])
    else s
  }

  // A fault or an odd address cancels the transfer.
  function Proceed(s: Kt, f: Faults, use: Use, odd: bool, answered: bool, ktWrite: bool): (r: (Kt, Outcome))
    requires s.Valid()
    ensures r.0.Valid()
  {
    if f.Any() then (s, Aborted(f))
    else if odd then (s, Cancelled)
    else (MarkWritten(s, use, answered, ktWrite), Ran(Access(s.page, s.ba, use)))
  }

  function RunTransfer(s: Kt, use: Use, odd: bool, answered: bool, ktWrite: bool): (r: (Kt, Outcome))
    requires s.Valid()
    ensures r.0.Valid()
  {
    var (s1, f) := if s.page >= 0 then Check(s, use) else (s, NO_FAULT);
    Proceed(s1, f, use, odd, answered, ktWrite)
  }

  // One byte lane of a register.
  function Lane(was: nat, data: nat, load: bool): nat { if load then data else was }

  function NewPar(par: nat, data: nat, low: bool, high: bool): (r: nat)
    ensures r < 4096
  {
    Lane(par % 256, data % 256, low) + 256 * (Lane(par / 256, data / 256, high) % 16)
  }

  // A write loads PLF, ED and ACF, and clears W.
  function NewPdr(pdr: Pdr, data: nat, low: bool, high: bool): (r: Pdr)
    requires pdr.Ok()
    ensures r.Ok()
  {
    Pdr(if high then data / 256 % 128 else pdr.plf, false,
        if low then data / 8 % 2 == 1 else pdr.expandDown,
        if low then data / 2 % 4 else pdr.acf)
  }

  // A write loads SR0 bits 15-13, 8 and 0.
  function NewSr0(sr0: Sr0, data: nat, low: bool, high: bool): Sr0 {
    Sr0(if high then Faults(data / 0x8000 % 2 == 1, data / 0x4000 % 2 == 1, data / 0x2000 % 2 == 1) else sr0.faults,
        if high then data / 0x100 % 2 == 1 else sr0.maint,
        sr0.mode, sr0.page,
        if low then data % 2 == 1 else sr0.enable)
  }

  predicate Relocates(sr0: Sr0, enabMaint: bool) {
    sr0.enable || (sr0.maint && enabMaint)
  }

  function Step(s: Kt, e: Event): (r: (Kt, Outcome))
    requires s.Valid() && e.Ok()
    ensures r.0.Valid()
  {
    match e
    case LoadBa(vba, mode, enabMaint) => (MapBa(s, vba, mode, Relocates(s.sr0, enabMaint)), Idle)
    case Transfer(use, odd, answered, ktWrite) => RunTransfer(s, use, odd, answered, ktWrite)
    case LoadIr(pc) => (if s.sr0.faults.Any() then s else s.(sr2 := pc), Idle)
    case WritePar(i, data, low, high) =>
      (if low || high then s.(par := s.par[i := NewPar(s.par[i], data, low, high)]) else s, Idle)
    case WritePdr(i, data, low, high) =>
      (if low || high then s.(pdr := s.pdr[i := NewPdr(s.pdr[i], data, low, high)]) else s, Idle)
    case WriteSr0(data, low, high) => (s.(sr0 := NewSr0(s.sr0, data, low, high)), Idle)
    case BusInit(asserted) => (if asserted then s.(sr0 := SR0_CLEAR) else s, Idle)
  }

  predicate AllOk(es: seq<Event>) { forall i :: 0 <= i < |es| ==> es[i].Ok() }

  // The final state and the outcome of each event.
  function Run(s: Kt, es: seq<Event>): (r: (Kt, seq<Outcome>))
    requires s.Valid() && AllOk(es)
    ensures r.0.Valid() && |r.1| == |es|
    decreases |es|
  {
    if es == [] then (s, [])
    else
      var (s1, o) := Step(s, es[0]);
      var (s2, os) := Run(s1, es[1..]);
      (s2, [o] + os)
  }

  // ----- Where an access lands -----

  lemma FrameBits(x: nat, d: nat)
    requires d < 64
    ensures (x % 8192 * 64 + d) % 0x4_0000 == x % 4096 * 64 + d
  {
    var y := x % 8192;
    if y < 4096 { assert x % 4096 == y; } else { assert x % 4096 == y - 4096; }
  }

  /** The physical address is a displacement in frame PAF + block, modulo 4096. */
  lemma AddressIsFrame(paf: nat, vba: nat)
    ensures Address(paf, vba) == (paf + BlockOf(vba)) % 4096 * 64 + Displacement(vba)
    ensures Address(paf, vba) / 64 == (paf + BlockOf(vba)) % 4096 && Address(paf, vba) < 0x4_0000
  {
    FrameBits(paf + BlockOf(vba), Displacement(vba));
  }

  // The frames a page can reach in its length.
  predicate Permits(paf: nat, pdr: Pdr, frame: nat) {
    var block := (frame - paf) % 4096;
    block < 128 && Inside(pdr, block)
  }

  lemma FrameOfBlock(paf: nat, block: nat)
    requires block < 128
    ensures ((paf + block) % 4096 - paf) % 4096 == block
  {}

  lemma MappedFrame(paf: nat, pdr: Pdr, vba: nat)
    ensures Permits(paf, pdr, Address(paf, vba) / 64) <==> Inside(pdr, BlockOf(vba))
  {
    AddressIsFrame(paf, vba);
    FrameOfBlock(paf, BlockOf(vba));
  }

  /** Within a page no two virtual addresses share a physical one. */
  lemma PageIsInjective(paf: nat, v: nat, w: nat)
    requires v < 0x1_0000 && w < 0x1_0000 && PageOf(v) == PageOf(w)
    requires Address(paf, v) == Address(paf, w)
    ensures v == w
  {
    AddressIsFrame(paf, v);
    AddressIsFrame(paf, w);
    FrameOfBlock(paf, BlockOf(v));
    FrameOfBlock(paf, BlockOf(w));
    SameFrame((paf + BlockOf(v)) % 4096, Displacement(v), (paf + BlockOf(w)) % 4096, Displacement(w));
    Reassemble(v);
    Reassemble(w);
  }

  lemma SameFrame(f: nat, d: nat, g: nat, e: nat)
    requires d < 64 && e < 64 && f * 64 + d == g * 64 + e
    ensures f == g && d == e
  {}

  lemma Reassemble(v: nat)
    requires v < 0x1_0000
    ensures v == PageOf(v) * 8192 + BlockOf(v) * 64 + Displacement(v)
  {
    var b := v / 64;
    assert v / 8192 == b / 128;
  }

  // The address in BA is the one that a check of VBA would translate to.
  predicate Mapped(s: Kt)
    requires s.Valid()
  {
    s.page >= 0 ==> s.ba == Address(s.par[s.page], s.vba)
  }

  const POWER_UP := Kt(seq(16, _ => 0), seq(16, _ => Pdr(0, false, false, 0)), SR0_CLEAR, 0, 0, 0, 0, 0)

  lemma PowerUpIsMapped()
    ensures POWER_UP.Valid() && Mapped(POWER_UP)
  {
    AddressIsFrame(0, 0);
  }

  // What the page registers allow: the frame, and the type of the transfer.
  predicate Legal(par: seq<nat>, pdr: seq<Pdr>, a: Access)
    requires |par| == 16 && |pdr| == 16
  {
    && 0 <= a.page < 16
    && Permits(par[a.page], pdr[a.page], a.address / 64)
    && (pdr[a.page].acf == 3 || (pdr[a.page].acf == 1 && a.use.Dati?))
  }

  lemma ProceedIsLegal(s: Kt, f: Faults, use: Use, odd: bool, answered: bool, ktWrite: bool)
    requires s.Valid() && Mapped(s) && s.page >= 0
    requires f.Any() <==> !Granted(s.pdr[s.page], BlockOf(s.vba), s.mode, use)
    ensures var (s', o) := Proceed(s, f, use, odd, answered, ktWrite);
      && (o.Aborted? <==> f.Any()) && (o.Aborted? ==> s' == s)
      && (o.Ran? ==> o.access == Access(s.page, Address(s.par[s.page], s.vba), use) && Legal(s.par, s.pdr, o.access))
  {
    MappedFrame(s.par[s.page], s.pdr[s.page], s.vba);
  }

  lemma CheckGrants(s: Kt, use: Use)
    requires s.Valid() && s.page >= 0
    ensures var (s1, f) := Check(s, use);
      && s1 == s.(sr0 := s1.sr0)
      && (f.Any() <==> !Granted(s.pdr[s.page], BlockOf(s.vba), s.mode, use))
      && (f.Any() ==> s1.sr0.faults.Any())
  {
    FaultsExact(s.pdr[s.page], BlockOf(s.vba), s.mode, use);
  }

  /** A relocated transfer aborts exactly on a fault of its page. One that runs is
      legal, and one that aborts changes nothing but SR0. */
  lemma TransferIsChecked(s: Kt, use: Use, odd: bool, answered: bool, ktWrite: bool)
    requires s.Valid() && Mapped(s) && s.page >= 0
    ensures var (s', o) := RunTransfer(s, use, odd, answered, ktWrite);
      && (o.Aborted? <==> !Granted(s.pdr[s.page], BlockOf(s.vba), s.mode, use))
      && (o.Aborted? ==> s' == s.(sr0 := s'.sr0) && s'.sr0.faults.Any())
      && (o.Ran? ==> o.access == Access(s.page, Address(s.par[s.page], s.vba), use) && Legal(s.par, s.pdr, o.access))
  {
    CheckGrants(s, use);
    var (s1, f) := Check(s, use);
    ProceedIsLegal(s1, f, use, odd, answered, ktWrite);
  }

  // ----- Two phases -----

  ghost predicate NoParWrite(es: seq<Event>) { forall i :: 0 <= i < |es| ==> !es[i].WritePar? }
  ghost predicate NoPdrWrite(es: seq<Event>) { forall i :: 0 <= i < |es| ==> !es[i].WritePdr? }
  ghost predicate NoLoadBa(es: seq<Event>) { forall i :: 0 <= i < |es| ==> !es[i].LoadBa? }

  lemma StepKeepsMapped(s: Kt, e: Event)
    requires s.Valid() && e.Ok() && Mapped(s) && !e.WritePar?
    ensures Mapped(Step(s, e).0) && Step(s, e).0.par == s.par
    ensures !e.LoadBa? ==> var s' := Step(s, e).0; s'.page == s.page && s'.mode == s.mode && s'.vba == s.vba
  {}

  lemma {:induction false} RunKeepsMapped(s: Kt, es: seq<Event>)
    requires s.Valid() && AllOk(es) && Mapped(s) && NoParWrite(es)
    ensures Mapped(Run(s, es).0) && Run(s, es).0.par == s.par
    ensures NoLoadBa(es) ==> var s' := Run(s, es).0; s'.page == s.page && s'.mode == s.mode && s'.vba == s.vba
    decreases |es|
  {
    if es != [] {
      StepKeepsMapped(s, es[0]);
      RunKeepsMapped(Step(s, es[0]).0, es[1..]);
    }
  }

  /** Whatever happens between LOAD BA and the transfer but a new LOAD BA or a PAR
      write, the check translates the same VBA in the same page, and a transfer that
      passes it goes to frame PAF + block of the time of LOAD BA. */
  lemma {:induction false} MapThenCheck(s: Kt, vba: nat, mode: nat, enabMaint: bool, es: seq<Event>,
                     use: Use, odd: bool, answered: bool, ktWrite: bool)
    requires s.Valid() && vba < 0x1_0000 && mode < 4 && Relocates(s.sr0, enabMaint)
    requires AllOk(es) && NoLoadBa(es) && NoParWrite(es)
    ensures var s2 := Run(Step(s, LoadBa(vba, mode, enabMaint)).0, es).0;
      var i := Index(vba, mode);
      var o := Step(s2, Transfer(use, odd, answered, ktWrite)).1;
      && s2.page == i && s2.vba == vba && s2.mode == mode
      && (o.Aborted? <==> !Granted(s2.pdr[i], BlockOf(vba), mode, use))
      && (o.Ran? ==> o.access == Access(i, (s.par[i] + BlockOf(vba)) % 4096 * 64 + Displacement(vba), use))
  {
    MapHolds(s, vba, mode, enabMaint, es);
    CheckAfter(s, Run(Step(s, LoadBa(vba, mode, enabMaint)).0, es).0, vba, mode, use, odd, answered, ktWrite);
  }

  // What is left of LOAD BA before the transfer.
  ghost predicate StillMapped(s: Kt, s2: Kt, vba: nat, mode: nat) {
    && s2.Valid() && Mapped(s2) && s2.par == s.par
    && s2.page == Index(vba, mode) && s2.vba == vba && s2.mode == mode
  }

  lemma {:induction false} MapHolds(s: Kt, vba: nat, mode: nat, enabMaint: bool, es: seq<Event>)
    requires s.Valid() && vba < 0x1_0000 && mode < 4 && Relocates(s.sr0, enabMaint)
    requires AllOk(es) && NoLoadBa(es) && NoParWrite(es)
    ensures StillMapped(s, Run(Step(s, LoadBa(vba, mode, enabMaint)).0, es).0, vba, mode)
  {
    RunKeepsMapped(Step(s, LoadBa(vba, mode, enabMaint)).0, es);
  }

  lemma CheckAfter(s: Kt, s2: Kt, vba: nat, mode: nat, use: Use, odd: bool, answered: bool, ktWrite: bool)
    requires s.Valid() && StillMapped(s, s2, vba, mode)
    ensures var i := Index(vba, mode);
      var o := Step(s2, Transfer(use, odd, answered, ktWrite)).1;
      && (o.Aborted? <==> !Granted(s2.pdr[i], BlockOf(vba), mode, use))
      && (o.Ran? ==> o.access == Access(i, (s.par[i] + BlockOf(vba)) % 4096 * 64 + Displacement(vba), use))
  {
    TransferIsChecked(s2, use, odd, answered, ktWrite);
    AddressIsFrame(s.par[Index(vba, mode)], vba);
  }

  // ----- Isolation -----

  // Two descriptors that differ in W alone.
  predicate SameAccess(p: Pdr, q: Pdr) { p.(written := q.written) == q }

  ghost predicate SamePages(p: seq<Pdr>, q: seq<Pdr>) {
    |p| == |q| && forall i :: 0 <= i < |p| ==> SameAccess(p[i], q[i])
  }

  lemma StepIsLegal(s: Kt, e: Event)
    requires s.Valid() && e.Ok() && Mapped(s) && !e.WritePar? && !e.WritePdr?
    ensures var (s', o) := Step(s, e);
      Mapped(s') && s'.par == s.par && SamePages(s.pdr, s'.pdr)
      && (o.Ran? && o.access.page >= 0 ==> Legal(s.par, s.pdr, o.access))
  {
    StepKeepsMapped(s, e);
    if e.Transfer? && s.page >= 0 {
      TransferIsChecked(s, e.use, e.odd, e.answered, e.ktWrite);
    }
  }

  /** While the page registers stay, every relocated access of a run is legal under the
      registers that the run started with. */
  lemma {:induction false} RunIsLegal(s: Kt, es: seq<Event>, k: nat)
    requires s.Valid() && AllOk(es) && Mapped(s) && NoParWrite(es) && NoPdrWrite(es) && k < |es|
    ensures var o := Run(s, es).1[k]; o.Ran? && o.access.page >= 0 ==> Legal(s.par, s.pdr, o.access)
    decreases |es|
  {
    StepIsLegal(s, es[0]);
    var (s1, o) := Step(s, es[0]);
    if k > 0 {
      RunIsLegal(s1, es[1..], k - 1);
      assert Run(s, es).1[k] == Run(s1, es[1..]).1[k - 1];
      var a := Run(s, es).1[k];
      if a.Ran? && a.access.page >= 0 {
        assert SameAccess(s.pdr[a.access.page], s1.pdr[a.access.page]);
      }
    }
  }

  ghost predicate DisjointFrames(s: Kt, i: nat, j: nat)
    requires s.Valid() && i < 16 && j < 16
  {
    forall f :: 0 <= f < 4096 ==> !(Permits(s.par[i], s.pdr[i], f) && Permits(s.par[j], s.pdr[j], f))
  }

  lemma {:induction false} LegalAddress(s: Kt, es: seq<Event>, k: nat)
    requires s.Valid() && AllOk(es) && Mapped(s) && k < |es|
    requires NoParWrite(es)
    ensures var o := Run(s, es).1[k]; o.Ran? && o.access.page >= 0 ==> o.access.address < 0x4_0000
    decreases |es|
  {
    StepKeepsMapped(s, es[0]);
    if k == 0 {
      if s.page >= 0 { AddressIsFrame(s.par[s.page], s.vba); }
    } else {
      LegalAddress(Step(s, es[0]).0, es[1..], k - 1);
    }
  }

  /** Pages with disjoint frames never reach a common physical address. */
  lemma {:induction false} PagesAreIsolated(s: Kt, es: seq<Event>, i: nat, j: nat, k: nat, l: nat)
    requires s.Valid() && AllOk(es) && Mapped(s) && NoParWrite(es) && NoPdrWrite(es)
    requires i < 16 && j < 16 && DisjointFrames(s, i, j) && k < |es| && l < |es|
    ensures var (p, q) := (Run(s, es).1[k], Run(s, es).1[l]);
      p.Ran? && q.Ran? && p.access.page == i && q.access.page == j ==> p.access.address != q.access.address
  {
    RunIsLegal(s, es, k);
    RunIsLegal(s, es, l);
    LegalAddress(s, es, k);
  }

  // ----- Fault status -----

  ghost predicate KeepsSr0(es: seq<Event>) {
    forall i :: 0 <= i < |es| ==> !es[i].WriteSr0? && es[i] != BusInit(true)
  }

  /** With a fault in SR0, SR0 and SR2 stay until an SR0 write or BUS INIT. */
  lemma {:induction false} FaultIsFrozen(s: Kt, es: seq<Event>)
    requires s.Valid() && AllOk(es) && KeepsSr0(es) && s.sr0.faults.Any()
    ensures Run(s, es).0.sr0 == s.sr0 && Run(s, es).0.sr2 == s.sr2
    decreases |es|
  {
    if es != [] {
      var s1 := Step(s, es[0]).0;
      assert s1.sr0 == s.sr0 && s1.sr2 == s.sr2;
      FaultIsFrozen(s1, es[1..]);
    }
  }

  // The first transfer of a run that aborts: its faults, its mode and page, and the
  // address of the instruction.
  datatype FirstFault = NoFault | Fault(faults: Faults, mode: nat, page: nat, pc: nat)

  function FirstFaultOf(s: Kt, es: seq<Event>): FirstFault
    requires s.Valid() && AllOk(es)
    decreases |es|
  {
    if es == [] then NoFault
    else
      var (s1, o) := Step(s, es[0]);
      if o.Aborted? then Fault(o.faults, s.mode, PageOf(s.vba), s.sr2) else FirstFaultOf(s1, es[1..])
  }

  /** Without SR0 writes SR0 tells, at the end of any run, the first abort of it. */
  lemma {:induction false} StatusTellsFirstFault(s: Kt, es: seq<Event>)
    requires s.Valid() && AllOk(es) && KeepsSr0(es) && s.sr0.faults == NO_FAULT
    ensures var s' := Run(s, es).0;
      match FirstFaultOf(s, es)
      case NoFault => s'.sr0.faults == NO_FAULT
      case Fault(f, mode, page, pc) =>
        f.Any() && s'.sr0.faults == f && s'.sr0.mode == mode && s'.sr0.page == page && s'.sr2 == pc
    decreases |es|
  {
    if es != [] {
      var (s1, o) := Step(s, es[0]);
      if o.Aborted? {
        FaultIsFrozen(s1, es[1..]);
      } else {
        StatusTellsFirstFault(s1, es[1..]);
      }
    }
  }

  // ----- The W bit -----

  predicate MarksPage(e: Event, o: Outcome, i: nat) {
    e.Transfer? && e.use.C1() && e.answered && !e.ktWrite && o.Ran? && o.access.page == i
  }

  predicate ClearsPage(e: Event, i: nat) {
    e.WritePdr? && e.i == i && (e.low || e.high)
  }

  ghost predicate NoClear(es: seq<Event>, from: nat, i: nat) {
    forall j :: from <= j < |es| ==> !ClearsPage(es[j], i)
  }

  ghost predicate MarkedSince(es: seq<Event>, os: seq<Outcome>, i: nat, k: nat) {
    k < |es| == |os| && MarksPage(es[k], os[k], i) && NoClear(es, k + 1, i)
  }

  lemma StepWritten(s: Kt, e: Event, i: nat)
    requires s.Valid() && e.Ok() && i < 16
    ensures var (s', o) := Step(s, e);
      s'.pdr[i].written <==> MarksPage(e, o, i) || (s.pdr[i].written && !ClearsPage(e, i))
  {}

  /** W of a page is set exactly if a write went through it since the last PDR write. */
  lemma {:induction false} WrittenSinceLoad(s: Kt, es: seq<Event>, i: nat)
    requires s.Valid() && AllOk(es) && i < 16
    ensures var (s', os) := Run(s, es);
      s'.pdr[i].written <==> (s.pdr[i].written && NoClear(es, 0, i)) || exists k: nat :: MarkedSince(es, os, i, k)
    decreases |es|
  {
    var (s', os) := Run(s, es);
    if es != [] {
      var s1 := Step(s, es[0]).0;
      var rest, later := es[1..], os[1..];
      StepWritten(s, es[0], i);
      WrittenSinceLoad(s1, rest, i);
      assert later == Run(s1, rest).1;
      ClearsShift(es, i);
      if k: nat :| MarkedSince(rest, later, i, k) {
        assert MarkedSince(es, os, i, k + 1) by {
          forall j | k + 2 <= j < |es| ensures !ClearsPage(es[j], i) { assert es[j] == rest[j - 1]; }
        }
      }
      if k: nat :| MarkedSince(es, os, i, k) && k > 0 {
        assert MarkedSince(rest, later, i, k - 1);
      }
      if MarksPage(es[0], os[0], i) && NoClear(rest, 0, i) {
        assert MarkedSince(es, os, i, 0);
      }
    }
  }

  lemma ClearsShift(es: seq<Event>, i: nat)
    requires es != []
    ensures NoClear(es, 1, i) <==> NoClear(es[1..], 0, i)
    ensures NoClear(es, 0, i) <==> !ClearsPage(es[0], i) && NoClear(es[1..], 0, i)
  {
    var rest := es[1..];
    assert forall j :: 1 <= j < |es| ==> es[j] == rest[j - 1];
    if NoClear(rest, 0, i) {
      forall j | 1 <= j < |es| ensures !ClearsPage(es[j], i) { assert !ClearsPage(rest[j - 1], i); }
    }
    if NoClear(es, 1, i) {
      forall j | 0 <= j < |rest| ensures !ClearsPage(rest[j], i) { assert !ClearsPage(es[j + 1], i); }
    }
  }
}
