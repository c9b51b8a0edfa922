/**
 What the KT registers mean over a run: each bit of SR0, of a PAR and of a PDR is the one
 last written, the SR0 bits turn relocation on, and from then on every access is confined
 to the pages.
 */
module KtRegisters {
  import opened Bits
  import opened Bytes
  import opened KtMemory

  // ----- Runs in two parts -----

  lemma {:induction false} RunSplit(s: Kt, es: seq<Event>, k: nat)
    requires s.Valid() && AllOk(es) && k <= |es|
    ensures var mid := Run(s, es[..k]).0;
      Run(s, es).0 == Run(mid, es[k..]).0 && Run(s, es).1 == Run(s, es[..k]).1 + Run(mid, es[k..]).1
    decreases |es|
  {
    if k == 0 {
      assert es[..0] == [] && es[0..] == es;
    } else {
      RunSplit(Step(s, es[0]).0, es[1..], k - 1);
      assert es[1..][..k - 1] == es[..k][1..] && es[1..][k - 1..] == es[k..];
    }
  }

  // Event k and the ones after it.
  lemma {:induction false} RunFrom(s: Kt, es: seq<Event>, k: nat)
    requires s.Valid() && AllOk(es) && k < |es|
    ensures var mid := Run(s, es[..k]).0;
      Run(s, es).0 == Run(Step(mid, es[k]).0, es[k + 1..]).0
  {
    RunSplit(s, es, k);
    assert es[k..][0] == es[k] && es[k..][1..] == es[k + 1..];
  }

  // ----- The bits of the registers -----

  // The writes that load bit b of a register, by its byte lane.
  predicate LoadsPar(e: Event, i: nat, b: nat) {
    e.WritePar? && e.i == i && if b < 8 then e.low else e.high
  }

  predicate LoadsPdr(e: Event, i: nat, b: nat) {
    e.WritePdr? && e.i == i && if b < 8 then e.low else e.high
  }

  predicate LoadsSr0(e: Event, b: nat) {
    e.WriteSr0? && if b < 8 then e.low else e.high
  }

  ghost predicate LastPar(es: seq<Event>, k: nat, i: nat, b: nat) {
    k < |es| && LoadsPar(es[k], i, b) && forall j :: k < j < |es| ==> !LoadsPar(es[j], i, b)
  }

  ghost predicate LastPdr(es: seq<Event>, k: nat, i: nat, b: nat) {
    k < |es| && LoadsPdr(es[k], i, b) && forall j :: k < j < |es| ==> !LoadsPdr(es[j], i, b)
  }

  // The last write of bit b of SR0, with no BUS INIT since.
  ghost predicate LastSr0(es: seq<Event>, k: nat, b: nat) {
    k < |es| && LoadsSr0(es[k], b) && forall j :: k < j < |es| ==> !LoadsSr0(es[j], b) && es[j] != BusInit(true)
  }

  lemma {:induction false} LaneBits(low: nat, high: nat, b: nat)
    requires low < 256 && high < 16
    ensures Bit(low + 256 * high, b) == if b < 8 then Bit(low, b) else if b < 12 then Bit(high, b - 8) else 0
  {
    Powers();
    BitAbove(low, high, 8, b);
    if b >= 12 {
      BitAbove(high, 0, 4, b - 8);
      ZeroBit(b - 12);
    }
  }

  lemma Powers()
    ensures Pow2(1) == 2 && Pow2(2) == 4 && Pow2(3) == 8 && Pow2(4) == 16 && Pow2(7) == 128 && Pow2(8) == 256
  {
    assert Pow2(5) == 32;
  }

  // Bits of a remainder and of a quotient.
  lemma {:induction false} DividedBits(q: nat, m: nat, n: nat, w: nat, x: nat, b: nat)
    requires n == Pow2(w) && m < n && x == m + n * q
    ensures b < w ==> Bit(m, b) == Bit(x, b)
    ensures Bit(q, b) == Bit(x, b + w)
  {
    BitAbove(m, q, w, b);
    BitAbove(m, q, w, b + w);
  }

  lemma {:induction false} NewParBit(par: nat, data: nat, low: bool, high: bool, b: nat)
    requires par < 4096
    ensures Bit(NewPar(par, data, low, high), b) ==
      if b >= 12 then 0 else if (if b < 8 then low else high) then Bit(data, b) else Bit(par, b)
  {
    var (l, h) := (if low then data % 256 else par % 256, (if high then data / 256 else par / 256) % 16);
    LaneBits(l, h, b);
    if b < 8 {
      LowByteBit(data, b);
      LowByteBit(par, b);
    } else if b < 12 {
      HighByteBit(data, b - 8);
      HighByteBit(par, b - 8);
    }
  }

  lemma {:induction false} LowByteBit(x: nat, b: nat)
    requires b < 8
    ensures Bit(x % 256, b) == Bit(x, b)
  {
    Powers();
    DividedBits(x / 256, x % 256, 256, 8, x, b);
  }

  lemma {:induction false} HighByteBit(x: nat, b: nat)
    requires b < 4
    ensures Bit(x / 256 % 16, b) == Bit(x, b + 8)
  {
    Powers();
    DividedBits(x / 256, x % 256, 256, 8, x, b);
    DividedBits(x / 256 / 16, x / 256 % 16, 16, 4, x / 256, b);
  }

  lemma {:induction false} ParBitKept(s: Kt, es: seq<Event>, i: nat, b: nat)
    requires s.Valid() && AllOk(es) && i < 16 && forall j :: 0 <= j < |es| ==> !LoadsPar(es[j], i, b)
    ensures Bit(Run(s, es).0.par[i], b) == Bit(s.par[i], b)
    decreases |es|
  {
    if es != [] {
      ParBitStep(s, es[0], i, b);
      ParBitKept(Step(s, es[0]).0, es[1..], i, b);
    }
  }

  lemma {:induction false} ParBitStep(s: Kt, e: Event, i: nat, b: nat)
    requires s.Valid() && e.Ok() && i < 16
    ensures Bit(Step(s, e).0.par[i], b) ==
      if LoadsPar(e, i, b) then (if b < 12 then Bit(e.data, b) else 0) else Bit(s.par[i], b)
  {
    SmallHasNoBit(s.par[i], b);
    if e.WritePar? && e.i == i { NewParBit(s.par[i], e.data, e.low, e.high, b); }
  }

  lemma {:induction false} SmallHasNoBit(x: nat, b: nat)
    requires x < 4096
    ensures b >= 12 ==> Bit(x, b) == 0
  {
    LaneBits(x % 256, x / 256, b);
  }

  /** Over any run a bit of a PAR is the one of the last write that loaded its byte. Only
      twelve are kept. */
  lemma {:induction false} ParIsLastWritten(s: Kt, es: seq<Event>, k: nat, i: nat, b: nat)
    requires s.Valid() && AllOk(es) && i < 16 && LastPar(es, k, i, b)
    ensures Bit(Run(s, es).0.par[i], b) == if b < 12 then Bit(es[k].data, b) else 0
  {
    var mid := Run(s, es[..k]).0;
    RunFrom(s, es, k);
    ParBitStep(mid, es[k], i, b);
    ParBitKept(Step(mid, es[k]).0, es[k + 1..], i, b);
  }

  // ----- Descriptors -----

  // The fields of a descriptor as bits 14 to 8, 3, 2 and 1 of its register.
  predicate PdrBit(p: Pdr, b: nat, data: nat) {
    match b
    case 1 => Bit(p.acf, 0) == Bit(data, 1)
    case 2 => Bit(p.acf, 1) == Bit(data, 2)
    case 3 => p.expandDown <==> Bit(data, 3) == 1
    case _ => 8 <= b < 15 ==> Bit(p.plf, b - 8) == Bit(data, b)
  }

  // A bit of it is the same.
  predicate SamePdrBit(p: Pdr, q: Pdr, b: nat) {
    if b < 3 then p.acf == q.acf else if b < 8 then p.expandDown == q.expandDown else p.plf == q.plf
  }

  lemma {:induction false} PdrBitKept(s: Kt, es: seq<Event>, i: nat, b: nat)
    requires s.Valid() && AllOk(es) && i < 16 && forall j :: 0 <= j < |es| ==> !LoadsPdr(es[j], i, b)
    ensures SamePdrBit(Run(s, es).0.pdr[i], s.pdr[i], b)
    decreases |es|
  {
    if es != [] {
      PdrStepKeeps(s, es[0], i, b);
      PdrBitKept(Step(s, es[0]).0, es[1..], i, b);
    }
  }

  lemma {:induction false} PdrStepKeeps(s: Kt, e: Event, i: nat, b: nat)
    requires s.Valid() && e.Ok() && i < 16 && !LoadsPdr(e, i, b)
    ensures SamePdrBit(Step(s, e).0.pdr[i], s.pdr[i], b)
  {}

  lemma {:induction false} NewPdrBit(p: Pdr, data: nat, low: bool, high: bool, b: nat)
    requires p.Ok() && b < 15 && if b < 8 then low else high
    ensures PdrBit(NewPdr(p, data, low, high), b, data)
  {
    Powers();
    DividedBits(data / 2, data % 2, 2, 1, data, 0);
    DividedBits(data / 2, data % 2, 2, 1, data, 1);
    DividedBits(data / 2 / 4, data / 2 % 4, 4, 2, data / 2, 0);
    DividedBits(data / 2 / 4, data / 2 % 4, 4, 2, data / 2, 1);
    DividedBits(data / 8, data % 8, 8, 3, data, 0);
    if b >= 8 {
      DividedBits(data / 256, data % 256, 256, 8, data, b - 8);
      DividedBits(data / 256 / 128, data / 256 % 128, 128, 7, data / 256, b - 8);
    }
  }

  /** Over any run the page length, direction and access of a descriptor are, bit by bit,
      those of the last write that loaded their byte. */
  lemma {:induction false} PdrIsLastWritten(s: Kt, es: seq<Event>, k: nat, i: nat, b: nat)
    requires s.Valid() && AllOk(es) && i < 16 && b < 15 && LastPdr(es, k, i, b)
    ensures PdrBit(Run(s, es).0.pdr[i], b, es[k].data)
  {
    var mid := Run(s, es[..k]).0;
    RunFrom(s, es, k);
    NewPdrBit(mid.pdr[i], es[k].data, es[k].low, es[k].high, b);
    PdrBitKept(Step(mid, es[k]).0, es[k + 1..], i, b);
  }

  // ----- SR0 -----

  lemma {:induction false} Sr0Kept(s: Kt, es: seq<Event>, b: nat)
    requires s.Valid() && AllOk(es) && (b == 0 || b == 8)
    requires forall j :: 0 <= j < |es| ==> !LoadsSr0(es[j], b) && es[j] != BusInit(true)
    ensures var s' := Run(s, es).0; if b == 0 then s'.sr0.enable == s.sr0.enable else s'.sr0.maint == s.sr0.maint
    decreases |es|
  {
    if es != [] {
      Sr0StepKeeps(s, es[0], b);
      Sr0Kept(Step(s, es[0]).0, es[1..], b);
    }
  }

  lemma {:induction false} Sr0StepKeeps(s: Kt, e: Event, b: nat)
    requires s.Valid() && e.Ok() && (b == 0 || b == 8) && !LoadsSr0(e, b) && e != BusInit(true)
    ensures var s' := Step(s, e).0; if b == 0 then s'.sr0.enable == s.sr0.enable else s'.sr0.maint == s.sr0.maint
  {}

  /** Over any run SR0 bits 0 and 8 are those of the last write that loaded their byte, if
      there was no BUS INIT since. */
  lemma {:induction false} Sr0IsLastWritten(s: Kt, es: seq<Event>, k: nat, b: nat)
    requires s.Valid() && AllOk(es) && (b == 0 || b == 8) && LastSr0(es, k, b)
    ensures (if b == 0 then Run(s, es).0.sr0.enable else Run(s, es).0.sr0.maint) <==> Bit(es[k].data, b) == 1
  {
    RunFrom(s, es, k);
    Sr0Kept(Step(Run(s, es[..k]).0, es[k]).0, es[k + 1..], b);
    Powers();
    DividedBits(es[k].data / 256, es[k].data % 256, 256, 8, es[k].data, 0);
  }

  /** BUS INIT clears both. */
  lemma {:induction false} Sr0ClearedByInit(s: Kt, es: seq<Event>, k: nat, b: nat)
    requires s.Valid() && AllOk(es) && (b == 0 || b == 8) && k < |es| && es[k] == BusInit(true)
    requires forall j :: k < j < |es| ==> !LoadsSr0(es[j], b)
    ensures !(if b == 0 then Run(s, es).0.sr0.enable else Run(s, es).0.sr0.maint)
    decreases |es| - k
  {
    if j :| k < j < |es| && es[j] == BusInit(true) {
      Sr0ClearedByInit(s, es, j, b);
    } else {
      RunFrom(s, es, k);
      Sr0Kept(Step(Run(s, es[..k]).0, es[k]).0, es[k + 1..], b);
    }
  }

  // ----- LOAD BA -----

  /** LOAD BA relocates if and only if SR0 bit 0 is set, or bit 8 and ENAB MAINT. Then it
      selects one of eight pages by the top three bits, in the user set for mode 3, and BA is
      the address in the frame of the block. Otherwise BA is VBA, with the top 4096 words
      in the I/O page. */
  lemma {:induction false} LoadBaMeans(s: Kt, vba: nat, mode: nat, enabMaint: bool)
    requires s.Valid() && vba < 0x1_0000 && mode < 4
    ensures var s' := Step(s, LoadBa(vba, mode, enabMaint)).0;
      && s'.vba == vba
      && if s.sr0.enable || (s.sr0.maint && enabMaint) then
           var i := vba / 0x2000 + if mode == 3 then 8 else 0;
           s'.page == i < 16 && s'.mode == mode && s'.ba == (s.par[i] + vba / 64 % 128) % 4096 * 64 + vba % 64
         else
           s'.page == -1 && s'.ba == if vba >= 0xE000 then 0x3_0000 + vba else vba
  {
    assert vba / 0x2000 % 8 == vba / 0x2000;
    AddressIsFrame(s.par[Index(vba, mode)], vba);
  }

  /** So the last write of SR0 decides it. */
  lemma {:induction false} SwitchedByWrite(s: Kt, es: seq<Event>, k: nat, vba: nat, mode: nat, enabMaint: bool)
    requires s.Valid() && AllOk(es) && LastSr0(es, k, 0) && vba < 0x1_0000 && mode < 4
    ensures var s1 := Run(s, es).0;
      var s' := Step(s1, LoadBa(vba, mode, enabMaint)).0;
      && (Bit(es[k].data, 0) == 1 ==> s'.page == vba / 0x2000 + if mode == 3 then 8 else 0)
      && (Bit(es[k].data, 0) != 1 && !enabMaint ==> s'.page == -1)
      && (forall m: nat :: LastSr0(es, m, 8) && Bit(es[m].data, 8) == 1 && enabMaint ==>
            s'.page == vba / 0x2000 + if mode == 3 then 8 else 0)
  {
    Sr0IsLastWritten(s, es, k, 0);
    forall m: nat | LastSr0(es, m, 8) ensures Run(s, es).0.sr0.maint <==> Bit(es[m].data, 8) == 1 {
      Sr0IsLastWritten(s, es, m, 8);
    }
    LoadBaMeans(Run(s, es).0, vba, mode, enabMaint);
  }

  /** Until an abort freezes them, SR0 bits 6 to 1 are mode and page of the last relocated
      LOAD BA. */
  lemma {:induction false} Sr0Follows(s: Kt, vba: nat, mode: nat, enabMaint: bool)
    requires s.Valid() && vba < 0x1_0000 && mode < 4
    ensures var s' := Step(s, LoadBa(vba, mode, enabMaint)).0;
      s'.sr0 == if (s.sr0.enable || (s.sr0.maint && enabMaint)) && s.sr0.faults == Faults(false, false, false)
                then s.sr0.(mode := mode, page := vba / 0x2000) else s.sr0
  {
    assert vba / 0x2000 % 8 == vba / 0x2000;
  }

  /** Of the writable bits a write loads those of its bytes: 15 to 13 and 8, and 0. BUS INIT
      clears all of SR0. Neither touches a page register or SR2. */
  lemma {:induction false} Sr0Steps(s: Kt, data: nat, low: bool, high: bool)
    requires s.Valid()
    ensures var s' := Step(s, WriteSr0(data, low, high)).0;
      && s' == s.(sr0 := s'.sr0) && s'.sr0.mode == s.sr0.mode && s'.sr0.page == s.sr0.page
      && (if high then
            && (s'.sr0.faults.nonResident <==> Bit(data, 15) == 1) && (s'.sr0.faults.pageLength <==> Bit(data, 14) == 1)
            && (s'.sr0.faults.readOnly <==> Bit(data, 13) == 1) && (s'.sr0.maint <==> Bit(data, 8) == 1)
          else s'.sr0.faults == s.sr0.faults && s'.sr0.maint == s.sr0.maint)
      && (s'.sr0.enable <==> if low then Bit(data, 0) == 1 else s.sr0.enable)
    ensures Step(s, BusInit(true)).0 == s.(sr0 := Sr0(Faults(false, false, false), false, 0, 0, false))
    ensures Step(s, BusInit(false)).0 == s
  {
    HighBits(data);
  }

  lemma {:induction false} HighBits(data: nat)
    ensures Bit(data, 8) == data / 0x100 % 2 && Bit(data, 13) == data / 0x2000 % 2
    ensures Bit(data, 14) == data / 0x4000 % 2 && Bit(data, 15) == data / 0x8000 % 2
  {
    Powers();
    assert Pow2(13) == 0x2000 && Pow2(14) == 0x4000 && Pow2(15) == 0x8000 by {
      assert Pow2(10) == 1024 by { assert Pow2(9) == 512; }
      assert Pow2(12) == 4096;
    }
    DividedBits(data / 0x100, data % 0x100, 0x100, 8, data, 0);
    DividedBits(data / 0x2000, data % 0x2000, 0x2000, 13, data, 0);
    DividedBits(data / 0x4000, data % 0x4000, 0x4000, 14, data, 0);
    DividedBits(data / 0x8000, data % 0x8000, 0x8000, 15, data, 0);
  }

  lemma {:induction false} Sr2Kept(s: Kt, es: seq<Event>)
    requires s.Valid() && AllOk(es) && forall j :: 0 <= j < |es| ==> !es[j].LoadIr?
    ensures Run(s, es).0.sr2 == s.sr2
    decreases |es|
  {
    if es != [] { Sr2Kept(Step(s, es[0]).0, es[1..]); }
  }

  /** SR2 is the address of the last instruction fetched, unless SR0 had a fault then. */
  lemma {:induction false} Sr2IsLastFetched(s: Kt, es: seq<Event>, k: nat)
    requires s.Valid() && AllOk(es) && k < |es| && es[k].LoadIr?
    requires (forall j :: k < j < |es| ==> !es[j].LoadIr?) && Run(s, es[..k]).0.sr0.faults == Faults(false, false, false)
    ensures Run(s, es).0.sr2 == es[k].pc
  {
    RunFrom(s, es, k);
    Sr2Kept(Step(Run(s, es[..k]).0, es[k]).0, es[k + 1..]);
  }

  /** How a transfer ends: aborted by its page, cancelled by an odd address, or run at BA.
      Only a relocated write that is answered and does not go to a KT register marks its
      page. */
  lemma {:induction false} TransferEnds(s: Kt, use: Use, odd: bool, answered: bool, ktWrite: bool)
    requires s.Valid()
    ensures var (s', o) := Step(s, Transfer(use, odd, answered, ktWrite));
      var granted := s.page == -1 || Granted(s.pdr[s.page], s.vba / 64 % 128, s.mode, use);
      && (o.Aborted? <==> !granted) && (o.Cancelled? <==> granted && odd)
      && (granted && !odd ==> o == Ran(Access(s.page, s.ba, use)))
      && s'.par == s.par && s'.ba == s.ba && s'.page == s.page
      && s'.pdr == if granted && !odd && s.page >= 0 && (use.Dato? || use.Datob?) && answered && !ktWrite
                   then s.pdr[s.page := s.pdr[s.page].(written := true)] else s.pdr
  {
    if s.page >= 0 { FaultsExact(s.pdr[s.page], BlockOf(s.vba), s.mode, use); }
  }

  // ----- Isolation -----

  // Relocation stays on, and the page registers as they are.
  ghost predicate Confines(es: seq<Event>) {
    && NoParWrite(es) && NoPdrWrite(es)
    && forall j :: 0 <= j < |es| ==> !LoadsSr0(es[j], 0) && es[j] != BusInit(true)
  }

  // Relocation is on, and BA has been loaded since.
  predicate On(s: Kt) { s.Valid() && Mapped(s) && s.sr0.enable && s.page >= 0 }

  lemma {:induction false} StaysOn(s: Kt, e: Event)
    requires On(s) && e.Ok() && !e.WritePar? && !e.WritePdr? && !LoadsSr0(e, 0) && e != BusInit(true)
    ensures On(Step(s, e).0)
    ensures var o := Step(s, e).1; o.Ran? ==> o.access.page == s.page
  {
    StepKeepsMapped(s, e);
  }

  /** With relocation on, every access of a run goes through a page and is legal there. */
  lemma {:induction false} EveryAccessIsLegal(s: Kt, es: seq<Event>, l: nat)
    requires On(s) && AllOk(es) && Confines(es) && l < |es|
    ensures var o := Run(s, es).1[l]; o.Ran? ==> o.access.page >= 0 && Legal(s.par, s.pdr, o.access)
    decreases |es|
  {
    AccessIsPaged(s, es, l);
    RunIsLegal(s, es, l);
  }

  lemma {:induction false} AccessIsPaged(s: Kt, es: seq<Event>, l: nat)
    requires On(s) && AllOk(es) && Confines(es) && l < |es|
    ensures var o := Run(s, es).1[l]; o.Ran? ==> o.access.page >= 0
    decreases |es|
  {
    StaysOn(s, es[0]);
    if l > 0 { AccessIsPaged(Step(s, es[0]).0, es[1..], l - 1); }
  }

  /** From a write that sets SR0 bit 0 on: after the first LOAD BA every access that runs is
      legal under the page registers, as long as these and SR0 are not written again. */
  lemma {:induction false} LegalFromWrite(s: Kt, es: seq<Event>, data: nat, high: bool, vba: nat, mode: nat, enabMaint: bool, l: nat)
    requires s.Valid() && Bit(data, 0) == 1 && vba < 0x1_0000 && mode < 4 && AllOk(es) && Confines(es) && l < |es|
    ensures var on := Step(s, WriteSr0(data, true, high)).0;
      var o := Run(Step(on, LoadBa(vba, mode, enabMaint)).0, es).1[l];
      o.Ran? ==> o.access.page >= 0 && Legal(s.par, s.pdr, o.access)
  {
    var on := Step(s, WriteSr0(data, true, high)).0;
    LoadBaMeans(on, vba, mode, enabMaint);
    EveryAccessIsLegal(Step(on, LoadBa(vba, mode, enabMaint)).0, es, l);
  }

  lemma {:induction false} UserPagesOnly(s: Kt, es: seq<Event>, l: nat)
    requires On(s) && s.page >= 8 && AllOk(es) && Confines(es) && l < |es|
    requires forall j :: 0 <= j < |es| && es[j].LoadBa? ==> es[j].mode == 3
    ensures var o := Run(s, es).1[l]; o.Ran? ==> o.access.page >= 8
    decreases |es|
  {
    StaysOn(s, es[0]);
    if l > 0 { UserPagesOnly(Step(s, es[0]).0, es[1..], l - 1); }
  }

  /** A run in user mode never touches a frame that no user page permits. */
  lemma {:induction false} UserIsConfined(s: Kt, es: seq<Event>, l: nat, frame: nat)
    requires On(s) && s.page >= 8 && AllOk(es) && Confines(es) && l < |es|
    requires forall j :: 0 <= j < |es| && es[j].LoadBa? ==> es[j].mode == 3
    requires forall i :: 8 <= i < 16 ==> !Permits(s.par[i], s.pdr[i], frame)
    ensures var o := Run(s, es).1[l]; o.Ran? ==> o.access.address / 64 != frame
  {
    UserPagesOnly(s, es, l);
    EveryAccessIsLegal(s, es, l);
  }

  /** Once SR0 bit 0 is set, a reference to a page without access is aborted, */
  lemma {:induction false} EnabledIsChecked(s: Kt, data: nat, vba: nat, use: Use, odd: bool, answered: bool)
    requires s.Valid() && Bit(data, 0) == 1 && vba < 0x1_0000 && s.pdr[vba / 0x2000].acf == 0
    ensures var on := Step(s, WriteSr0(data, true, false)).0;
      var s' := Step(on, LoadBa(vba, 0, false)).0;
      s'.page == vba / 0x2000 && Step(s', Transfer(use, odd, answered, false)).1.Aborted?
  {
    var on := Step(s, WriteSr0(data, true, false)).0;
    LoadBaMeans(on, vba, 0, false);
    TransferIsChecked(Step(on, LoadBa(vba, 0, false)).0, use, odd, answered, false);
  }

  /** as every page is at power up. */
  lemma {:induction false} PowerUpHasNoAccess(s: Kt, i: nat)
    requires s == POWER_UP && i < 16
    ensures !s.sr0.enable && !s.sr0.maint && s.pdr[i].acf == 0
  {}
}
