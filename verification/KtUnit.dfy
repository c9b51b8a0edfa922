/**
 The registers of KT memory management, updated in place by LOAD BA, by the check of
 a transfer, by writes and by BUS INIT. Each method is a step of KtMemory, and says what
 becomes of the correspondence between BA and VBA.
 */
module KtUnit {
  import opened KtMemory
  import opened KtRegisters

  // Why an address is translated: to load BA, or for a transfer.
  datatype Purpose = Map | For(use: Use)

  lemma StepKeeps(s: Kt, e: Event)
    requires s.Valid() && e.Ok() && !e.WritePar?
    ensures Mapped(s) ==> Mapped(Step(s, e).0)
  {
    if Mapped(s) { StepKeepsMapped(s, e); }
  }

  lemma CheckedIfMapped(s: Kt, use: Use, odd: bool, answered: bool, ktWrite: bool)
    requires s.Valid()
    ensures var o := RunTransfer(s, use, odd, answered, ktWrite).1;
      Mapped(s) && s.page >= 0 ==>
        && (o.Aborted? <==> !Granted(s.pdr[s.page], BlockOf(s.vba), s.mode, use))
        && (o.Ran? ==> o.access == Access(s.page, Address(s.par[s.page], s.vba), use) && Legal(s.par, s.pdr, o.access))
  {
    if Mapped(s) && s.page >= 0 { TransferIsChecked(s, use, odd, answered, ktWrite); }
  }

  class Unit {
    const par: array<nat>
    const pdr: array<Pdr>
    var sr0: Sr0
    var sr2: nat
    var page: int
    var mode: nat
    var vba: nat
    var ba: nat

    ghost function Model(): Kt
      reads this, par, pdr
    {
      Kt(par[..], pdr[..], sr0, sr2, page, mode, vba, ba)
    }

    ghost predicate Valid()
      reads this, par, pdr
    {
      Model().Valid()
    }

    // BA is what VBA translates to.
    ghost predicate Translated()
      requires Valid()
      reads this, par, pdr
    {
      Mapped(Model())
    }

    constructor ()
      ensures Model() == POWER_UP && fresh(par) && fresh(pdr)
    {
      par := new nat[16](_ => 0);
      pdr := new Pdr[16](_ => Pdr(0, false, false, 0));
      sr0, sr2, page, mode, vba, ba := SR0_CLEAR, 0, 0, 0, 0, 0;
      new;
      assert par[..] == POWER_UP.par;
      assert pdr[..] == POWER_UP.pdr;
    }

    method Translate(v: nat, m: nat, purpose: Purpose, relocate: bool) returns (faults: Faults, pba: nat)
      requires Valid() && v < 0x1_0000 && m < 4
      modifies `sr0, `page, `mode
      ensures !relocate ==> pba == Direct(v) && faults == NO_FAULT && page == -1 && mode == old(mode) && sr0 == old(sr0)
      ensures relocate ==> pba == Address(par[Index(v, m)], v) && page == Index(v, m) && mode == m
      ensures relocate && purpose.Map? ==> faults == NO_FAULT && sr0 == Track(old(sr0), m, v)
      ensures relocate && purpose.For? ==>
        faults == FaultsOf(pdr[page], BlockOf(v), m, purpose.use) && sr0 == Latch(Track(old(sr0), m, v), faults, m, v)
    {
      faults := NO_FAULT;
      page := -1;
      if !relocate {
        return NO_FAULT, Direct(v);
      }
      var i := Index(v, m);
      if !sr0.faults.Any() {
        sr0 := sr0.(mode := m, page := PageOf(v));
      }
      page, mode := i, m;
      pba := Address(par[i], v);
      if purpose.For? {
        faults := FaultsOf(pdr[i], BlockOf(v), m, purpose.use);
        if faults.Any() && !sr0.faults.Any() {
          sr0 := sr0.(faults := faults, mode := m, page := PageOf(v));
        }
      }
    }

    method Load(v: nat, m: nat, enabMaint: bool)
      requires Valid() && v < 0x1_0000 && m < 4
      modifies `sr0, `page, `mode, `vba, `ba
      ensures Valid() && (Model(), Idle) == Step(old(Model()), LoadBa(v, m, enabMaint))
      ensures Translated()
      ensures old(sr0.enable || (sr0.maint && enabMaint)) ==>
        var i := v / 0x2000 + if m == 3 then 8 else 0;
        page == i < 16 && mode == m && ba == (par[i] + v / 64 % 128) % 4096 * 64 + v % 64
      ensures !old(sr0.enable || (sr0.maint && enabMaint)) ==>
        page == -1 && ba == if v >= 0xE000 then 0x3_0000 + v else v
    {
      LoadBaMeans(Model(), v, m, enabMaint);
      var relocate := Relocates(sr0, enabMaint);
      var _, pba := Translate(v, m, Map, relocate);
      vba, ba := v, pba;
    }

    method Perform(use: Use, odd: bool, answered: bool, ktWrite: bool) returns (o: Outcome)
      requires Valid()
      modifies `sr0, `page, `mode, pdr
      ensures Valid() && (Model(), o) == Step(old(Model()), Transfer(use, odd, answered, ktWrite))
      ensures old(Translated()) ==> Translated()
      ensures old(Translated()) && page >= 0 ==>
        && (o.Aborted? <==> !Granted(old(pdr[page]), BlockOf(vba), mode, use))
        && (o.Ran? ==> o.access == Access(page, Address(par[page], vba), use) && Legal(par[..], old(pdr[..]), o.access))
    {
      StepKeeps(Model(), Transfer(use, odd, answered, ktWrite));
      CheckedIfMapped(Model(), use, odd, answered, ktWrite);
      var f := CheckPage(use);
      o := Finish(f, use, odd, answered, ktWrite);
    }

    method CheckPage(use: Use) returns (f: Faults)
      requires Valid()
      modifies `sr0, `page, `mode
      ensures Valid()
      ensures (Model(), f) == if old(page) >= 0 then Check(old(Model()), use) else (old(Model()), NO_FAULT)
    {
      f := NO_FAULT;
      if page >= 0 {
        ghost var s := Model();
        var pba;
        f, pba := Translate(vba, mode, For(use), true);
        assert Model() == s.(sr0 := sr0);
      }
    }

    // A fault or an odd address cancels the transfer.
    method Finish(f: Faults, use: Use, odd: bool, answered: bool, ktWrite: bool) returns (o: Outcome)
      requires Valid()
      modifies pdr
      ensures Valid() && (Model(), o) == Proceed(old(Model()), f, use, odd, answered, ktWrite)
    {
      if f.Any() {
        return Aborted(f);
      }
      if odd {
        return Cancelled;
      }
      o := Ran(Access(page, ba, use));
      if page >= 0 && use.C1() && answered && !ktWrite {
        pdr[page] := pdr[page].(written := true);
      }
    }

    method FetchInstruction(pc: nat)
      requires Valid()
      modifies `sr2
      ensures Valid() && (Model(), Idle) == Step(old(Model()), LoadIr(pc))
      ensures old(Translated()) ==> Translated()
    {
      StepKeeps(Model(), LoadIr(pc));
      if !sr0.faults.Any() {
        sr2 := pc;
      }
    }

    method SetPar(i: nat, data: nat, low: bool, high: bool)
      requires Valid() && i < 16
      modifies par
      ensures Valid() && (Model(), Idle) == Step(old(Model()), WritePar(i, data, low, high))
      ensures old(Translated()) ==> (Translated() <==> i != page || Address(par[i], vba) == ba)
    {
      if low || high {
        par[i] := NewPar(par[i], data, low, high);
      }
    }

    method SetPdr(i: nat, data: nat, low: bool, high: bool)
      requires Valid() && i < 16
      modifies pdr
      ensures Valid() && (Model(), Idle) == Step(old(Model()), WritePdr(i, data, low, high))
      ensures old(Translated()) ==> Translated()
    {
      StepKeeps(Model(), WritePdr(i, data, low, high));
      if low || high {
        pdr[i] := NewPdr(pdr[i], data, low, high);
      }
    }

    method SetSr0(data: nat, low: bool, high: bool)
      requires Valid()
      modifies `sr0
      ensures Valid() && (Model(), Idle) == Step(old(Model()), WriteSr0(data, low, high))
      ensures sr0.enable == (if low then data % 2 == 1 else old(sr0.enable))
      ensures sr0.maint == (if high then data / 0x100 % 2 == 1 else old(sr0.maint))
      ensures old(Translated()) ==> Translated()
    {
      StepKeeps(Model(), WriteSr0(data, low, high));
      sr0 := NewSr0(sr0, data, low, high);
    }

    method Init(asserted: bool)
      requires Valid()
      modifies `sr0
      ensures Valid() && (Model(), Idle) == Step(old(Model()), BusInit(asserted))
      ensures old(Translated()) ==> Translated()
    {
      StepKeeps(Model(), BusInit(asserted));
      if asserted {
        sr0 := SR0_CLEAR;
      }
    }
  }
}
