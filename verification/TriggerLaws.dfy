// What a native trigger does by the bits of its tdata1: when it fires, and what the
// trap handler then sees (src/pydebug/model/native_trigger.py, Sdtrig 5.7.12 to 5.7.15).

module TriggerLaws {
  import opened Bits
  import opened NativeTriggers

  /** The type field, the upper four bits of the register. */
  function TypeField(t: Trigger): nat
  {
    if t.xlen == 64 then (t.tdata1 / 0x1000_0000_0000_0000) % 16 else (t.tdata1 / 0x1000_0000) % 16
  }

  lemma TypeFieldIs(t: Trigger)
    ensures TypeField(t) == TypeOf(t)
  {
    hide Extract, Pow2;
    ExtractIsDivMod(t.tdata1, 60, 4);
    ExtractIsDivMod(t.tdata1, 28, 4);
    LowPowers();
    HighPowers();
  }

  lemma LowPowers()
    ensures Pow2(4) == 16 && Pow2(28) == 0x1000_0000 && Pow2(36) == 0x10_0000_0000
  {
    assert Pow2(12) == 0x1000;
    assert Pow2(20) == 0x10_0000;
    assert Pow2(28) == 0x1000_0000;
  }

  lemma HighPowers()
    ensures Pow2(60) == 0x1000_0000_0000_0000
  {
    LowPowers();
    assert Pow2(44) == 0x1000_0000_0000;
    assert Pow2(52) == 0x10_0000_0000_0000;
  }

  lemma BitField(w: nat, k: nat)
    ensures Extract(w, k, 1) == FromBool(Bit(w, k))
  {
    BitExtract(w, k, 1, 0);
    assert Low(Shr(w, k), 1) == Shr(w, k) % 2;
  }

  /** The mode bit of an address match; of a counter or a trap. */
  function MatchMode(prv: Prv): nat { match prv case PrvM => 6 case PrvS => 4 case PrvU => 3 }
  function TrapMode(prv: Prv): nat { match prv case PrvM => 9 case PrvS => 7 case PrvU => 6 }

  /** The address an address match compares, and the bit that enables comparing it. */
  function Compared(ev: Event): nat { if ev.kind == Execute then ev.pc else ev.address }
  predicate Comparing(w: nat, kind: Kind)
  {
    (kind == Execute && Bit(w, 2)) || (kind == Store && Bit(w, 1)) || (kind == Load && Bit(w, 0))
  }

  /** When a trigger with action 0 fires, by the bits of its registers. */
  predicate ShouldFire(t: Trigger, pending: bool, ev: Event)
  {
    var w, kind := t.tdata1, TypeField(t);
    if kind == 6 then
      (w / 0x1000) % 16 == 0 && Comparing(w, ev.kind) && Bit(w, MatchMode(ev.prv)) && Compared(ev) == t.tdata2
    else
      && w % 64 == 0 && Bit(w, TrapMode(ev.prv))
      && ((kind == 3 && ev.kind == Retire && ((w / 0x400) % 0x4000 == 1 || pending))
          || (kind == 4 && ev.kind == Interrupt && Bit(t.tdata2, ev.cause))
          || (kind == 5 && ev.kind == Exception && Bit(t.tdata2, ev.cause)))
  }

  lemma NumberFields(w: nat)
    ensures Extract(w, 12, 4) == (w / 0x1000) % 16 && Extract(w, 0, 6) == w % 64
    ensures Extract(w, 10, 14) == (w / 0x400) % 0x4000
  {
    hide Extract;
    ExtractIsDivMod(w, 12, 4);
    ExtractIsDivMod(w, 0, 6);
    ExtractIsDivMod(w, 10, 14);
    assert Pow2(0) == 1 && Pow2(4) == 16 && Pow2(6) == 64 && Pow2(10) == 0x400 && Pow2(12) == 0x1000 && Pow2(14) == 0x4000;
  }

  lemma ModeBits(t: Trigger, ev: Event)
    ensures EnabledIn(t, ev.prv) == Bit(t.tdata1, if TypeOf(t) == 6 then MatchMode(ev.prv) else TrapMode(ev.prv))
  {
    hide Extract, Bit, TypeOf;
    BitField(t.tdata1, ModeLsb(t, ev.prv));
  }

  lemma FiresByBits(t: Trigger, pending: bool, ev: Event)
    ensures Fires(t, pending, ev) <==> ShouldFire(t, pending, ev)
  {
    hide Extract, Bit, TypeOf, TypeField, EnabledIn;
    TypeFieldIs(t);
    NumberFields(t.tdata1);
    ModeBits(t, ev);
    BitField(t.tdata1, 2);
    BitField(t.tdata1, 1);
    BitField(t.tdata1, 0);
  }

  /** The hart keeps triggers out of its trap handler: in M-mode with interrupts off, or with mte clear,
      if it implements that protection. */
  predicate Protected(mode: Reentrancy, ev: Event)
  {
    (mode == MieGate && ev.prv == PrvM && !ev.mie) || (mode == Tcontrol && !ev.mte)
  }

  /** A trigger fires on an event exactly if it should, no lower one should, and the hart is not protected. */
  lemma FiringExact(mode: Reentrancy, bank: Bank, ev: Event, i: nat)
    ensures FiresAt(mode, bank, ev, i) <==>
            i in bank && !Protected(mode, ev) && ShouldFire(bank[i].trigger, bank[i].pending, ev)
            && forall j :: j in bank && j < i ==> !ShouldFire(bank[j].trigger, bank[j].pending, ev)
  {
    hide Fires, ShouldFire;
    forall j | j in bank ensures Fires(bank[j].trigger, bank[j].pending, ev) <==> ShouldFire(bank[j].trigger, bank[j].pending, ev) {
      FiresByBits(bank[j].trigger, bank[j].pending, ev);
    }
  }

  /** What the handler of a firing sees: an address match reports the instruction and the address it
      watches, a count the next instruction, a trap the handler's first; the last two with tval 0. */
  lemma HandlerSees(mode: Reentrancy, bank: Bank, ev: Event, i: nat)
    requires FiresAt(mode, bank, ev, i)
    ensures var t, f := bank[i].trigger, FireOf(i, bank[i].trigger, ev);
            && f.trigger == i
            && (if TypeField(t) == 6 then f.epc == ev.pc && f.tval == t.tdata2
                else if TypeField(t) == 3 then f.epc == ev.nextPc && f.tval == 0
                else (TypeField(t) == 4 || TypeField(t) == 5) && f.epc == ev.handler && f.tval == 0)
  {
    hide Extract, Bit, TypeOf, TypeField;
    TypeFieldIs(bank[i].trigger);
    FiresByBits(bank[i].trigger, bank[i].pending, ev);
  }

  /** A protected hart's triggers neither fire nor count. */
  lemma ProtectedStands(mode: Reentrancy, bank: Bank, ev: Event, i: nat)
    requires Protected(mode, ev)
    ensures !FiresAt(mode, bank, ev, i) && BankAfter(mode, bank, ev) == bank
  {
    assert Suppressed(mode, ev);
  }

  /** One event changes at most the counts of the icount triggers it reaches: one off a count above 0, by
      an instruction retired in an enabled mode. */
  lemma CountsDown(mode: Reentrancy, bank: Bank, ev: Event, i: nat)
    requires i in bank
    ensures BankAfter(mode, bank, ev).Keys == bank.Keys
    ensures var t, t' := bank[i].trigger, BankAfter(mode, bank, ev)[i].trigger;
            var counted := Reached(mode, bank, ev, i) && TypeField(t) == 3 && t.tdata1 % 64 == 0 && ev.kind == Retire
                           && Bit(t.tdata1, TrapMode(ev.prv)) && (t.tdata1 / 0x400) % 0x4000 > 0;
            t'.tdata1 == t.tdata1 - (if counted then 0x400 else 0) && t'.tdata2 == t.tdata2 && t'.xlen == t.xlen
  {
    hide Extract, Insert, Bit, TypeOf, TypeField, EnabledIn, Reached;
    var t := bank[i].trigger;
    TypeFieldIs(t);
    NumberFields(t.tdata1);
    ModeBits(t, ev);
    if Reached(mode, bank, ev, i) && Counts(t, ev) && CountOf(t) > 0 {
      OneLess(t.tdata1);
    }
  }

  lemma OneLess(w: nat)
    requires (w / 0x400) % 0x4000 > 0
    ensures w >= 0x400 && Insert(w, 10, 14, (w / 0x400) % 0x4000 - 1) == w - 0x400
  {
    hide Extract, Insert, Bit;
    var v := (w / 0x400) % 0x4000 - 1;
    var r := Insert(w, 10, 14, v);
    assert Pow2(10) == 0x400 && Pow2(14) == 0x4000;
    assert Pow2(24) == 0x100_0000;
    // The word is its part above the field, the field, and its part below.
    LowIsMod(w, 10);
    LowIsMod(r, 10);
    ShrIsDiv(w, 24);
    ShrIsDiv(r, 24);
    SamePart(w, r, v);
    NumberFields(r);
    ExtractInserted(w, 10, 14, v);
    LowSmall(v, 14);
    Split(w);
    Split(r);
  }

  lemma SamePart(w: nat, r: nat, v: nat)
    requires r == Insert(w, 10, 14, v)
    ensures Low(r, 10) == Low(w, 10) && Shr(r, 24) == Shr(w, 24)
  {
    hide Insert, Bit, Low, Shr;
    forall k: nat ensures Bit(Low(r, 10), k) <==> Bit(Low(w, 10), k) {
      BitLow(r, 10, k);
      BitLow(w, 10, k);
      BitInsert(w, 10, 14, v, k);
    }
    SameBits(Low(r, 10), Low(w, 10));
    forall k: nat ensures Bit(Shr(r, 24), k) <==> Bit(Shr(w, 24), k) {
      BitShr(r, 24, k);
      BitShr(w, 24, k);
      BitInsert(w, 10, 14, v, 24 + k);
    }
    SameBits(Shr(r, 24), Shr(w, 24));
  }

  lemma Split(w: nat)
    ensures w == (w / 0x100_0000) * 0x100_0000 + ((w / 0x400) % 0x4000) * 0x400 + w % 0x400
  {
    assert (w / 0x400) / 0x4000 == w / 0x100_0000;
  }
}
