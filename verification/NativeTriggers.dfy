// The native trigger model (src/pydebug/model/native_trigger.py, Sdtrig 5.7): what
// one trigger makes of one event, and that an icount trigger fires exactly once,
// at the instruction its count says.

module NativeTriggers {
  import opened Bits
  import opened Registers

  datatype Prv = PrvU | PrvS | PrvM

  datatype Reentrancy = MieGate | Tcontrol | Unprotected

  datatype Kind = Execute | Load | Store | Retire | Exception | Interrupt

  /** One thing the hart does. */
  datatype Event = Event(
    kind: Kind, prv: Prv, pc: nat, address: nat, cause: nat, handler: nat, nextPc: nat, mie: bool, mte: bool)

  datatype Trigger = Trigger(tdata1: nat, tdata2: nat, xlen: nat)

  /** What the trap handler sees; its cause is always the breakpoint exception. */
  datatype Fire = Fire(trigger: nat, epc: nat, tval: nat)

  const TYPE_ICOUNT := 3
  const TYPE_ITRIGGER := 4
  const TYPE_ETRIGGER := 5
  const TYPE_MCONTROL6 := 6

  const COUNT_LSB := 10
  const COUNT_WIDTH := 14

  /** registers.tdata1_type */
  function TypeOf(t: Trigger): nat { Extract(t.tdata1, if t.xlen == 64 then 60 else 28, 4) }

  /** The action field; a trigger of any other type has none and reads as breakpoint. */
  function ActionOf(t: Trigger): nat
  {
    if TypeOf(t) == TYPE_MCONTROL6 then Extract(t.tdata1, 12, 4)
    else if TypeOf(t) == TYPE_ICOUNT || TypeOf(t) == TYPE_ITRIGGER || TypeOf(t) == TYPE_ETRIGGER then Extract(t.tdata1, 0, 6)
    else 0
  }

  /** Where the mode-enable bit of a privilege sits. */
  function ModeLsb(t: Trigger, prv: Prv): nat
  {
    if TypeOf(t) == TYPE_MCONTROL6 then (match prv case PrvM => 6 case PrvS => 4 case PrvU => 3)
    else (match prv case PrvM => 9 case PrvS => 7 case PrvU => 6)
  }

  predicate EnabledIn(t: Trigger, prv: Prv) { Extract(t.tdata1, ModeLsb(t, prv), 1) == 1 }

  function CountOf(t: Trigger): nat { Extract(t.tdata1, COUNT_LSB, COUNT_WIDTH) }

  function WithCount(t: Trigger, count: nat): Trigger { t.(tdata1 := Insert(t.tdata1, COUNT_LSB, COUNT_WIDTH, count)) }

  /** The positions used here are those of the declared tables. */
  lemma PositionsAreTheTables()
    ensures ICOUNT.fields[3] == Field(Name.count, COUNT_LSB, COUNT_WIDTH, WARL, Some(1))
    ensures ICOUNT.fields[4] == Field(Name.m, 9, 1, WARL, Some(0)) && ICOUNT.fields[6] == Field(Name.s, 7, 1, WARL, Some(0))
    ensures ICOUNT.fields[7] == Field(Name.u, 6, 1, WARL, Some(0)) && ICOUNT.fields[8] == Field(Name.action, 0, 6, WARL, Some(0))
  {
  }

  lemma MatchPositionsAreTheTables()
    ensures MCONTROL6.fields[7] == Field(Name.action, 12, 4, WARL, Some(0))
    ensures MCONTROL6.fields[10] == Field(Name.m, 6, 1, WARL, Some(0))
    ensures MCONTROL6.fields[12] == Field(Name.s, 4, 1, WARL, Some(0))
    ensures MCONTROL6.fields[13] == Field(Name.u, 3, 1, WARL, Some(0))
    ensures MCONTROL6.fields[14] == Field(Name.execute, 2, 1, WARL, Some(0))
    ensures MCONTROL6.fields[15] == Field(Name.store, 1, 1, WARL, Some(0))
    ensures MCONTROL6.fields[16] == Field(Name.load, 0, 1, WARL, Some(0))
  {
  }

  lemma TrapPositionsAreTheTables()
    ensures ITRIGGER.fields[4] == ETRIGGER.fields[3] == Field(Name.m, 9, 1, WARL, Some(0))
    ensures ITRIGGER.fields[5] == ETRIGGER.fields[4] == Field(Name.s, 7, 1, WARL, Some(0))
    ensures ITRIGGER.fields[6] == ETRIGGER.fields[5] == Field(Name.u, 6, 1, WARL, Some(0))
    ensures ITRIGGER.fields[7] == ETRIGGER.fields[6] == Field(Name.action, 0, 6, WARL, Some(0))
  {
  }

  // ---- One trigger, one event ----

  /** An action=0 trigger is kept out of the trap handler now. */
  predicate Suppressed(mode: Reentrancy, ev: Event)
  {
    match mode
    case MieGate => ev.prv == PrvM && !ev.mie
    case Tcontrol => !ev.mte
    case Unprotected => false
  }

  /** mcontrol6: an enabled address match of the right kind. */
  predicate Matches(t: Trigger, ev: Event)
  {
    (match ev.kind
     case Execute => Extract(t.tdata1, 2, 1) != 0 && ev.pc == t.tdata2
     case Load => Extract(t.tdata1, 0, 1) != 0 && ev.address == t.tdata2
     case Store => Extract(t.tdata1, 1, 1) != 0 && ev.address == t.tdata2
     case _ => false)
    && EnabledIn(t, ev.prv)
  }

  /** icount: the event is an instruction this trigger counts. */
  predicate Counts(t: Trigger, ev: Event)
  {
    ActionOf(t) == 0 && TypeOf(t) == TYPE_ICOUNT && ev.kind == Retire && EnabledIn(t, ev.prv)
  }

  predicate TrapMatches(t: Trigger, ev: Event)
  {
    ev.kind == (if TypeOf(t) == TYPE_ITRIGGER then Interrupt else Exception)
    && EnabledIn(t, ev.prv) && Bit(t.tdata2, ev.cause)
  }

  /** The trigger fires on the event, given its pending bit. */
  predicate Fires(t: Trigger, pending: bool, ev: Event)
  {
    && ActionOf(t) == 0
    && if TypeOf(t) == TYPE_MCONTROL6 then Matches(t, ev)
       else if TypeOf(t) == TYPE_ICOUNT then Counts(t, ev) && (CountOf(t) == 1 || pending)
       else if TypeOf(t) == TYPE_ITRIGGER || TypeOf(t) == TYPE_ETRIGGER then TrapMatches(t, ev)
       else false
  }

  /** The trigger afterwards: a counted instruction takes one from a count above 0. */
  function Stepped(t: Trigger, ev: Event): Trigger
  {
    if Counts(t, ev) && CountOf(t) > 0 then WithCount(t, CountOf(t) - 1) else t
  }

  function FireOf(i: nat, t: Trigger, ev: Event): (f: Fire)
    ensures f.trigger == i
  {
    if TypeOf(t) == TYPE_MCONTROL6 then Fire(i, ev.pc, if ev.kind == Execute then ev.pc else ev.address)
    else if TypeOf(t) == TYPE_ICOUNT then Fire(i, ev.nextPc, 0)
    else Fire(i, ev.handler, 0)
  }

  // ---- All triggers, one event ----

  /** The triggers with their pending bits. */
  datatype Slot = Slot(trigger: Trigger, pending: bool)

  type Bank = map<nat, Slot>

  /** The event gets as far as trigger `i`: it is not suppressed, and no lower trigger fires on it. */
  ghost predicate Reached(mode: Reentrancy, bank: Bank, ev: Event, i: nat)
  {
    !Suppressed(mode, ev) && forall j :: j in bank && j < i ==> !Fires(bank[j].trigger, bank[j].pending, ev)
  }

  ghost predicate FiresAt(mode: Reentrancy, bank: Bank, ev: Event, i: nat)
  {
    i in bank && Reached(mode, bank, ev, i) && Fires(bank[i].trigger, bank[i].pending, ev)
  }

  /** The pending bit after the event: a counted instruction that sets it also fires and clears it. */
  predicate PendingAfter(s: Slot, ev: Event) { s.pending && !Counts(s.trigger, ev) }

  function SlotAfter(s: Slot, ev: Event): Slot { Slot(Stepped(s.trigger, ev), PendingAfter(s, ev)) }

  ghost function BankAfter(mode: Reentrancy, bank: Bank, ev: Event): Bank
  {
    map i | i in bank :: if Reached(mode, bank, ev, i) then SlotAfter(bank[i], ev) else bank[i]
  }

  class NativeTriggerModel {
    const reentrancy: Reentrancy
    var triggers: map<nat, Trigger>
    var pending: map<nat, bool>

    ghost predicate Valid()
      reads this
    {
      triggers.Keys == pending.Keys
    }

    ghost function Slots(): Bank
      requires Valid()
      reads this
    {
      map i | i in triggers :: Slot(triggers[i], pending[i])
    }

    constructor (mode: Reentrancy)
      ensures Valid() && reentrancy == mode && Slots() == map[]
    {
      reentrancy, triggers, pending := mode, map[], map[];
    }

    method Configure(index: nat, tdata1: nat, tdata2: nat, xlen: nat)
      requires Valid()
      modifies this
      ensures Valid() && Slots() == old(Slots())[index := Slot(Trigger(tdata1, tdata2, xlen), false)]
    {
      triggers := triggers[index := Trigger(tdata1, tdata2, xlen)];
      pending := pending[index := false];
    }

    /** _one */
    method One(index: nat, ev: Event) returns (fire: Option<Fire>)
      requires Valid() && index in triggers
      modifies this
      ensures Valid()
      ensures var s := old(Slots())[index];
              && Slots() == old(Slots())[index := SlotAfter(s, ev)]
              && fire == if Fires(s.trigger, s.pending, ev) then Some(FireOf(index, s.trigger, ev)) else None
    {
      hide Extract, Insert;
      ghost var s := Slots()[index];
      var t := triggers[index];
      if ActionOf(t) != 0 {
        return None;
      }
      if TypeOf(t) == TYPE_MCONTROL6 {
        var want := if ev.kind == Execute then Some(2) else if ev.kind == Load then Some(0)
                    else if ev.kind == Store then Some(1) else None;
        if want.None? || Extract(t.tdata1, want.value, 1) == 0 || !EnabledIn(t, ev.prv) {
          return None;
        }
        var value := if ev.kind == Execute then ev.pc else ev.address;
        if value != t.tdata2 {
          return None;
        }
        return Some(Fire(index, ev.pc, value));
      }
      if TypeOf(t) == TYPE_ICOUNT {
        if ev.kind != Retire || !EnabledIn(t, ev.prv) {
          return None;
        }
        var count := CountOf(t);
        if count > 0 {
          count := count - 1;
          triggers := triggers[index := WithCount(t, count)];
          if count == 0 {
            pending := pending[index := true];
          }
        }
        if !pending[index] {
          return None;
        }
        pending := pending[index := false];
        assert triggers[index] == Stepped(t, ev) && triggers.Keys == old(triggers).Keys;
        assert Slots() == old(Slots())[index := Slot(Stepped(t, ev), false)];
        return Some(Fire(index, ev.nextPc, 0));
      }
      if TypeOf(t) == TYPE_ITRIGGER || TypeOf(t) == TYPE_ETRIGGER {
        var want := if TypeOf(t) == TYPE_ITRIGGER then Interrupt else Exception;
        if ev.kind != want || !EnabledIn(t, ev.prv) {
          return None;
        }
        if !Bit(t.tdata2, ev.cause) {
          return None;
        }
        return Some(Fire(index, ev.handler, 0));
      }
      return None;
    }

    /** `sorted(self.triggers)` */
    method SortedIndexes() returns (indexes: seq<nat>)
      requires Valid()
      ensures forall i :: i in indexes <==> i in triggers
      ensures forall a, b :: 0 <= a < b < |indexes| ==> indexes[a] < indexes[b]
    {
      indexes := [];
      var rest := triggers.Keys;
      while rest != {}
        invariant rest <= triggers.Keys && forall i :: i in indexes <==> i in triggers && i !in rest
        invariant forall a, b :: 0 <= a < b < |indexes| ==> indexes[a] < indexes[b]
        invariant forall i, j :: i in indexes && j in rest ==> i < j
        decreases |rest|
      {
        var least := Least(rest);
        assert forall a :: 0 <= a < |indexes| ==> indexes[a] in indexes;
        indexes := indexes + [least];
        rest := rest - {least};
      }
    }

    static method Least(keys: set<nat>) returns (least: nat)
      requires keys != {}
      ensures least in keys && forall k :: k in keys ==> least <= k
    {
      least :| least in keys;
      var rest := keys - {least};
      while rest != {}
        invariant rest <= keys && least in keys && forall k :: k in keys && k !in rest ==> least <= k
        decreases |rest|
      {
        var k :| k in rest;
        if k < least {
          least := k;
        }
        rest := rest - {k};
      }
    }

    /** event: the first trigger that fires, and every trigger up to it updated. */
    method Happens(ev: Event) returns (fire: Option<Fire>)
      requires Valid()
      modifies this
      ensures Valid() && Slots() == BankAfter(reentrancy, old(Slots()), ev)
      ensures fire.None? <==> forall i :: !FiresAt(reentrancy, old(Slots()), ev, i)
      ensures fire.Some? ==>
                var i := fire.value.trigger;
                FiresAt(reentrancy, old(Slots()), ev, i) && fire.value == FireOf(i, old(Slots())[i].trigger, ev)
    {
      hide Fires, SlotAfter, FireOf, Suppressed, BankAfter, FiresAt;
      ghost var bank := Slots();
      if Suppressed(reentrancy, ev) {
        SuppressedBank(bank, ev);
        return None;
      }
      var indexes := SortedIndexes();
      for n := 0 to |indexes|
        invariant Valid() && Slots().Keys == bank.Keys
        invariant Progress(bank, Slots(), indexes, n, ev)
      {
        var i := indexes[n];
        assert i in indexes && i in Slots();
        ghost var before := Slots();
        fire := One(i, ev);
        if fire.Some? {
          AfterFire(bank, before, Slots(), indexes, n, ev);
          return fire;
        }
        NoFire(bank, before, Slots(), indexes, n, ev);
      }
      AfterAll(bank, Slots(), indexes, ev);
      fire := None;
    }

    /** The first `n` triggers have seen the event and none of them fired. */
    ghost predicate Progress(bank: Bank, now: Bank, indexes: seq<nat>, n: nat, ev: Event)
      requires n <= |indexes|
    {
      && Ordered(bank, indexes) && now.Keys == bank.Keys
      && (forall k :: 0 <= k < n ==>
            !Fires(bank[indexes[k]].trigger, bank[indexes[k]].pending, ev) && now[indexes[k]] == SlotAfter(bank[indexes[k]], ev))
      && forall k :: n <= k < |indexes| ==> now[indexes[k]] == bank[indexes[k]]
    }

    lemma NoFire(bank: Bank, before: Bank, now: Bank, indexes: seq<nat>, n: nat, ev: Event)
      requires n < |indexes| && Progress(bank, before, indexes, n, ev)
      requires now == before[indexes[n] := SlotAfter(before[indexes[n]], ev)]
      requires !Fires(bank[indexes[n]].trigger, bank[indexes[n]].pending, ev)
      ensures Progress(bank, now, indexes, n + 1, ev)
    {
      hide Fires, SlotAfter;
    }

    lemma SuppressedBank(bank: Bank, ev: Event)
      requires Suppressed(reentrancy, ev)
      ensures BankAfter(reentrancy, bank, ev) == bank && forall i :: !FiresAt(reentrancy, bank, ev, i)
    {
    }

    ghost predicate Ordered(bank: Bank, indexes: seq<nat>)
    {
      (forall i :: i in indexes <==> i in bank) && forall a, b :: 0 <= a < b < |indexes| ==> indexes[a] < indexes[b]
    }

    /** With the trigger at place `n` firing first, exactly the places up to it are reached. */
    lemma ReachedUpTo(bank: Bank, indexes: seq<nat>, n: nat, k: nat, ev: Event)
      requires Ordered(bank, indexes) && n < |indexes| && k < |indexes| && !Suppressed(reentrancy, ev)
      requires forall m :: 0 <= m < n ==> !Fires(bank[indexes[m]].trigger, bank[indexes[m]].pending, ev)
      requires Fires(bank[indexes[n]].trigger, bank[indexes[n]].pending, ev)
      ensures Reached(reentrancy, bank, ev, indexes[k]) <==> k <= n
    {
      hide Fires;
      assert indexes[n] in bank;
      if k <= n {
        forall j | j in bank && j < indexes[k] ensures !Fires(bank[j].trigger, bank[j].pending, ev) {
          var m :| 0 <= m < |indexes| && indexes[m] == j;
        }
      }
    }

    lemma AfterFire(bank: Bank, before: Bank, now: Bank, indexes: seq<nat>, n: nat, ev: Event)
      requires n < |indexes| && Progress(bank, before, indexes, n, ev) && !Suppressed(reentrancy, ev)
      requires now == before[indexes[n] := SlotAfter(before[indexes[n]], ev)]
      requires Fires(bank[indexes[n]].trigger, bank[indexes[n]].pending, ev)
      ensures now == BankAfter(reentrancy, bank, ev) && FiresAt(reentrancy, bank, ev, indexes[n])
    {
      hide Fires, SlotAfter, Reached;
      assert indexes[n] in indexes;
      ReachedUpTo(bank, indexes, n, n, ev);
      forall i | i in bank ensures now[i] == BankAfter(reentrancy, bank, ev)[i] {
        var k :| 0 <= k < |indexes| && indexes[k] == i;
        ReachedUpTo(bank, indexes, n, k, ev);
      }
    }

    lemma AfterAll(bank: Bank, now: Bank, indexes: seq<nat>, ev: Event)
      requires Progress(bank, now, indexes, |indexes|, ev) && !Suppressed(reentrancy, ev)
      ensures now == BankAfter(reentrancy, bank, ev) && forall i :: !FiresAt(reentrancy, bank, ev, i)
    {
      hide Fires, SlotAfter;
      forall i | i in bank
        ensures !Fires(bank[i].trigger, bank[i].pending, ev) && now[i] == SlotAfter(bank[i], ev)
      {
        var k :| 0 <= k < |indexes| && indexes[k] == i;
      }
    }
  }

  // ---- icount fires exactly once ----

  /** The triggers after a stream of events. */
  ghost function After(mode: Reentrancy, bank: Bank, events: seq<Event>): (b: Bank)
    ensures b.Keys == bank.Keys
  {
    if |events| == 0 then bank
    else BankAfter(mode, After(mode, bank, events[..|events| - 1]), events[|events| - 1])
  }

  /** Trigger `i` counts the event: it is reached, and it is an instruction retired in an enabled mode. */
  ghost predicate CountedAt(mode: Reentrancy, bank: Bank, ev: Event, i: nat)
  {
    i in bank && Reached(mode, bank, ev, i) && Counts(bank[i].trigger, ev)
  }

  /** Events of the stream that trigger `i` counts. */
  ghost function Seen(mode: Reentrancy, bank: Bank, events: seq<Event>, i: nat): nat
  {
    if |events| == 0 then 0
    else
      var init := events[..|events| - 1];
      Seen(mode, bank, init, i) + (if CountedAt(mode, After(mode, bank, init), events[|events| - 1], i) then 1 else 0)
  }

  /** A native icount trigger as configured with count `n`. */
  predicate FreshIcount(t: Trigger, n: nat) { TypeOf(t) == TYPE_ICOUNT && ActionOf(t) == 0 && CountOf(t) == n }

  /** Writing the count disturbs neither the type, nor the action, nor an enable bit. */
  lemma CountKeepsRest(t: Trigger, count: nat, prv: Prv)
    requires TypeOf(t) == TYPE_ICOUNT && count < 0x4000
    ensures var t' := WithCount(t, count);
            && TypeOf(t') == TYPE_ICOUNT && ActionOf(t') == ActionOf(t) && EnabledIn(t', prv) == EnabledIn(t, prv)
            && CountOf(t') == count
  {
    hide Extract, Insert;
    ExtractOther(t.tdata1, COUNT_LSB, COUNT_WIDTH, count, if t.xlen == 64 then 60 else 28, 4);
    ExtractOther(t.tdata1, COUNT_LSB, COUNT_WIDTH, count, 0, 6);
    ExtractOther(t.tdata1, COUNT_LSB, COUNT_WIDTH, count, ModeLsb(t, prv), 1);
    ExtractInserted(t.tdata1, COUNT_LSB, COUNT_WIDTH, count);
    assert Pow2(7) == 128 && Pow2(14) == 0x4000;
    LowSmall(count, 14);
  }

  lemma CountBound(t: Trigger)
    ensures CountOf(t) < 0x4000
  {
    LowBound(Shr(t.tdata1, COUNT_LSB), COUNT_WIDTH);
    assert Pow2(7) == 128 && Pow2(14) == 0x4000;
  }

  /** Writing the count twice is writing it once. */
  lemma CountTwice(t: Trigger, a: nat, b: nat)
    ensures WithCount(WithCount(t, a), b) == WithCount(t, b)
  {
    hide Extract;
    var once, twice := WithCount(t, b).tdata1, WithCount(WithCount(t, a), b).tdata1;
    forall k: nat ensures Bit(once, k) <==> Bit(twice, k) {
      BitInsert(t.tdata1, COUNT_LSB, COUNT_WIDTH, a, k);
      BitInsert(t.tdata1, COUNT_LSB, COUNT_WIDTH, b, k);
      BitInsert(WithCount(t, a).tdata1, COUNT_LSB, COUNT_WIDTH, b, k);
    }
    SameBits(once, twice);
  }

  lemma CountOwn(t: Trigger)
    ensures WithCount(t, CountOf(t)) == t
  {
    hide Extract;
    var w := WithCount(t, CountOf(t)).tdata1;
    forall k: nat ensures Bit(w, k) <==> Bit(t.tdata1, k) {
      BitInsert(t.tdata1, COUNT_LSB, COUNT_WIDTH, CountOf(t), k);
      if COUNT_LSB <= k < COUNT_LSB + COUNT_WIDTH {
        BitExtract(t.tdata1, COUNT_LSB, COUNT_WIDTH, k - COUNT_LSB);
      }
    }
    SameBits(w, t.tdata1);
  }

  function Left(n: nat, seen: nat): nat { if seen >= n then 0 else n - seen }

  /** One event at an icount trigger whose count started at `n`. */
  lemma IcountStep(t0: Trigger, n: nat, seen: nat, ev: Event)
    requires FreshIcount(t0, n)
    ensures var t := WithCount(t0, Left(n, seen));
            && (Counts(t, ev) <==> Counts(t0, ev))
            && (Fires(t, false, ev) <==> Counts(t0, ev) && seen + 1 == n)
            && Stepped(t, ev) == WithCount(t0, Left(n, if Counts(t0, ev) then seen + 1 else seen))
  {
    hide Extract, Insert;
    CountBound(t0);
    CountKeepsRest(t0, Left(n, seen), ev.prv);
    CountTwice(t0, Left(n, seen), Left(n, seen + 1));
  }

  /** Over every event stream: the trigger's count is what is left of `n`, no other bit of tdata1 has
      changed, and its pending bit is clear between events. */
  lemma {:induction false} IcountState(mode: Reentrancy, bank: Bank, events: seq<Event>, i: nat, n: nat)
    requires i in bank && FreshIcount(bank[i].trigger, n) && !bank[i].pending
    ensures var s := After(mode, bank, events)[i];
            s.trigger == WithCount(bank[i].trigger, Left(n, Seen(mode, bank, events, i)))
            && CountOf(s.trigger) == Left(n, Seen(mode, bank, events, i)) && !s.pending
  {
    hide Counts, Stepped, WithCount, Reached, CountOf;
    CountBound(bank[i].trigger);
    CountKeepsRest(bank[i].trigger, Left(n, Seen(mode, bank, events, i)), PrvM);
    if |events| == 0 {
      CountOwn(bank[i].trigger);
    } else {
      var init, ev := events[..|events| - 1], events[|events| - 1];
      IcountState(mode, bank, init, i, n);
      IcountStep(bank[i].trigger, n, Seen(mode, bank, init, i), ev);
    }
  }

  /** Over every event stream: it fires at the n-th event it counts, and at no other. */
  lemma IcountFiresOnce(mode: Reentrancy, bank: Bank, events: seq<Event>, ev: Event, i: nat, n: nat)
    requires i in bank && FreshIcount(bank[i].trigger, n) && !bank[i].pending
    ensures FiresAt(mode, After(mode, bank, events), ev, i) <==>
            CountedAt(mode, After(mode, bank, events), ev, i) && Seen(mode, bank, events, i) + 1 == n
  {
    hide Counts, Stepped, WithCount, Reached, Fires;
    IcountState(mode, bank, events, i, n);
    IcountStep(bank[i].trigger, n, Seen(mode, bank, events, i), ev);
  }
}
