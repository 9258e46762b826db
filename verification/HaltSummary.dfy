// The haltsum tree (src/pydebug/model/predictor.py, src/pydebug/model/registers.py,
// section 3.14.10): descending from haltsum3 to a 32-hart window finds exactly the
// halted harts.

module HaltSummary {
  import opened Bits
  import opened Words
  import opened DebugModule
  import opened RunControl

  /** registers.haltsum_bit */
  function HaltsumBit(hart: nat, level: nat): nat
  {
    if level == 0 then Low(hart, 5) else Low(Shr(hart, 5 * level), 5)
  }

  predicate IsHalted(s: Dm, h: nat) { h < |s.run.harts| && h < s.params.numHarts && s.run.harts[h].halted }

  /** Two harts in one block of 32^level harts. */
  predicate SameBlock(level: nat, a: nat, b: nat) { Shr(a, 5 * level) == Shr(b, 5 * level) }

  /** The module with hartsel pointed at hart `t`. */
  function Pointed(s: Dm, t: nat): Dm { s.(run := s.run.(hartsel := t)) }

  ghost predicate HasBit(w: nat) { exists k: nat :: Bit(w, k) }

  lemma NonzeroHasBit(w: nat)
    ensures w != 0 <==> HasBit(w)
  {
    if w == 0 {
      forall k: nat ensures !Bit(w, k) {
        BitZero(k);
      }
    } else if !HasBit(w) {
      forall k: nat ensures Bit(w, k) <==> Bit(0, k) {
        BitZero(k);
      }
      SameBits(w, 0);
    }
  }

  lemma HaltsumBitSet(s: Dm, level: nat, j: nat)
    requires s.cfg.haltsumGroupsPresent
    ensures Bit(Haltsum(s, level), j) <==> j < 32 && SlotHalted(s.params.numHarts, s.run, level, j)
  {
    var n, r := s.params.numHarts, s.run;
    BitsWordBit((k: nat) => SlotHalted(n, r, level, k), 32, j);
  }

  lemma {:induction false} ShrShr(w: nat, m: nat, n: nat)
    ensures Shr(Shr(w, m), n) == Shr(w, m + n)
  {
    if m > 0 {
      ShrShr(w / 2, m - 1, n);
    }
  }

  lemma {:induction false} CatSplits(w: nat, n: nat)
    ensures Cat(Shr(w, n), Low(w, n), n) == w
  {
    if n > 0 {
      CatSplits(w / 2, n - 1);
    }
  }

  /** A block is its enclosing block and its five-bit place in it. */
  lemma BlockPlace(level: nat, a: nat, b: nat)
    ensures SameBlock(level, a, b) <==>
            SameBlock(level + 1, a, b) && Low(Shr(a, 5 * level), 5) == Low(Shr(b, 5 * level), 5)
  {
    var x, y := Shr(a, 5 * level), Shr(b, 5 * level);
    ShrShr(a, 5 * level, 5);
    ShrShr(b, 5 * level, 5);
    CatSplits(x, 5);
    CatSplits(y, 5);
  }

  lemma TopBlock(a: nat)
    requires a < 0x10_0000
    ensures Shr(a, 20) == 0
  {
    hide Shr;
    ShrIsDiv(a, 20);
    assert Pow2(10) == 1024 && Pow2(20) == 0x10_0000;
  }

  /** With at most 2^20 harts all levels alike: the bit of a hart is set exactly if its block holds a halted one. */
  lemma BitIsBlock(s: Dm, level: nat, t: nat)
    requires s.cfg.haltsumGroupsPresent && 1 <= level <= 3
    requires t < 0x10_0000 && s.params.numHarts <= 0x10_0000
    ensures Bit(Haltsum(Pointed(s, t), level), HaltsumBit(t, level)) <==>
            exists h: nat :: IsHalted(s, h) && SameBlock(level, h, t)
  {
    var p, j := Pointed(s, t), HaltsumBit(t, level);
    HaltsumBitSet(p, level, j);
    LowBound(Shr(t, 5 * level), 5);
    assert Pow2(5) == 32;
    TopBlock(t);
    forall h: nat | h < |s.run.harts|
      ensures InSlot(s.params.numHarts, p.run, level, j, h) <==> IsHalted(s, h) && SameBlock(level, h, t)
    {
      BlockPlace(level, h, t);
      if h < s.params.numHarts {
        TopBlock(h);
      }
    }
    if exists h: nat :: IsHalted(s, h) && SameBlock(level, h, t) {
      var h: nat :| IsHalted(s, h) && SameBlock(level, h, t);
      assert InSlot(s.params.numHarts, p.run, level, j, h);
    }
  }

  lemma SlotIsBlock(s: Dm, level: nat, t: nat, h: nat)
    requires 1 <= level <= 3 && t < 0x10_0000 && s.params.numHarts <= 0x10_0000
    ensures InOwnSlot(s.params.numHarts, Pointed(s, t).run, level, h) <==>
            IsHalted(s, h) && SameBlock(level + 1, h, t)
  {
    hide Shr, Low;
    TopBlock(t);
    if h < s.params.numHarts {
      TopBlock(h);
    }
  }

  /** The hart counts towards the slot it falls in. */
  predicate InOwnSlot(n: nat, r: Run, level: nat, h: nat)
  {
    h < |r.harts| && InSlot(n, r, level, Low(Shr(h, 5 * level), 5), h)
  }

  lemma SomeSlot(n: nat, r: Run, level: nat)
    ensures (exists j: nat :: j < 32 && SlotHalted(n, r, level, j)) <==>
            (exists h: nat :: InOwnSlot(n, r, level, h))
  {
    hide Shr, Low;
    if j: nat :| j < 32 && SlotHalted(n, r, level, j) {
      var h: nat :| h < |r.harts| && InSlot(n, r, level, j, h);
      assert InOwnSlot(n, r, level, h);
    }
    if h: nat :| InOwnSlot(n, r, level, h) {
      LowBound(Shr(h, 5 * level), 5);
      assert Pow2(5) == 32;
      assert SlotHalted(n, r, level, Low(Shr(h, 5 * level), 5));
    }
  }

  lemma NonzeroHasSlot(s: Dm, level: nat)
    requires s.cfg.haltsumGroupsPresent
    ensures Haltsum(s, level) != 0 <==> exists j: nat :: j < 32 && SlotHalted(s.params.numHarts, s.run, level, j)
  {
    hide Haltsum, SlotHalted;
    var w := Haltsum(s, level);
    NonzeroHasBit(w);
    if j: nat :| Bit(Haltsum(s, level), j) {
      HaltsumBitSet(s, level, j);
    }
    if j: nat :| j < 32 && SlotHalted(s.params.numHarts, s.run, level, j) {
      HaltsumBitSet(s, level, j);
    }
  }

  /** A haltsum word is nonzero exactly if the block hartsel points into holds a halted hart. */
  lemma NonzeroIsBlock(s: Dm, level: nat, t: nat)
    requires s.cfg.haltsumGroupsPresent && 1 <= level <= 3
    requires t < 0x10_0000 && s.params.numHarts <= 0x10_0000
    ensures Haltsum(Pointed(s, t), level) != 0 <==>
            exists h: nat :: IsHalted(s, h) && SameBlock(level + 1, h, t)
  {
    hide Haltsum, SlotHalted, InOwnSlot, SameBlock;
    var p, n := Pointed(s, t), s.params.numHarts;
    NonzeroHasSlot(p, level);
    SomeSlot(n, p.run, level);
    if h: nat :| InOwnSlot(n, p.run, level, h) {
      SlotIsBlock(s, level, t, h);
    }
    if h: nat :| IsHalted(s, h) && SameBlock(level + 1, h, t) {
      SlotIsBlock(s, level, t, h);
    }
  }

  /** haltsum3 is nonzero exactly if some hart is halted, wherever hartsel points. */
  lemma AnyHalted(s: Dm, t: nat)
    requires s.cfg.haltsumGroupsPresent && t < 0x10_0000 && s.params.numHarts <= 0x10_0000
    ensures Haltsum(Pointed(s, t), 3) != 0 <==> exists h: nat :: IsHalted(s, h)
  {
    NonzeroIsBlock(s, 3, t);
    TopBlock(t);
    if h: nat :| IsHalted(s, h) {
      TopBlock(h);
      assert SameBlock(4, h, t);
    }
  }

  /** One step down: a bit of haltsum(n+1) is set exactly if haltsum(n) is nonzero once hartsel points into its block. */
  lemma DrillDown(s: Dm, level: nat, t: nat)
    requires s.cfg.haltsumGroupsPresent && 1 <= level <= 2
    requires t < 0x10_0000 && s.params.numHarts <= 0x10_0000
    ensures Bit(Haltsum(Pointed(s, t), level + 1), HaltsumBit(t, level + 1)) <==> Haltsum(Pointed(s, t), level) != 0
  {
    BitIsBlock(s, level + 1, t);
    NonzeroIsBlock(s, level, t);
  }

  /** The bottom of the tree: a bit of haltsum1 is set exactly if its window of 32 harts holds a halted one. */
  lemma WindowHalted(s: Dm, t: nat)
    requires s.cfg.haltsumGroupsPresent && t < 0x10_0000 && s.params.numHarts <= 0x10_0000
    ensures Bit(Haltsum(Pointed(s, t), 1), HaltsumBit(t, 1)) <==>
            exists h: nat :: IsHalted(s, h) && Shr(h, 5) == Shr(t, 5)
  {
    BitIsBlock(s, 1, t);
  }

  /** A halted hart shows at every level on the way down to it. */
  lemma HaltedShowsEverywhere(s: Dm, h: nat, level: nat)
    requires s.cfg.haltsumGroupsPresent && s.params.numHarts <= 0x10_0000 && IsHalted(s, h) && 1 <= level <= 3
    ensures Bit(Haltsum(Pointed(s, h), level), HaltsumBit(h, level))
  {
    BitIsBlock(s, level, h);
    assert SameBlock(level, h, h);
  }

  // ---- Pointing hartsel for real ----

  /** An idle write that selects hart `t`. */
  function Selection(t: nat): Op { ControlWrite(IDLE.(hartsel := t)) }

  lemma SelectionKeepsHalted(p: Params, r: Run, step: bool, t: nat, i: nat)
    requires RunOk(p, r) && !r.ndmreset && !r.hartresetLevel && i < p.numHarts
    ensures HartAfter(p, r, IDLE.(hartsel := t), step, i).halted == r.harts[i].halted
  {
    assert HartOk(p, r, i);
  }

  /** Outside the resets, a selecting write leaves every hart halted as it was. */
  lemma SelectedIsPointed(s: Dm, t: nat, level: nat)
    requires Ok(s) && !s.run.ndmreset && !s.run.hartresetLevel && s.cfg.haltsumGroupsPresent && t < 0x10_0000
    ensures var u := Step(s, Selection(t));
            && Haltsum(u, level) == Haltsum(Pointed(s, t), level) && u.run.hartsel == t
            && (forall h: nat :: IsHalted(u, h) <==> IsHalted(s, h))
  {
    hide HartAfter, Haltsum, DriverDmcontrol;
    var c, u := IDLE.(hartsel := t), Step(s, Selection(t));
    ControlWriteRun(s, c);
    SelectionKeepsConfig(s, t);
    forall i: nat | i < s.params.numHarts
      ensures i < |s.run.harts| && u.run.harts[i].halted == s.run.harts[i].halted
    {
      SelectionKeepsHalted(s.params, s.run, StepArmed(s.abs), t, i);
    }
    SameHaltsum(u, Pointed(s, t), level);
  }

  lemma SelectionKeepsConfig(s: Dm, t: nat)
    requires Shaped(s.abs)
    ensures Step(s, Selection(t)).cfg == s.cfg
  {
    hide DecodeCtl, DriverDmcontrol, ControlRun, Resumes;
    DmcontrolStep(s, DriverDmcontrol(IDLE.(hartsel := t)));
  }

  lemma SameHaltsum(a: Dm, b: Dm, level: nat)
    requires a.cfg.haltsumGroupsPresent && b.cfg.haltsumGroupsPresent
    requires a.params.numHarts == b.params.numHarts && a.run.hartsel == b.run.hartsel && |a.run.harts| == |b.run.harts|
    requires forall i :: 0 <= i < |a.run.harts| && i < a.params.numHarts ==> a.run.harts[i].halted == b.run.harts[i].halted
    ensures Haltsum(a, level) == Haltsum(b, level)
  {
    hide Haltsum;
    var n := a.params.numHarts;
    forall k: nat ensures Bit(Haltsum(a, level), k) <==> Bit(Haltsum(b, level), k) {
      HaltsumBitSet(a, level, k);
      HaltsumBitSet(b, level, k);
      assert forall h: nat :: h < |a.run.harts| ==> (InSlot(n, a.run, level, k, h) <==> InSlot(n, b.run, level, k, h));
    }
    SameBits(Haltsum(a, level), Haltsum(b, level));
  }

  /** The descent on the bus: after one write that selects hart `t`, with no reset asserted, haltsum3 is
      nonzero exactly if some hart was halted before it, every bit on the way to `t` says whether the word
      below is nonzero, and the last whether the window of `t` holds a hart that was halted. */
  lemma DescentByWrite(s: Dm, t: nat)
    requires Ok(s) && !s.run.ndmreset && !s.run.hartresetLevel && s.cfg.haltsumGroupsPresent
    requires t < 0x10_0000 && s.params.numHarts <= 0x10_0000
    ensures var u := Step(s, Selection(t));
            && (Haltsum(u, 3) != 0 <==> exists h: nat :: IsHalted(s, h))
            && (Bit(Haltsum(u, 3), HaltsumBit(t, 3)) <==> Haltsum(u, 2) != 0)
            && (Bit(Haltsum(u, 2), HaltsumBit(t, 2)) <==> Haltsum(u, 1) != 0)
            && (Bit(Haltsum(u, 1), HaltsumBit(t, 1)) <==> exists h: nat :: IsHalted(s, h) && Shr(h, 5) == Shr(t, 5))
  {
    hide Haltsum, Step, HaltsumBit, Selection;
    SelectedIsPointed(s, t, 1);
    SelectedIsPointed(s, t, 2);
    SelectedIsPointed(s, t, 3);
    AnyHalted(s, t);
    DrillDown(s, 2, t);
    DrillDown(s, 1, t);
    WindowHalted(s, t);
  }

  /** haltsum0 shows harts 0 to 31 whatever hartsel is: a halted hart beyond them never appears in it. */
  lemma Haltsum0IsFixed(s: Dm, t: nat, k: nat)
    ensures Haltsum0(Pointed(s, t)) == Haltsum0(s)
    ensures Bit(Haltsum0(s), k) <==> k < 32 && IsHalted(s, k)
  {
    var n, r := s.params.numHarts, s.run;
    var r' := Pointed(s, t).run;
    BitsWordBit((i: nat) => i < n && i < |r.harts| && r.harts[i].halted, 32, k);
    forall j: nat ensures Bit(Haltsum0(Pointed(s, t)), j) <==> Bit(Haltsum0(s), j) {
      BitsWordBit((i: nat) => i < n && i < |r.harts| && r.harts[i].halted, 32, j);
      BitsWordBit((i: nat) => i < n && i < |r'.harts| && r'.harts[i].halted, 32, j);
    }
    SameBits(Haltsum0(Pointed(s, t)), Haltsum0(s));
  }
}
