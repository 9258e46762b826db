// Run control over whole runs: what every reachable state keeps, what a reset
// release does to a hart, and what dmcontrol reads back
// (src/pydebug/model/predictor.py, sections 3.2, 3.5 and 3.14.2).

module RunControl {
  import opened Bits
  import opened Words
  import opened DebugModule
  import opened Registers

  predicate HartOk(p: Params, r: Run, i: nat)
    requires i < |r.harts|
  {
    var h := r.harts[i];
    && h.available && !h.unavailSticky
    && (i < p.numHarts ==> !h.nonexistent && h.halted != h.running)
    && (r.ndmreset ==> !h.halted)
    && (h.hartReset && !h.nonexistent ==> !h.halted)
    && (h.hartReset ==> p.supportsHartreset)
  }

  /** What every operation keeps. */
  ghost predicate RunOk(p: Params, r: Run)
  {
    && |r.harts| == (if p.numHarts >= 1 then p.numHarts else 1)
    && (forall i :: 0 <= i < |r.harts| ==> HartOk(p, r, i))
    && (r.hartresetLevel ==> p.supportsHartreset)
    && r.hartsel < 0x10_0000
    && (!r.dmactive ==> !r.ndmreset && !r.hartresetLevel && r.hartsel == 0)
  }

  ghost predicate Ok(s: Dm) { Shaped(s.abs) && RunOk(s.params, s.run) }

  lemma ResetOk(s: Dm, powerOn: bool)
    requires powerOn || RunOk(s.params, s.run)
    ensures RunOk(s.params, ResetDm(s, powerOn).run)
  {
    var r := ResetDm(s, powerOn).run;
    forall i | 0 <= i < |r.harts| ensures HartOk(s.params, r, i) {
      assert r.harts[i] == ResetHart(s.params, powerOn, s.run.harts, i);
      assert !powerOn ==> HartOk(s.params, s.run, i);
    }
  }

  /** What holds of a hart between the stages of one write. */
  predicate Midway(p: Params, i: nat, h: Hart)
  {
    && h.available && !h.unavailSticky
    && (h.hartReset ==> p.supportsHartreset)
    && (i < p.numHarts ==> !h.nonexistent && (h.halted != h.running || (h.hartReset && !h.halted)))
  }

  lemma ReleaseMidway(p: Params, i: nat, h: Hart)
    requires Midway(p, i, h)
    ensures Midway(p, i, Release(h)) && Midway(p, i, Release(h.(hartReset := false)))
  {
  }

  lemma EdgesMidway(p: Params, r: Run, c: Ctl, i: nat)
    requires RunOk(p, r) && i < |r.harts|
    ensures Midway(p, i, AfterEdges(p, r, c, i))
  {
    assert HartOk(p, r, i);
    var h0 := r.harts[i].(nonexistent := i >= p.numHarts);
    assert Midway(p, i, h0);
    ReleaseMidway(p, i, h0);
    var h1 := NdmresetStage(p, r.ndmreset, c.ndmreset, h0);
    assert Midway(p, i, h1);
    ReleaseMidway(p, i, h1);
  }

  lemma RequestsMidway(p: Params, r: Run, c: Ctl, i: nat)
    requires RunOk(p, r) && i < |r.harts|
    ensures Midway(p, i, BeforeResume(p, r, c, i))
  {
    EdgesMidway(p, r, c, i);
    var h := AfterEdges(p, r, c, i);
    assert Midway(p, i, AckStage(p, c, h));
    assert Midway(p, i, HaltStage(c, AckStage(p, c, h)));
  }

  lemma ControlHartOk(p: Params, r: Run, c: Ctl, step: bool, i: nat)
    requires RunOk(p, r) && i < |r.harts| && c.dmactive
    ensures HartOk(p, ControlRun(p, r, c, step), i)
  {
    hide BeforeResume;
    RequestsMidway(p, r, c, i);
    ResumeMidway(p, c, step, BeforeResume(p, r, c, i), i);
    assert ControlRun(p, r, c, step).harts[i] == HartAfter(p, r, c, step, i);
  }

  lemma ResumeMidway(p: Params, c: Ctl, step: bool, h: Hart, i: nat)
    requires Midway(p, i, h)
    ensures Midway(p, i, ResumeStage(c, step, h))
  {
  }

  lemma ControlOk(p: Params, r: Run, c: Ctl, step: bool)
    requires RunOk(p, r) && c.dmactive && c.hartsel < 0x10_0000
    ensures RunOk(p, ControlRun(p, r, c, step))
  {
    forall i | 0 <= i < |r.harts| ensures HartOk(p, ControlRun(p, r, c, step), i) {
      ControlHartOk(p, r, c, step, i);
    }
  }

  lemma DmcontrolOk(s: Dm, value: nat)
    requires Ok(s)
    ensures RunOk(s.params, WriteDmcontrol(s, value).run)
  {
    var c := DecodeCtl(value);
    if c.dmactive {
      HartselBound(value);
      ControlOk(s.params, s.run, c, StepArmed(s.abs));
    } else {
      ResetOk(s, false);
    }
  }

  /** Only dmcontrol writes and set_config touch the run-control state. */
  lemma RunUntouched(s: Dm, op: Op)
    requires Shaped(s.abs)
    requires !op.Configure? && !(op.Write? && op.addr == DMCONTROL_ADDR)
    ensures Step(s, op).run == s.run && Step(s, op).params == s.params && Step(s, op).cfg == s.cfg
  {
  }

  lemma StepOk(s: Dm, op: Op)
    requires Ok(s)
    ensures Ok(Step(s, op))
  {
    match op
    case Write(addr, word) =>
      if addr == DMCONTROL_ADDR {
        DmcontrolOk(s, word % TWO32);
        DmcontrolStep(s, word);
      } else {
        RunUntouched(s, op);
      }
    case Configure(cfg) =>
      ResetOk(s.(params := cfg.params, cfg := cfg, cfgValid := true), true);
    case _ =>
      RunUntouched(s, op);
  }

  lemma DmcontrolStep(s: Dm, word: nat)
    requires Shaped(s.abs)
    ensures OnWrite(s, DMCONTROL_ADDR, word) == WriteDmcontrol(s, word % TWO32)
  {
  }

  /** A run after the device was last declared. */
  predicate NoConfigure(ops: seq<Op>) { forall i :: 0 <= i < |ops| ==> !ops[i].Configure? }

  /** Every state of every run keeps the run-control invariant. */
  lemma {:induction false} ReachableOk(p: Params, ops: seq<Op>)
    ensures Ok(After(Init(p), ops))
  {
    if |ops| == 0 {
      var s := Init(p);
      ResetOk(s, true);
      assert ResetDm(s, true).run == s.run;
    } else {
      ReachableOk(p, ops[..|ops| - 1]);
      StepOk(After(Init(p), ops[..|ops| - 1]), ops[|ops| - 1]);
    }
  }

  /** Neither halted nor running: what the checker takes for a hart held in reset. */
  predicate InReset(h: Hart) { !h.halted && !h.running }

  /** In every run an implemented hart is exactly one of halted and running, reset or not. */
  lemma NeverInReset(p: Params, ops: seq<Op>, i: nat)
    requires i < After(Init(p), ops).params.numHarts
    ensures var s := After(Init(p), ops);
            i < |s.run.harts| && !InReset(s.run.harts[i]) && !(s.run.harts[i].halted && s.run.harts[i].running)
  {
    ReachableOk(p, ops);
    var s := After(Init(p), ops);
    assert HartOk(s.params, s.run, i);
  }

  /** A hart past its release edge is halted exactly if a halt was pending. */
  lemma ReleasedHart(p: Params, r: Run, c: Ctl, i: nat)
    requires RunOk(p, r) && i < p.numHarts && r.ndmreset && !c.ndmreset
    ensures var h, h' := r.harts[i], AfterEdges(p, r, c, i);
            && (h'.halted <==> (h.resetHaltreq || h.haltRequest)
                               && !(c.hartsel == i && c.hartreset && p.supportsHartreset && !r.hartresetLevel))
            && h'.havereset
            && h'.running == (!h'.halted && !(c.hartsel == i && c.hartreset && p.supportsHartreset && !r.hartresetLevel))
            && (c.hartsel == i && c.hartreset && p.supportsHartreset && !r.hartresetLevel ==> h'.hartReset)
  {
    assert HartOk(p, r, i);
  }

  /** A write that ends ndmreset and resumes nothing: who halts, and who shows havereset. */
  lemma ReleaseLaw(s: Dm, word: nat, i: nat)
    requires Ok(s) && i < s.params.numHarts && s.run.ndmreset
    requires var c := DecodeCtl(word); c.dmactive && !c.ndmreset && (c.resumereq ==> c.haltreq)
    ensures var c, h := DecodeCtl(word), s.run.harts[i];
            var h' := OnWrite(s, DMCONTROL_ADDR, word).run.harts[i];
            && (h'.halted <==> (h.resetHaltreq || h.haltRequest || (c.haltreq && c.hartsel == i)) && !h'.hartReset)
            && h'.running == !h'.halted
            && (h'.havereset <==> !(c.ackhavereset && c.hartsel == i))
            && (!s.params.supportsHartreset ==> !h'.hartReset)
  {
    CtlMod32(word);
    DmcontrolStep(s, word);
    HartselBound(word);
    ReleaseHartLaw(s.params, s.run, DecodeCtl(word), StepArmed(s.abs), i);
  }

  lemma ReleaseHartLaw(p: Params, r: Run, c: Ctl, step: bool, i: nat)
    requires RunOk(p, r) && i < p.numHarts && r.ndmreset
    requires c.dmactive && !c.ndmreset && (c.resumereq ==> c.haltreq)
    ensures var h, h' := r.harts[i], HartAfter(p, r, c, step, i);
            && (h'.halted <==> (h.resetHaltreq || h.haltRequest || (c.haltreq && c.hartsel == i)) && !h'.hartReset)
            && h'.running == !h'.halted
            && (h'.havereset <==> !(c.ackhavereset && c.hartsel == i))
            && (!p.supportsHartreset ==> !h'.hartReset)
  {
    ReleasedHart(p, r, c, i);
    EdgesMidway(p, r, c, i);
  }

  /** Outside ndmreset a dmcontrol write touches no hart but the one it selects. */
  lemma OthersUnchanged(s: Dm, word: nat, i: nat)
    requires Ok(s) && i < s.params.numHarts && !s.run.ndmreset
    requires var c := DecodeCtl(word); c.dmactive && !c.ndmreset && c.hartsel != i
    ensures OnWrite(s, DMCONTROL_ADDR, word).run.harts[i] == s.run.harts[i]
  {
    CtlMod32(word);
    DmcontrolStep(s, word);
    assert HartOk(s.params, s.run, i);
  }

  /** A write that asks for nothing but dmactive. */
  const IDLE := Ctl(false, false, false, false, false, false, 0, false, false, false, false, false, true)

  function ControlWrite(c: Ctl): Op { Op.Write(DMCONTROL_ADDR, DriverDmcontrol(c)) }

  lemma ControlWriteDecodes(c: Ctl)
    requires c.hartsel < 0x10_0000
    ensures DecodeCtl(ControlWrite(c).value) == c
  {
    hide DriverDmcontrol, DecodeCtl;
    DriverDecodes(c);
  }

  lemma ControlWriteRun(s: Dm, c: Ctl)
    requires Shaped(s.abs) && c.hartsel < 0x10_0000 && c.dmactive
    ensures Step(s, ControlWrite(c)).run == ControlRun(s.params, s.run, c, StepArmed(s.abs))
    ensures Step(s, ControlWrite(c)).params == s.params
  {
    hide DriverDmcontrol, DecodeCtl, ControlRun, OnWrite;
    ControlWriteDecodes(c);
    CtlMod32(ControlWrite(c).value);
    DmcontrolStep(s, ControlWrite(c).value);
  }

  predicate Pending(h: Hart) { h.resetHaltreq || h.haltRequest }

  /** Whether hart `h` is halted once the levels this kind of write drops have been released. */
  predicate FindsHalted(r: Run, h: Hart)
  {
    if r.ndmreset || r.hartresetLevel then Pending(h) else h.halted
  }

  /** A hart that stays in hartreset because the level was dropped while another hart was selected. */
  predicate StillHeld(r: Run, h: Hart) { h.hartReset && !r.hartresetLevel }

  /** A dmcontrol write that asks for nothing but a resume, with both resets low. */
  predicate LoneResume(c: Ctl)
  {
    c.dmactive && c.resumereq && !c.haltreq && !c.ndmreset && !c.hartreset
  }

  /** What a lone resume does to the hart it names. */
  lemma LoneResumeHart(p: Params, r: Run, c: Ctl, step: bool, i: nat)
    requires RunOk(p, r) && i < p.numHarts && i == c.hartsel && LoneResume(c)
    ensures var h, h' := r.harts[i], HartAfter(p, r, c, step, i);
            && (h'.halted <==> FindsHalted(r, h) && step && !StillHeld(r, h))
            && h'.running == !h'.halted
            && h'.resumeAck == FindsHalted(r, h)
  {
    assert HartOk(p, r, i);
    ReleasedForResume(p, r, c, i);
    RequestsMidway(p, r, c, i);
  }

  lemma ReleasedForResume(p: Params, r: Run, c: Ctl, i: nat)
    requires RunOk(p, r) && i < p.numHarts && i == c.hartsel && LoneResume(c)
    ensures var h, h' := r.harts[i], AfterEdges(p, r, c, i);
            h'.halted == FindsHalted(r, h) && h'.hartReset == StillHeld(r, h)
  {
    assert HartOk(p, r, i);
  }

  lemma HaltEdges(p: Params, r: Run, c: Ctl, i: nat)
    requires RunOk(p, r) && i < p.numHarts && c.hartsel == i && !c.ndmreset && !c.hartreset
    ensures AfterEdges(p, r, c, i).hartReset == StillHeld(r, r.harts[i])
  {
  }

  lemma HaltRequested(p: Params, c: Ctl, h: Hart, i: nat)
    requires Midway(p, i, h) && i < p.numHarts && c.haltreq
    ensures var b := HaltStage(c, AckStage(p, c, h));
            b.hartReset == h.hartReset && b.haltRequest && (!h.hartReset ==> b.halted)
  {
  }

  lemma HaltSettled(c: Ctl, step: bool, p: Params, h: Hart, i: nat)
    requires Midway(p, i, h) && i < p.numHarts && c.haltreq && h.haltRequest && (!h.hartReset ==> h.halted)
    ensures var h' := SettleStage(false, ResumeStage(c, step, h));
            h'.halted == !h.hartReset && h'.running == !h'.halted && h'.hartReset == h.hartReset && h'.haltRequest
  {
  }

  /** A halt request takes effect in the write that makes it, unless the hart is stuck in hartreset. */
  lemma HaltResponse(p: Params, r: Run, c: Ctl, step: bool, i: nat)
    requires RunOk(p, r) && i < p.numHarts && c.hartsel == i
    requires c.haltreq && !c.ndmreset && !c.hartreset
    ensures var h, h' := r.harts[i], HartAfter(p, r, c, step, i);
            && (h'.halted <==> !StillHeld(r, h))
            && h'.running == !h'.halted && h'.hartReset == StillHeld(r, h) && h'.haltRequest
  {
    hide AfterEdges, HaltStage, AckStage, SettleStage, ResumeStage, Midway, StillHeld;
    EdgesMidway(p, r, c, i);
    HaltEdges(p, r, c, i);
    HaltRequested(p, c, AfterEdges(p, r, c, i), i);
    RequestsMidway(p, r, c, i);
    HaltSettled(c, step, p, BeforeResume(p, r, c, i), i);
  }

  // ---- dmcontrol read-back ----

  /** The last dmcontrol write of a run, since the last set_config. */
  function LastControl(ops: seq<Op>): Option<nat>
  {
    if |ops| == 0 then None
    else
      var op := ops[|ops| - 1];
      if op.Configure? then None
      else if op.Write? && op.addr == DMCONTROL_ADDR then Some(op.value)
      else LastControl(ops[..|ops| - 1])
  }

  /** The run-control registers as the last dmcontrol write leaves them. */
  predicate Mirrors(p: Params, r: Run, last: Option<nat>)
  {
    var inactive := !r.dmactive && !r.ndmreset && r.hartsel == 0 && !r.hasel && !r.hartresetLevel;
    match last
    case None => inactive
    case Some(w) =>
      var c := DecodeCtl(w);
      if !c.dmactive then inactive
      else r.dmactive && r.ndmreset == c.ndmreset && r.hartsel == c.hartsel
           && r.hasel == (c.hasel && p.supportsHasel) && r.hartresetLevel == (c.hartreset && p.supportsHartreset)
  }

  lemma {:induction false} MirrorsLast(p: Params, ops: seq<Op>)
    ensures var s := After(Init(p), ops); Mirrors(s.params, s.run, LastControl(ops))
  {
    if |ops| > 0 {
      var s, op := After(Init(p), ops[..|ops| - 1]), ops[|ops| - 1];
      MirrorsLast(p, ops[..|ops| - 1]);
      if op.Write? && op.addr == DMCONTROL_ADDR {
        CtlMod32(op.value);
        DmcontrolStep(s, op.value);
      } else if !op.Configure? {
        RunUntouched(s, op);
      }
    }
  }

  /** The dmcontrol bits a read returns: the rest are write-only and read 0. */
  predicate ReadableBit(p: Params, k: nat)
  {
    k == 0 || k == 1 || 6 <= k < 26 || (k == 26 && p.supportsHasel) || (k == 29 && p.supportsHartreset)
  }

  lemma ReadsBackBit(s: Dm, k: nat)
    requires Shaped(s.abs)
    ensures var r := s.run;
            Bit(Predict(s, DMCONTROL_ADDR), k) <==>
            (k == 0 && r.dmactive) || (k == 1 && r.ndmreset) || (k == 26 && r.hasel)
            || (k == 29 && r.hartresetLevel && s.params.supportsHartreset)
            || (6 <= k < 16 && Bit(r.hartsel, k + 4)) || (16 <= k < 26 && Bit(r.hartsel, k - 16))
  {
    hide ReadbackWord, Haltsum, Haltsum0;
    var r := s.run;
    ReadbackBit(r.dmactive, r.ndmreset, r.hasel, r.hartresetLevel && s.params.supportsHartreset, r.hartsel, k);
  }

  lemma ControlBits(w: nat)
    ensures var c := DecodeCtl(w);
            c.dmactive == Bit(w, 0) && c.ndmreset == Bit(w, 1) && c.hasel == Bit(w, 26) && c.hartreset == Bit(w, 29)
  {
    FlagIsBit(w, 0);
    FlagIsBit(w, 1);
    FlagIsBit(w, 26);
    FlagIsBit(w, 29);
  }

  lemma HartselBits(w: nat, k: nat)
    ensures 6 <= k < 16 ==> (Bit(DecodeCtl(w).hartsel, k + 4) <==> Bit(w, k))
    ensures 16 <= k < 26 ==> (Bit(DecodeCtl(w).hartsel, k - 16) <==> Bit(w, k))
  {
    if 6 <= k < 16 {
      HartselBit(w, k + 4);
    } else if 16 <= k < 26 {
      HartselBit(w, k - 16);
    }
  }

  lemma ZeroBits(k: nat)
    ensures !Bit(0, k + 4) && (k >= 16 ==> !Bit(0, k - 16))
  {
    BitZero(k + 4);
    if k >= 16 {
      BitZero(k - 16);
    }
  }

  /** Over every run, dmcontrol reads back as the last word written to it, masked to the
      readable bits, if that word set dmactive, and as 0 otherwise. */
  lemma DmcontrolReadback(p: Params, ops: seq<Op>, k: nat)
    ensures var s := After(Init(p), ops);
            Bit(Predict(s, DMCONTROL_ADDR), k) <==>
              match LastControl(ops)
              case None => false
              case Some(w) => Bit(w, 0) && Bit(w, k) && ReadableBit(s.params, k)
  {
    hide ReadbackWord, DecodeCtl;
    var s := After(Init(p), ops);
    MirrorsLast(p, ops);
    ReadsBackBit(s, k);
    ZeroBits(k);
    match LastControl(ops)
    case None =>
    case Some(w) =>
      ControlBits(w);
      HartselBits(w, k);
  }
}
