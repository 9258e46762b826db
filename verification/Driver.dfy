// src/pydebug/api/riscv_dm.py in its own form: the debugger object that issues
// ordered writes and polls, driving a Debug Module that behaves as the model. A
// time limit becomes a limit on the number of polls.

module Driver {
  import opened Bits
  import opened Registers
  import opened Words
  import opened DebugModule
  import opened RunControl
  import opened HartLaws
  import opened Predictor

  function Halting(hartsel: nat): Op { ControlWrite(IDLE.(haltreq := true, hartsel := hartsel)) }

  function Resuming(hartsel: nat): Op { ControlWrite(IDLE.(resumereq := true, hartsel := hartsel)) }

  function Selecting(hartsel: nat): Op { ControlWrite(IDLE.(hartsel := hartsel)) }

  /** The words of the three: the hart, dmactive, and no other bit but the request. */
  lemma RequestWords(i: nat, k: nat)
    requires i < 0x10_0000
    ensures var halt, resume, select := Halting(i).value, Resuming(i).value, Selecting(i).value;
            && Selects(halt, i) && Selects(resume, i) && Selects(select, i)
            && (k < 6 || 26 <= k < 32 ==>
                  && Bit(halt, k) == (k == 31 || k == 0) && Bit(resume, k) == (k == 30 || k == 0)
                  && Bit(select, k) == (k == 0))
  {
    hide DriverDmcontrol, DecodeCtl, Bit, Selects;
    WordOf(IDLE.(haltreq := true, hartsel := i));
    WordOf(IDLE.(resumereq := true, hartsel := i));
    WordOf(IDLE.(hartsel := i));
  }

  lemma WordOf(c: Ctl)
    requires c.hartsel < 0x10_0000
    ensures var w := ControlWrite(c).value;
            && Selects(w, c.hartsel)
            && c.haltreq == Bit(w, 31) && c.resumereq == Bit(w, 30) && c.hartreset == Bit(w, 29)
            && c.ackhavereset == Bit(w, 28) && c.ackunavail == Bit(w, 27) && c.hasel == Bit(w, 26)
            && c.setkeepalive == Bit(w, 5) && c.clrkeepalive == Bit(w, 4) && c.setresethaltreq == Bit(w, 3)
            && c.clrresethaltreq == Bit(w, 2) && c.ndmreset == Bit(w, 1) && c.dmactive == Bit(w, 0)
  {
    hide DriverDmcontrol, DecodeCtl, Bit, Selects;
    ControlWriteDecodes(c);
    ControlFlags(ControlWrite(c).value);
    SelectsIsHartsel(ControlWrite(c).value, c.hartsel);
  }

  // ---- What the operations achieve ----

  lemma StatusReads(s: Dm)
    requires Ok(s)
    ensures var f := DecodeStatus(Predict(s, DMSTATUS_ADDR));
            && f.version == s.params.version % 16
            && (s.run.hartsel < |s.run.harts| ==>
                  f.allhalted == s.run.harts[s.run.hartsel].halted && f.allrunning == s.run.harts[s.run.hartsel].running)
  {
    hide EncodeStatus, DecodeStatus;
    StatusRoundTrip(SelectedStatus(s));
  }

  /** A polled register has no read side effect. */
  predicate Pollable(register: nat) { register != SBDATA0 && !IsData(register) && !IsProgbuf(register) }

  lemma PollsNothing(s: Dm, register: nat)
    requires Shaped(s.abs) && Pollable(register)
    ensures Step(s, Op.Read(register)) == s
  {
  }

  lemma ControlWriteHart(s: Dm, c: Ctl, i: nat)
    requires Ok(s) && c.hartsel < 0x10_0000 && c.dmactive && i < |s.run.harts|
    ensures var t := Step(s, ControlWrite(c));
            && Ok(t) && t.params == s.params && |t.run.harts| == |s.run.harts|
            && t.run.hartsel == c.hartsel && t.run.ndmreset == c.ndmreset
            && t.run.hartresetLevel == (c.hartreset && s.params.supportsHartreset)
            && t.run.harts[i] == HartAfter(s.params, s.run, c, StepArmed(s.abs), i)
  {
    hide HartAfter, DriverDmcontrol, Step;
    ControlWriteRun(s, c);
    StepOk(s, ControlWrite(c));
  }

  /** halt() on an existing hart: the first poll already reports it halted, unless it is stuck in hartreset. */
  lemma HaltTakesEffect(s: Dm, i: nat)
    requires Ok(s) && i < s.params.numHarts && i < 0x10_0000
    ensures var t := Step(s, Halting(i));
            && Ok(t) && DecodeStatus(Predict(t, DMSTATUS_ADDR)).allhalted == !StillHeld(s.run, s.run.harts[i])
            && t.params == s.params && i < |t.run.harts| && t.run.hartsel == i && !t.run.ndmreset && !t.run.hartresetLevel
            && t.run.harts[i].halted == !StillHeld(s.run, s.run.harts[i])
            && t.run.harts[i].hartReset == StillHeld(s.run, s.run.harts[i])
  {
    hide HartAfter, DecodeStatus, Step, Predict, ControlWrite;
    var c := IDLE.(haltreq := true, hartsel := i);
    ControlWriteHart(s, c, i);
    HaltResponse(s.params, s.run, c, StepArmed(s.abs), i);
    StatusReads(Step(s, Halting(i)));
  }

  /** Clearing the request leaves the hart halted. */
  lemma HaltRequestCleared(t: Dm, i: nat)
    requires Ok(t) && i < t.params.numHarts && i < 0x10_0000 && t.run.hartsel == i
    requires !t.run.ndmreset && !t.run.hartresetLevel && t.run.harts[i].halted
    ensures var u := Step(t, Selecting(i));
            Ok(u) && i < |u.run.harts| && u.run.harts[i].halted && !u.run.harts[i].running && !u.run.harts[i].haltRequest
  {
    hide DriverDmcontrol, Step, ControlWrite;
    var c := IDLE.(hartsel := i);
    ControlWriteHart(t, c, i);
    assert HartOk(t.params, t.run, i);
    SelectKeepsHalted(t.params, t.run, c, StepArmed(t.abs), i);
  }

  lemma SelectKeepsHalted(p: Params, r: Run, c: Ctl, step: bool, i: nat)
    requires RunOk(p, r) && i < p.numHarts && c == IDLE.(hartsel := i) && !r.ndmreset && !r.hartresetLevel
    ensures var h' := HartAfter(p, r, c, step, i);
            (r.harts[i].halted ==> h'.halted && !h'.running) && !h'.haltRequest && h'.resumeAck == r.harts[i].resumeAck
            && (r.harts[i].running ==> h'.running && !h'.halted)
  {
    assert HartOk(p, r, i);
  }

  /** A resume that finds the hart halted and is to step it once: it is halted again before any poll. */
  predicate StepsOnce(s: Dm, i: nat)
    requires i < |s.run.harts|
  {
    FindsHalted(s.run, s.run.harts[i]) && StepArmed(s.abs) && !StillHeld(s.run, s.run.harts[i])
  }

  lemma ResumeTakesEffect(s: Dm, i: nat)
    requires Ok(s) && i < s.params.numHarts && i < 0x10_0000
    ensures var t := Step(s, Resuming(i));
            && Ok(t) && DecodeStatus(Predict(t, DMSTATUS_ADDR)).allrunning == !StepsOnce(s, i)
            && t.params == s.params && i < |t.run.harts| && t.run.hartsel == i && !t.run.ndmreset && !t.run.hartresetLevel
            && t.run.harts[i].running == !StepsOnce(s, i) && t.run.harts[i].halted == StepsOnce(s, i)
            && t.run.harts[i].resumeAck == FindsHalted(s.run, s.run.harts[i])
  {
    hide HartAfter, DecodeStatus, Step, Predict, ControlWrite;
    var c := IDLE.(resumereq := true, hartsel := i);
    ControlWriteHart(s, c, i);
    LoneResumeHart(s.params, s.run, c, StepArmed(s.abs), i);
    StatusReads(Step(s, Resuming(i)));
  }

  /** Dropping the request changes neither the hart's state nor its acknowledgement. */
  lemma ResumeRequestDropped(t: Dm, i: nat)
    requires Ok(t) && i < t.params.numHarts && i < 0x10_0000 && !t.run.ndmreset && !t.run.hartresetLevel
    ensures var u := Step(t, Selecting(i));
            && Ok(u) && i < |u.run.harts| && u.run.harts[i].halted == t.run.harts[i].halted
            && u.run.harts[i].running == t.run.harts[i].running
            && u.run.harts[i].resumeAck == t.run.harts[i].resumeAck
  {
    hide DriverDmcontrol, Step, ControlWrite, HartAfter;
    var c := IDLE.(hartsel := i);
    ControlWriteHart(t, c, i);
    assert HartOk(t.params, t.run, i);
    SelectKeepsHalted(t.params, t.run, c, StepArmed(t.abs), i);
    var u := Step(t, Selecting(i));
    assert HartOk(u.params, u.run, i);
  }

  /** With ndmreset low, no request of the driver touches any hart but the selected one. */
  lemma OthersStandStill(s: Dm, c: Ctl, j: nat)
    requires Ok(s) && j < s.params.numHarts && !s.run.ndmreset
    requires c.dmactive && !c.ndmreset && c.hartsel < 0x10_0000 && c.hartsel != j
    ensures Step(s, ControlWrite(c)).run.harts[j] == s.run.harts[j]
  {
    hide DecodeCtl, OnWrite, DriverDmcontrol;
    ControlWriteDecodes(c);
    OthersUnchanged(s, ControlWrite(c).value, j);
  }

  // ---- Register access ----

  /** `(2 << 20) | (1 << 17) | (write << 16) | regno`, with 3 for 2 in the 64-bit form: disjoint fields. */
  function AccessWord(size: nat, write: bool, regno: nat): nat
    requires size < 8
  {
    size * 0x10_0000 + 0x2_0000 + (if write then 0x1_0000 else 0) + regno % 0x1_0000
  }

  lemma AccessDecodes(size: nat, write: bool, regno: nat)
    requires size < 8
    ensures AccessWord(size, write, regno) < TWO32
    ensures DecodeCommand(AccessWord(size, write, regno)) == Command(0, size, false, true, write, regno % 0x1_0000)
  {
    hide DecodeCommand;
    CommandFields(AccessWord(size, write, regno));
    AccessArithmetic(size, if write then 1 else 0, regno % 0x1_0000);
  }

  lemma AccessArithmetic(size: nat, write: nat, regno: nat)
    requires size < 8 && write <= 1 && regno < 0x1_0000
    ensures var w := size * 0x10_0000 + 0x2_0000 + write * 0x1_0000 + regno;
            && w < 0x100_0000 && w / 0x10_0000 == size && w / 0x4_0000 == 4 * size
            && w / 0x2_0000 == 8 * size + 1 && w / 0x1_0000 == 16 * size + 2 + write && w % 0x1_0000 == regno
  {
  }

  function CommandOp(size: nat, write: bool, regno: nat): Op
    requires size < 8
  {
    Op.Write(COMMAND_ADDR, AccessWord(size, write, regno))
  }

  /** A register command reaches the shadow as decoded. */
  lemma CommandStep(s: Dm, size: nat, write: bool, regno: nat)
    requires Shaped(s.abs) && !s.busy && size <= 3
    ensures var cmd := Command(0, size, false, true, write, regno % 0x1_0000);
            Step(s, CommandOp(size, write, regno)).abs ==
            LowHalf(HighHalf(s.abs.(lastCommand := AccessWord(size, write, regno)), cmd), cmd)
    ensures var t := Step(s, CommandOp(size, write, regno)); t == s.(abs := t.abs) && Shaped(t.abs)
  {
    hide DecodeCommand, HighHalf, LowHalf, AccessWord;
    AccessDecodes(size, write, regno);
  }

  lemma TransferKeepsStaged(a: Abs, cmd: Command)
    requires Shaped(a)
    ensures var b := LowHalf(HighHalf(a, cmd), cmd); b.staged0 == a.staged0 && b.staged1 == a.staged1 && Shaped(b)
  {
  }

  /** Writing a data register stages the value, whatever autoexec replays. */
  lemma ExecuteKeepsStaged(a: Abs, word: nat)
    requires Shaped(a)
    ensures var b := ExecuteCommand(a, word); b.staged0 == a.staged0 && b.staged1 == a.staged1 && Shaped(b)
  {
    hide DecodeCommand, LowHalf, HighHalf;
    TransferKeepsStaged(a, DecodeCommand(word));
  }

  lemma DataStaged(s: Dm, i: nat, value: nat)
    requires Shaped(s.abs) && !s.busy && i < 2 && i < s.cfg.datacount
    ensures var t := Step(s, Op.Write(DATA0 + i, value));
            && t == s.(abs := t.abs) && Shaped(t.abs)
            && (if i == 0 then t.abs.staged0 == value % TWO32 && t.abs.staged1 == s.abs.staged1
                else t.abs.staged1 == value % TWO32 && t.abs.staged0 == s.abs.staged0)
  {
    hide ExecuteCommand;
    var a := StoreBuffer(s.abs, DATA0 + i, value % TWO32);
    ExecuteKeepsStaged(a, a.lastCommand);
  }

  /** write_gpr, then read_gpr of the same register: the value written, 0 for x0, no claim for a trigger CSR. */
  lemma WriteThenRead(s: Dm, regno: nat, value: nat)
    requires Shaped(s.abs) && !s.busy && s.cfg.datacount >= 1 && regno < 0x1_0000
    ensures var w := Step(Step(s, Op.Write(DATA0, value)), CommandOp(2, true, regno));
            var t := Step(w, CommandOp(2, false, regno));
            && Shaped(t.abs)
            && (regno == GPR_X0 ==> t.abs.data0Valid && Predict(t, DATA0) == 0)
            && (regno != GPR_X0 ==> (t.abs.data0Valid <==> ReadsBackAsWritten(regno)))
            && (regno != GPR_X0 && ReadsBackAsWritten(regno) ==> Predict(t, DATA0) == value % TWO32)
  {
    hide Step;
    DataStaged(s, 0, value);
    var s1 := Step(s, Op.Write(DATA0, value));
    CommandStep(s1, 2, true, regno);
    CommandStep(Step(s1, CommandOp(2, true, regno)), 2, false, regno);
  }

  /** The 64-bit pair: both halves come back. */
  lemma WriteThenRead64(s: Dm, regno: nat, low: nat, high: nat)
    requires Shaped(s.abs) && !s.busy && s.cfg.datacount >= 2 && regno < 0x1_0000
    requires regno != GPR_X0 && ReadsBackAsWritten(regno)
    ensures var w := Step(Step(Step(s, Op.Write(DATA0, low)), Op.Write(DATA0 + 1, high)), CommandOp(3, true, regno));
            var t := Step(w, CommandOp(3, false, regno));
            && Shaped(t.abs) && t.abs.data0Valid && t.abs.known[1]
            && Predict(t, DATA0) == low % TWO32 && Predict(t, DATA0 + 1) == high % TWO32
  {
    hide Step;
    DataStaged(s, 0, low);
    var s1 := Step(s, Op.Write(DATA0, low));
    DataStaged(s1, 1, high);
    var s2 := Step(s1, Op.Write(DATA0 + 1, high));
    CommandStep(s2, 3, true, regno);
    CommandStep(Step(s2, CommandOp(3, true, regno)), 3, false, regno);
  }

  /** Writing dcsr sets the step the next resume will take. */
  lemma DcsrWritten(s: Dm, value: nat)
    requires Shaped(s.abs) && !s.busy && s.cfg.datacount >= 1
    ensures var t := Step(Step(s, Op.Write(DATA0, value)), CommandOp(2, true, DCSR_REGNO));
            && t == s.(abs := t.abs) && Shaped(t.abs) && StepArmed(t.abs) == Flag(value, 2)
            && DCSR_REGNO in t.abs.shadowRegs && t.abs.shadowRegs[DCSR_REGNO] == value % TWO32
  {
    hide Step, Extract;
    DataStaged(s, 0, value);
    var s1 := Step(s, Op.Write(DATA0, value));
    CommandStep(s1, 2, true, DCSR_REGNO);
    ExtractMod32(value, 2, 1);
  }

  /** A dcsr the shadow holds is read as it holds it. */
  lemma DcsrRead(s: Dm)
    requires Shaped(s.abs) && !s.busy && s.cfg.datacount >= 1 && DCSR_REGNO in s.abs.shadowRegs
    ensures Predict(Step(s, CommandOp(2, false, DCSR_REGNO)), DATA0) == s.abs.shadowRegs[DCSR_REGNO]
  {
    hide Step;
    CommandStep(s, 2, false, DCSR_REGNO);
  }

  /** dcsr with its step bit, bit 2, replaced. */
  function WithStep(dcsr: nat, enable: bool): nat { if enable then Or(dcsr, 4) else Insert(dcsr, 2, 1, 0) }

  lemma WithStepBit(dcsr: nat, enable: bool, k: nat)
    requires k < 32
    ensures Bit(WithStep(dcsr, enable) % TWO32, k) <==> if k == 2 then enable else Bit(dcsr, k)
  {
    hide Or, Insert, Low;
    var w := WithStep(dcsr, enable);
    Pow2Of32();
    LowIsMod(w, 32);
    BitLow(w, 32, k);
    BitOr(dcsr, 4, k);
    FourIsBit2(k);
    BitInsert(dcsr, 2, 1, 0, k);
    BitZero(0);
  }

  lemma FourIsBit2(k: nat)
    ensures Bit(4, k) <==> k == 2
  {
    if k >= 3 {
      BitZero(k - 3);
      assert Bit(4, k) == Bit(2, k - 1) == Bit(1, k - 2) == Bit(0, k - 3);
    }
  }

  /** No command is ever predicted busy or failed. */
  lemma AbstractcsIdle(s: Dm)
    requires Shaped(s.abs)
    ensures !Flag(Predict(s, ABSTRACTCS_ADDR), 12) && Extract(Predict(s, ABSTRACTCS_ADDR), 8, 3) == 0
  {
    hide Extract, OrAll;
    var w := AbstractcsWord(s);
    assert Predict(s, ABSTRACTCS_ADDR) == w;
    FlagIsBit(w, 12);
    AbstractcsBit(s, 12);
    forall k: nat ensures Bit(Extract(w, 8, 3), k) <==> Bit(0, k) {
      BitExtract(w, 8, 3, k);
      BitZero(k);
      if k < 3 {
        AbstractcsBit(s, 8 + k);
      }
    }
    SameBits(Extract(w, 8, 3), 0);
  }

  lemma AbstractcsBit(s: Dm, k: nat)
    requires k == 12 || 8 <= k < 11
    ensures !Bit(AbstractcsWord(s), k)
  {
    hide OrAll, Low;
    var parts := [(Low(s.cfg.progbufsize, 5), 24), (FromBool(s.misc.relaxedpriv), 11), (Low(s.cfg.datacount, 4), 0)];
    OrAllBit(parts, k);
    BitLow(s.cfg.datacount, 4, k);
    BitFlag(s.misc.relaxedpriv, 1);
    assert !PartSetsBit(parts[0], k) && !PartSetsBit(parts[1], k) && !PartSetsBit(parts[2], k);
  }

  lemma StepBit(dcsr: nat)
    ensures Flag(Or(dcsr, 4), 2) && !Flag(Insert(dcsr, 2, 1, 0), 2)
  {
    FlagIsBit(Or(dcsr, 4), 2);
    BitOr(dcsr, 4, 2);
    ExtractInserted(dcsr, 2, 1, 0);
  }

  // ---- The debugger ----

  class RISCVDebug {
    const t: DMPredictor
    var hartsel: nat

    constructor (transport: DMPredictor)
      ensures t == transport && hartsel == 0
    {
      t, hartsel := transport, 0;
    }

    method WriteDmi(addr: nat, value: nat)
      requires t.Valid()
      modifies t
      ensures t.Valid() && t.State() == Step(old(t.State()), Op.Write(addr, value))
    {
      t.OnWrite(addr, value);
    }

    method WriteControl(c: Ctl)
      requires t.Valid()
      modifies t
      ensures t.Valid() && t.State() == Step(old(t.State()), ControlWrite(c))
    {
      WriteDmi(DMCONTROL_ADDR, DriverDmcontrol(c));
    }

    method ReadDmi(addr: nat) returns (value: nat)
      requires t.Valid()
      modifies t
      ensures t.Valid() && value == Predict(old(t.State()), addr) && t.State() == Step(old(t.State()), Op.Read(addr))
    {
      value := t.Predict(addr);
      t.ObserveRead(addr);
    }

    /** _poll_until: the register is read at least once, and every poll of an unchanging register reads the same. */
    method PollUntil(done: nat -> bool, register: nat, limit: nat) returns (ok: bool, polls: nat)
      requires t.Valid() && Pollable(register)
      modifies t
      ensures t.Valid() && t.State() == old(t.State())
      ensures ok == done(Predict(t.State(), register))
      ensures polls == if ok || limit == 0 then 1 else limit
    {
      hide Step, Predict;
      polls := 0;
      ok := false;
      ghost var s := t.State();
      while true
        invariant t.Valid() && t.State() == s && (polls > 0 ==> polls < limit && !done(Predict(s, register)))
        decreases limit - polls
      {
        var value := ReadDmi(register);
        PollsNothing(s, register);
        polls := polls + 1;
        if done(value) {
          return true, polls;
        }
        if polls >= limit {
          return false, polls;
        }
      }
    }

    /** activate: false when the module reports version 0. */
    method Activate() returns (ok: bool)
      requires t.Valid()
      modifies this, t
      ensures t.Valid() && hartsel == 0
      ensures t.State() == Step(old(t.State()), ControlWrite(IDLE.(ackhavereset := true)))
      ensures Ok(old(t.State())) ==> ok == (t.State().params.version % 16 != 0)
    {
      hide Step, Predict, ControlWrite, DecodeStatus;
      hartsel := 0;
      ghost var s := t.State();
      WriteControl(IDLE.(ackhavereset := true));
      ghost var s1 := t.State();
      var status := ReadDmi(DMSTATUS_ADDR);
      PollsNothing(s1, DMSTATUS_ADDR);
      ok := DecodeStatus(status).version != 0;
      if Ok(s) {
        StepOk(s, ControlWrite(IDLE.(ackhavereset := true)));
        StatusReads(s1);
      }
    }

    method Deactivate()
      requires t.Valid()
      modifies this, t
      ensures t.Valid() && hartsel == 0 && t.State() == Step(old(t.State()), ControlWrite(IDLE.(dmactive := false)))
    {
      WriteControl(IDLE.(dmactive := false));
      hartsel := 0;
    }

    method SelectHart(h: nat)
      requires t.Valid()
      modifies this, t
      ensures t.Valid() && hartsel == h && t.State() == Step(old(t.State()), Selecting(h))
    {
      hartsel := h;
      WriteControl(IDLE.(hartsel := h));
    }

    /** halt: request, poll allhalted, clear the request. */
    method Halt(limit: nat) returns (ok: bool, polls: nat)
      requires t.Valid()
      modifies t
      ensures t.Valid()
      ensures t.State() == if ok then Step(Step(old(t.State()), Halting(hartsel)), Selecting(hartsel))
                           else Step(old(t.State()), Halting(hartsel))
      ensures var s := old(t.State());
              Ok(s) && hartsel < s.params.numHarts && hartsel < 0x10_0000 ==>
                && hartsel < |t.State().run.harts|
                && ok == !StillHeld(s.run, s.run.harts[hartsel])
                && (ok ==> polls == 1)
                && var h := t.State().run.harts[hartsel]; ok ==> h.halted && !h.running && !h.haltRequest
    {
      hide Step, Predict, ControlWrite, DecodeStatus;
      ghost var s := t.State();
      WriteControl(IDLE.(haltreq := true, hartsel := hartsel));
      ghost var s1 := t.State();
      ok, polls := PollUntil((w: nat) => DecodeStatus(w).allhalted, DMSTATUS_ADDR, limit);
      if ok {
        WriteControl(IDLE.(hartsel := hartsel));
      }
      if Ok(s) && hartsel < s.params.numHarts && hartsel < 0x10_0000 {
        HaltTakesEffect(s, hartsel);
        if ok {
          HaltRequestCleared(s1, hartsel);
        }
      }
    }

    /** resume: request, poll allrunning, drop the request. With step armed no poll ever succeeds. */
    method Resume(limit: nat) returns (ok: bool, polls: nat)
      requires t.Valid()
      modifies t
      ensures t.Valid()
      ensures t.State() == if ok then Step(Step(old(t.State()), Resuming(hartsel)), Selecting(hartsel))
                           else Step(old(t.State()), Resuming(hartsel))
      ensures var s := old(t.State());
              Ok(s) && hartsel < s.params.numHarts && hartsel < 0x10_0000 ==>
                && hartsel < |t.State().run.harts|
                && ok == !StepsOnce(s, hartsel)
                && (ok ==> polls == 1)
                && var h := t.State().run.harts[hartsel];
                   h.running == ok && h.halted == !ok && h.resumeAck == FindsHalted(s.run, s.run.harts[hartsel])
    {
      hide Step, Predict, ControlWrite, DecodeStatus;
      ghost var s := t.State();
      WriteControl(IDLE.(resumereq := true, hartsel := hartsel));
      ghost var s1 := t.State();
      ok, polls := PollUntil((w: nat) => DecodeStatus(w).allrunning, DMSTATUS_ADDR, limit);
      if ok {
        WriteControl(IDLE.(hartsel := hartsel));
      }
      if Ok(s) && hartsel < s.params.numHarts && hartsel < 0x10_0000 {
        ResumeTakesEffect(s, hartsel);
        if ok {
          ResumeRequestDropped(s1, hartsel);
        }
      }
    }

    /** resume_no_wait: the step is over, and acknowledged, when it returns. */
    method ResumeNoWait()
      requires t.Valid()
      modifies t
      ensures t.Valid() && t.State() == Step(Step(old(t.State()), Resuming(hartsel)), Selecting(hartsel))
      ensures var s := old(t.State());
              Ok(s) && hartsel < s.params.numHarts && hartsel < 0x10_0000 ==>
                && hartsel < |t.State().run.harts|
                && var h := t.State().run.harts[hartsel];
                   h.halted == StepsOnce(s, hartsel) && h.resumeAck == FindsHalted(s.run, s.run.harts[hartsel])
    {
      hide Step, Predict, ControlWrite, DecodeStatus;
      ghost var s := t.State();
      WriteControl(IDLE.(resumereq := true, hartsel := hartsel));
      ghost var s1 := t.State();
      WriteControl(IDLE.(hartsel := hartsel));
      if Ok(s) && hartsel < s.params.numHarts && hartsel < 0x10_0000 {
        ResumeTakesEffect(s, hartsel);
        ResumeRequestDropped(s1, hartsel);
      }
    }

    /** _wait_abstractcs: false on a command error. */
    method WaitAbstractcs(limit: nat) returns (ok: bool, polls: nat)
      requires t.Valid()
      modifies t
      ensures t.Valid() && t.State() == old(t.State()) && ok && polls == 1
    {
      hide Step, Predict, Extract;
      ghost var s := t.State();
      polls := 0;
      while true
        invariant t.Valid() && t.State() == s
        invariant polls > 0 ==> polls < limit && Flag(Predict(s, ABSTRACTCS_ADDR), 12)
        decreases limit - polls
      {
        var value := ReadDmi(ABSTRACTCS_ADDR);
        PollsNothing(s, ABSTRACTCS_ADDR);
        polls := polls + 1;
        ok := Extract(value, 8, 3) == 0 && !Flag(value, 12);
        if ok || Extract(value, 8, 3) != 0 || polls >= limit {
          break;
        }
      }
      AbstractcsIdle(s);
    }

    method ReadGpr(regno: nat, limit: nat) returns (value: nat)
      requires t.Valid()
      modifies t
      ensures t.Valid()
      ensures var s := Step(old(t.State()), CommandOp(2, false, regno));
              t.State() == Step(s, Op.Read(DATA0)) && value == Predict(s, DATA0)
    {
      hide Step, Predict;
      WriteDmi(COMMAND_ADDR, AccessWord(2, false, regno));
      var _, _ := WaitAbstractcs(limit);
      value := ReadDmi(DATA0);
    }

    method WriteGpr(regno: nat, value: nat, limit: nat)
      requires t.Valid()
      modifies t
      ensures t.Valid() && t.State() == Step(Step(old(t.State()), Op.Write(DATA0, value)), CommandOp(2, true, regno))
    {
      hide Step, Predict;
      WriteDmi(DATA0, value);
      WriteDmi(COMMAND_ADDR, AccessWord(2, true, regno));
      var _, _ := WaitAbstractcs(limit);
    }

    method WriteReg64(regno: nat, value: nat, limit: nat)
      requires t.Valid()
      modifies t
      ensures t.Valid()
      ensures t.State() == Step(Step(Step(old(t.State()), Op.Write(DATA0, Low(value, 32))),
                                     Op.Write(DATA0 + 1, Low(Shr(value, 32), 32))), CommandOp(3, true, regno))
    {
      hide Step, Predict;
      WriteDmi(DATA0, Low(value, 32));
      WriteDmi(DATA0 + 1, Low(Shr(value, 32), 32));
      WriteDmi(COMMAND_ADDR, AccessWord(3, true, regno));
      var _, _ := WaitAbstractcs(limit);
    }

    /** set_step: dcsr is read, one bit is changed, and dcsr is written back; the next resume steps
        accordingly, and if the model claims the dcsr that was read, no other bit of it changes. */
    method SetStep(enable: bool, limit: nat)
      requires t.Valid()
      modifies t
      ensures t.Valid()
      ensures !old(t.State()).busy && old(t.State()).cfg.datacount >= 1 ==>
                StepArmed(t.State().abs) == enable && t.State().run == old(t.State()).run
      ensures var s, s' := old(t.State()), t.State();
              !s.busy && s.cfg.datacount >= 1 && DCSR_REGNO in s.abs.shadowRegs ==>
                DCSR_REGNO in s'.abs.shadowRegs
                && forall k: nat :: k < 32 ==>
                     (Bit(s'.abs.shadowRegs[DCSR_REGNO], k) <==>
                        if k == 2 then enable else Bit(s.abs.shadowRegs[DCSR_REGNO], k))
    {
      hide Step, Predict, StepArmed, Or, Insert, Flag, Bit;
      ghost var s := t.State();
      var dcsr := ReadGpr(DCSR_REGNO, limit);
      ghost var s1 := t.State();
      var changed := if enable then Or(dcsr, 4) else Insert(dcsr, 2, 1, 0);
      StepBit(dcsr);
      WriteGpr(DCSR_REGNO, changed, limit);
      if !s.busy && s.cfg.datacount >= 1 {
        CommandStep(s, 2, false, DCSR_REGNO);
        DataRead(Step(s, CommandOp(2, false, DCSR_REGNO)));
        DcsrWritten(s1, changed);
        if DCSR_REGNO in s.abs.shadowRegs {
          DcsrRead(s);
          forall k: nat | k < 32 ensures Bit(changed % TWO32, k) <==> if k == 2 then enable else Bit(dcsr, k) {
            WithStepBit(dcsr, enable, k);
          }
        }
      }
    }

    lemma DataRead(s: Dm)
      requires Shaped(s.abs)
      ensures var u := Step(s, Op.Read(DATA0)); u == s.(abs := u.abs)
    {
    }
  }
}
