// The abstract-command shadow of the predictor (src/pydebug/model/predictor.py)
// against a reference: a Debug Module with real data registers and one hart with
// a real 64-bit register file (section 3.7.1.1). Whatever the shadow claims about
// a data register is what the reference holds.

module AbstractShadow {
  import opened Bits
  import opened Registers
  import opened Words
  import opened DebugModule
  import opened RunControl

  /** The reference. `bus0`/`bus1`: the word last written to data0 or data1 over the bus, 0 if none was. */
  datatype Ref = Ref(
    regs: nat -> nat, data: seq<nat>, bus0: nat, bus1: nat,
    lastCommand: nat, abstractauto: nat, dmactive: bool)

  predicate IsTriggerCsr(regno: nat) { 0x7A0 <= regno <= 0x7AF }

  /** What a transfer from the register moves: x0 is 0, and the trigger CSRs give any legal value. */
  function RegisterValue(regs: nat -> nat, regno: nat, any: nat -> nat): nat
  {
    if regno == GPR_X0 then 0 else if IsTriggerCsr(regno) then any(regno) else regs(regno)
  }

  function Put(regs: nat -> nat, regno: nat, value: nat): nat -> nat
  {
    r => if r == regno then value else regs(r)
  }

  /** A transfer in either direction. A 32-bit write leaves the upper half to the hart (`any`). */
  function RefTransfer(r: Ref, cmd: Command, any: nat -> nat): (t: Ref)
    requires |r.data| == 12
    ensures |t.data| == 12
  {
    if cmd.write then
      var high := if cmd.aarsize == 3 then r.data[1] else any(cmd.regno) / TWO32;
      r.(regs := Put(r.regs, cmd.regno, high * TWO32 + r.data[0]))
    else
      var v := RegisterValue(r.regs, cmd.regno, any);
      var low := r.(data := r.data[0 := v % TWO32]);
      if cmd.aarsize == 3 then low.(data := low.data[1 := (v / TWO32) % TWO32]) else low
  }

  /** Access Register; after the Program Buffer ran, the registers may hold anything. */
  function RefExecute(r: Ref, word: nat, any: nat -> nat): (t: Ref)
    requires |r.data| == 12
    ensures |t.data| == 12
  {
    var cmd := DecodeCommand(word);
    if cmd.cmdtype != 0 || cmd.aarsize > 3 then r
    else
      var moved := if cmd.transfer then RefTransfer(r, cmd, any) else r;
      if cmd.postexec then moved.(regs := any) else moved
  }

  predicate RefArmed(c: Config, busy: bool, r: Ref, addr: nat)
    requires IsData(addr) || IsProgbuf(addr)
  {
    c.abstractautoEnable && !busy && Bit(r.abstractauto, if IsData(addr) then addr - DATA0 else 16 + addr - PROGBUF0)
  }

  predicate Present(c: Config, addr: nat)
  {
    (IsData(addr) && addr - DATA0 < c.datacount) || (IsProgbuf(addr) && addr - PROGBUF0 < c.progbufsize)
  }

  /** The command an operation starts, if any: written, or replayed by autoexec. */
  function Started(c: Config, busy: bool, r: Ref, op: Op): Option<nat>
  {
    match op
    case Write(addr, value) =>
      if !r.dmactive || busy then None
      else if addr == COMMAND_ADDR then Some(value % TWO32)
      else if Present(c, addr) && RefArmed(c, busy, r, addr) then Some(r.lastCommand)
      else None
    case Read(addr) =>
      if r.dmactive && Present(c, addr) && RefArmed(c, busy, r, addr) then Some(r.lastCommand) else None
    case _ => None
  }

  function RefReset(r: Ref): Ref
  {
    Ref(r.regs, Zeros(12), 0, 0, 0, 0, false)
  }

  /** A data register written over the bus. */
  function RefData(r: Ref, i: nat, value: nat): Ref
    requires |r.data| == 12 && i < 12
  {
    r.(data := r.data[i := value], bus0 := if i == 0 then value else r.bus0, bus1 := if i == 1 then value else r.bus1)
  }

  /** The registers an operation writes before any command runs. `ran`: the hart executed instructions. */
  function RefStore(c: Config, busy: bool, r: Ref, op: Op, ran: bool, any: nat -> nat): Ref
    requires |r.data| == 12
  {
    var r := if ran then r.(regs := any) else r;
    match op
    case Write(addr, word) =>
      var value := word % TWO32;
      if addr == DMCONTROL_ADDR then
        if Flag(word, 0) then r.(dmactive := true) else RefReset(r)
      else if !r.dmactive || (busy && GuardedWhileBusy(addr)) then r
      else if addr == COMMAND_ADDR then r.(lastCommand := value)
      else if addr == ABSTRACTAUTO_ADDR then r.(abstractauto := value)
      else if IsData(addr) && addr - DATA0 < c.datacount then
        RefData(r, addr - DATA0, value)
      else r
    case _ => r
  }

  function RefStep(c: Config, busy: bool, r: Ref, op: Op, ran: bool, any: nat -> nat): (t: Ref)
    requires |r.data| == 12
    ensures |t.data| == 12
  {
    var stored := RefStore(c, busy, r, op, ran, any);
    var started := Started(c, busy, r, op);
    if started.Some? then RefExecute(stored, started.value, any) else stored
  }

  // ---- The discipline ----

  predicate HartHalted(s: Dm, h: nat) { h < |s.run.harts| && s.run.harts[h].halted }

  /** The write asks hart `h` to resume while it is halted. */
  predicate ResumeTaken(s: Dm, op: Op, h: nat)
  {
    op.Write? && op.addr == DMCONTROL_ADDR && HartHalted(s, h)
    && var c := DecodeCtl(op.value); c.dmactive && c.hartsel == h && c.resumereq && !c.haltreq
  }

  /** The hart ran during the operation: it was not halted throughout, or it was resumed (perhaps for one step). */
  ghost predicate Ran(s: Dm, op: Op, h: nat)
    requires Shaped(s.abs)
  {
    !HartHalted(s, h) || !HartHalted(Step(s, op), h) || ResumeTaken(s, op, h)
  }

  /** What the reference speaks of: no reset, and commands that address the halted hart `h`, in 32 or 64 bits. */
  ghost predicate InScope(s: Dm, r: Ref, op: Op, h: nat)
    requires |r.data| == 12
  {
    && !op.Configure?
    && (op.Write? && op.addr == DMCONTROL_ADDR ==> !DecodeCtl(op.value).ndmreset && !DecodeCtl(op.value).hartreset)
    && (Started(s.cfg, s.busy, r, op).Some? ==>
          s.run.hartsel == h && HartHalted(s, h) && SizeKnown(DecodeCommand(Started(s.cfg, s.busy, r, op).value)))
  }

  predicate SizeKnown(cmd: Command) { cmd.cmdtype == 0 && cmd.transfer && cmd.aarsize <= 3 ==> cmd.aarsize >= 2 }

  /** A register that reads back as it was written. */
  predicate Readable(regno: nat) { regno != GPR_X0 && ReadsBackAsWritten(regno) }

  /** The command leaves a register written that can be read back. */
  predicate WritesRegister(cmd: Command)
  {
    cmd.cmdtype == 0 && cmd.aarsize <= 3 && cmd.transfer && cmd.write && !cmd.postexec && Readable(cmd.regno)
  }

  /** Such a command takes its data as it was last written over the bus. */
  predicate Fresh(r: Ref, cmd: Command)
    requires |r.data| == 12
  {
    WritesRegister(cmd) ==> r.data[0] == r.bus0 && (cmd.aarsize == 3 ==> r.data[1] == r.bus1)
  }

  /** A write an inactive module ignores and the shadow takes. */
  predicate Ignored(c: Config, busy: bool, r: Ref, op: Op)
  {
    op.Write? && !r.dmactive && !busy
    && (op.addr == COMMAND_ADDR || op.addr == ABSTRACTAUTO_ADDR || (IsData(op.addr) && Present(c, op.addr)))
  }

  /** What a debugger must keep: fresh data for register writes, and nothing but 0 written to a data
      register, command or abstractauto of an inactive module. */
  ghost predicate Kept(s: Dm, r: Ref, op: Op, h: nat, any: nat -> nat)
    requires Shaped(s.abs) && |r.data| == 12
  {
    && (Started(s.cfg, s.busy, r, op).Some? ==>
          Fresh(RefStore(s.cfg, s.busy, r, op, Ran(s, op, h), any), DecodeCommand(Started(s.cfg, s.busy, r, op).value)))
    && (Ignored(s.cfg, s.busy, r, op) ==> op.value % TWO32 == 0)
  }

  ghost predicate Disciplined(s: Dm, r: Ref, op: Op, h: nat, any: nat -> nat)
    requires Shaped(s.abs) && |r.data| == 12
  {
    InScope(s, r, op, h) && Kept(s, r, op, h, any)
  }

  // ---- What the shadow may claim ----

  ghost predicate DataSound(a: Abs, r: Ref)
    requires |r.data| == 12 && Shaped(a)
  {
    && (forall i :: 0 <= i < 12 ==> r.data[i] < TWO32)
    && (a.data0Valid ==> a.data0 == r.data[0])
    && (forall i :: 1 <= i < 12 && a.known[i] ==> a.data[i] == r.data[i])
    && a.staged0 == r.bus0 && a.staged1 == r.bus1
  }

  /** The halves the shadow holds of a register that can be read back are the register's. */
  predicate RegSound(a: Abs, r: Ref, regno: nat)
  {
    Readable(regno) ==>
    && (regno in a.shadowRegs ==> a.shadowRegs[regno] == r.regs(regno) % TWO32)
    && (regno in a.shadowHi ==> a.shadowHi[regno] == (r.regs(regno) / TWO32) % TWO32)
  }

  ghost predicate AbsSound(a: Abs, r: Ref)
    requires |r.data| == 12
  {
    Shaped(a) && DataSound(a, r) && forall regno :: RegSound(a, r, regno)
  }

  lemma SplitWord(high: nat, low: nat)
    requires low < TWO32
    ensures (high * TWO32 + low) % TWO32 == low && (high * TWO32 + low) / TWO32 == high
  {
    ModUnique(high * TWO32 + low, TWO32, high, low);
  }

  lemma OneRegSound(a: Abs, r: Ref, regno: nat)
    requires |r.data| == 12 && AbsSound(a, r)
    ensures RegSound(a, r, regno)
  {
  }

  /** A register write keeps the claims true exactly if the data are those last written over the bus. */
  lemma TransferWritesExact(a: Abs, r: Ref, cmd: Command, any: nat -> nat)
    requires |r.data| == 12 && AbsSound(a, r) && 2 <= cmd.aarsize <= 3 && cmd.write
    ensures AbsSound(LowHalf(HighHalf(a, cmd), cmd), RefTransfer(r, cmd, any)) <==>
            (Readable(cmd.regno) ==> r.data[0] == r.bus0 && (cmd.aarsize == 3 ==> r.data[1] == r.bus1))
  {
    var b, t := LowHalf(HighHalf(a, cmd), cmd), RefTransfer(r, cmd, any);
    var high := if cmd.aarsize == 3 then r.data[1] else any(cmd.regno) / TWO32;
    SplitWord(high, r.data[0]);
    forall regno | regno != cmd.regno ensures RegSound(b, t, regno) {
      assert RegSound(a, r, regno);
    }
    assert RegSound(b, t, cmd.regno) <==>
           (Readable(cmd.regno) ==> r.data[0] == r.bus0 && (cmd.aarsize == 3 ==> r.data[1] == r.bus1));
    if AbsSound(b, t) {
      OneRegSound(b, t, cmd.regno);
    }
  }

  lemma LowReadSound(a: Abs, r: Ref, cmd: Command, v: nat)
    requires |r.data| == 12 && AbsSound(a, r) && !cmd.write
    requires cmd.regno == GPR_X0 ==> v % TWO32 == 0
    requires cmd.regno != GPR_X0 && ReadsBackAsWritten(cmd.regno) && cmd.regno in a.shadowRegs ==>
               a.shadowRegs[cmd.regno] == v % TWO32
    ensures AbsSound(LowHalf(a, cmd), r.(data := r.data[0 := v % TWO32]))
  {
    var b, t := LowHalf(a, cmd), r.(data := r.data[0 := v % TWO32]);
    assert b.shadowRegs == a.shadowRegs && b.shadowHi == a.shadowHi;
    forall regno ensures RegSound(b, t, regno) {
      assert RegSound(a, r, regno);
    }
  }

  lemma HighReadSound(a: Abs, r: Ref, cmd: Command, v: nat)
    requires |r.data| == 12 && AbsSound(a, r) && !cmd.write && cmd.aarsize == 3
    requires cmd.regno == GPR_X0 ==> (v / TWO32) % TWO32 == 0
    requires cmd.regno != GPR_X0 && ReadsBackAsWritten(cmd.regno) && cmd.regno in a.shadowHi ==>
               a.shadowHi[cmd.regno] == (v / TWO32) % TWO32
    ensures AbsSound(HighHalf(a, cmd), r.(data := r.data[1 := (v / TWO32) % TWO32]))
  {
    var b, t := HighHalf(a, cmd), r.(data := r.data[1 := (v / TWO32) % TWO32]);
    assert b.shadowRegs == a.shadowRegs && b.shadowHi == a.shadowHi;
    forall regno ensures RegSound(b, t, regno) {
      assert RegSound(a, r, regno);
    }
  }

  lemma TransferReadsSound(a: Abs, r: Ref, cmd: Command, any: nat -> nat)
    requires |r.data| == 12 && AbsSound(a, r) && 2 <= cmd.aarsize <= 3 && !cmd.write
    ensures AbsSound(LowHalf(HighHalf(a, cmd), cmd), RefTransfer(r, cmd, any))
  {
    var v := RegisterValue(r.regs, cmd.regno, any);
    assert RegSound(a, r, cmd.regno);
    hide AbsSound, LowHalf;
    if cmd.aarsize == 3 {
      HighReadSound(a, r, cmd, v);
      var t := r.(data := r.data[1 := (v / TWO32) % TWO32]);
      assert HighHalf(a, cmd).shadowRegs == a.shadowRegs;
      LowReadSound(HighHalf(a, cmd), t, cmd, v);
      assert t.data[0 := v % TWO32] == r.data[0 := v % TWO32][1 := (v / TWO32) % TWO32];
    } else {
      LowReadSound(a, r, cmd, v);
    }
  }

  /** After the Program Buffer ran, nothing is claimed of the registers. */
  lemma ForgottenSound(a: Abs, r: Ref, any: nat -> nat)
    requires |r.data| == 12 && Shaped(a) && DataSound(a, r)
    ensures AbsSound(a.(shadowRegs := map[], shadowHi := map[]), r.(regs := any))
  {
  }

  lemma WriteKeepsData(a: Abs, r: Ref, cmd: Command, any: nat -> nat)
    requires |r.data| == 12 && Shaped(a) && DataSound(a, r) && cmd.write
    ensures var b := LowHalf(HighHalf(a, cmd), cmd); Shaped(b) && DataSound(b, RefTransfer(r, cmd, any))
  {
  }

  /** One command, written or replayed, keeps every claim true exactly if it is fresh. */
  lemma ExecuteExact(a: Abs, r: Ref, word: nat, any: nat -> nat)
    requires |r.data| == 12 && AbsSound(a, r) && SizeKnown(DecodeCommand(word))
    ensures AbsSound(ExecuteCommand(a, word), RefExecute(r, word, any)) <==> Fresh(r, DecodeCommand(word))
  {
    hide DecodeCommand, LowHalf, HighHalf, RefTransfer, AbsSound, DataSound, Readable;
    var cmd := DecodeCommand(word);
    SoundData(a, r);
    if cmd.cmdtype == 0 && cmd.aarsize <= 3 {
      var b, t := a, r;
      if cmd.transfer {
        b, t := LowHalf(HighHalf(a, cmd), cmd), RefTransfer(r, cmd, any);
        if cmd.write {
          TransferWritesExact(a, r, cmd, any);
          WriteKeepsData(a, r, cmd, any);
        } else {
          TransferReadsSound(a, r, cmd, any);
          SoundData(b, t);
        }
      }
      if cmd.postexec {
        ForgottenSound(b, t, any);
      }
    }
  }

  // ---- The invariant over runs ----

  /** Predictor and reference agree: every claim is true, and the last command and abstractauto are the same. */
  ghost predicate Sound(s: Dm, r: Ref, h: nat)
  {
    && Ok(s) && h < s.params.numHarts && |r.data| == 12 && AbsSound(s.abs, r)
    && r.dmactive == s.run.dmactive && r.lastCommand == s.abs.lastCommand && r.abstractauto == s.abs.abstractauto
    && (!r.dmactive ==> r == RefReset(r)) && !s.run.ndmreset && !s.run.hartresetLevel
    && (forall i :: 0 <= i < |s.run.harts| ==> !s.run.harts[i].hartReset)
    && (!HartHalted(s, h) ==> s.abs.shadowRegs == map[] && s.abs.shadowHi == map[])
  }

  /** Storing to the buffers, before any replay. */
  lemma StoreSound(a: Abs, r: Ref, addr: nat, value: nat)
    requires |r.data| == 12 && AbsSound(a, r) && IsData(addr) && value < TWO32
    ensures AbsSound(StoreBuffer(a, addr, value), RefData(r, addr - DATA0, value))
  {
    var b := StoreBuffer(a, addr, value);
    var t := RefData(r, addr - DATA0, value);
    assert b.shadowRegs == a.shadowRegs && b.shadowHi == a.shadowHi;
    forall regno ensures RegSound(b, t, regno) {
      assert RegSound(a, r, regno);
    }
  }

  lemma ProgbufStoreSound(a: Abs, r: Ref, addr: nat, value: nat)
    requires |r.data| == 12 && AbsSound(a, r) && IsProgbuf(addr)
    ensures AbsSound(StoreBuffer(a, addr, value), r)
  {
    var b := StoreBuffer(a, addr, value);
    forall regno ensures RegSound(b, r, regno) {
      assert RegSound(a, r, regno);
    }
  }

  /** With an empty shadow the registers may hold anything. */
  lemma EmptyShadowSound(a: Abs, r: Ref, any: nat -> nat)
    requires |r.data| == 12 && Shaped(a) && DataSound(a, r) && a.shadowRegs == map[] && a.shadowHi == map[]
    ensures AbsSound(a, r.(regs := any))
  {
  }

  lemma QuietEdges(p: Params, r: Run, c: Ctl, i: nat)
    requires i < |r.harts| && !r.ndmreset && !r.hartresetLevel && !c.ndmreset && !c.hartreset
    ensures AfterEdges(p, r, c, i) == r.harts[i].(nonexistent := i >= p.numHarts)
  {
  }

  lemma QuietRequests(p: Params, c: Ctl, h: Hart)
    requires h.available && !h.unavailSticky
    ensures var h' := HaltStage(c, AckStage(p, c, h));
            h'.hartReset == h.hartReset && !h'.Unavail() && h'.nonexistent == h.nonexistent
            && (h.halted ==> h'.halted)
  {
  }

  lemma QuietHart(p: Params, r: Run, c: Ctl, i: nat)
    requires RunOk(p, r) && i < |r.harts| && !r.ndmreset && !r.hartresetLevel && !r.harts[i].hartReset
    requires !c.ndmreset && !c.hartreset
    ensures var b := BeforeResume(p, r, c, i);
            !b.hartReset && !b.Unavail() && (r.harts[i].halted ==> b.halted) && b.nonexistent == (i >= p.numHarts)
  {
    hide HaltStage, AckStage, AfterEdges;
    assert HartOk(p, r, i);
    QuietEdges(p, r, c, i);
    QuietRequests(p, c, AfterEdges(p, r, c, i));
  }

  lemma QuietResume(c: Ctl, step: bool, h: Hart)
    requires !h.hartReset
    ensures var h' := SettleStage(false, ResumeStage(c, step, h));
            !h'.hartReset && (h.halted && !(c.resumereq && !c.haltreq) ==> h'.halted)
  {
  }

  /** Without reset edges a halted hart stays halted unless the write resumes it. */
  lemma QuietControl(p: Params, r: Run, c: Ctl, step: bool, i: nat)
    requires RunOk(p, r) && i < |r.harts| && !r.ndmreset && !r.hartresetLevel && !r.harts[i].hartReset
    requires !c.ndmreset && !c.hartreset
    ensures !HartAfter(p, r, c, step, i).hartReset
    ensures i < p.numHarts && r.harts[i].halted && !(c.hartsel == i && c.resumereq && !c.haltreq) ==>
              HartAfter(p, r, c, step, i).halted
    ensures i < p.numHarts && r.harts[i].halted && c.hartsel == i ==>
              (Resumes(p, r, c) <==> c.resumereq && !c.haltreq)
  {
    hide BeforeResume, ResumeStage;
    QuietHart(p, r, c, i);
    QuietResume(c, step, BeforeResume(p, r, c, i));
  }

  lemma ForgetRegisters(a: Abs, r: Ref)
    requires |r.data| == 12 && AbsSound(a, r)
    ensures AbsSound(a.(shadowRegs := map[], shadowHi := map[]), r)
  {
  }

  lemma ResetSound(s: Dm, r: Ref, h: nat, any: nat -> nat)
    requires Sound(s, r, h)
    ensures AbsSound(ResetDm(s, false).abs, RefReset(r))
    ensures !HartHalted(s, h) ==> AbsSound(ResetDm(s, false).abs, RefReset(r.(regs := any)))
    ensures HartHalted(ResetDm(s, false), h) == HartHalted(s, h)
  {
    var a := ResetDm(s, false).abs;
    forall regno ensures RegSound(a, RefReset(r), regno) {
      assert RegSound(s.abs, r, regno);
    }
    assert s.run.harts[h].halted == ResetDm(s, false).run.harts[h].halted by {
      assert ResetDm(s, false).run.harts[h] == ResetHart(s.params, false, s.run.harts, h);
    }
  }

  lemma DeactivateSound(s: Dm, r: Ref, h: nat, word: nat, any: nat -> nat)
    requires Sound(s, r, h) && !DecodeCtl(word).dmactive
    ensures var op := Op.Write(DMCONTROL_ADDR, word);
            Sound(Step(s, op), RefStep(s.cfg, s.busy, r, op, Ran(s, op, h), any), h)
  {
    hide DecodeCtl, AbsSound;
    var op := Op.Write(DMCONTROL_ADDR, word);
    CtlMod32(word);
    DmcontrolStep(s, word);
    StepOk(s, op);
    ResetSound(s, r, h, any);
    ControlFlag(word);
    var t := Step(s, op);
    assert t == ResetDm(s, false);
    forall i | 0 <= i < |t.run.harts| ensures !t.run.harts[i].hartReset {
      assert t.run.harts[i] == ResetHart(s.params, false, s.run.harts, i);
    }
  }

  lemma ControlFlag(word: nat)
    ensures DecodeCtl(word).dmactive == Flag(word, 0)
  {
  }

  /** The shadow after a dmcontrol write that keeps the module active. */
  lemma ActiveAbsSound(s: Dm, r: Ref, h: nat, c: Ctl, ran: bool, any: nat -> nat)
    requires Sound(s, r, h) && c.dmactive && !c.ndmreset && !c.hartreset
    requires var abs' := if Resumes(s.params, s.run, c) then s.abs.(shadowRegs := map[], shadowHi := map[]) else s.abs;
             ran ==> abs'.shadowRegs == map[] && abs'.shadowHi == map[]
    ensures var abs' := if Resumes(s.params, s.run, c) then s.abs.(shadowRegs := map[], shadowHi := map[]) else s.abs;
            AbsSound(abs', if ran then r.(regs := any, dmactive := true) else r.(dmactive := true))
  {
    hide Resumes;
    ForgetRegisters(s.abs, r);
    var abs' := if Resumes(s.params, s.run, c) then s.abs.(shadowRegs := map[], shadowHi := map[]) else s.abs;
    if ran {
      EmptyShadowSound(abs', r.(dmactive := true), any);
    } else {
      forall regno ensures RegSound(abs', r.(dmactive := true), regno) {
        assert RegSound(abs', r, regno);
      }
    }
  }

  lemma ActivateSound(s: Dm, r: Ref, h: nat, word: nat, any: nat -> nat)
    requires Sound(s, r, h)
    requires var c := DecodeCtl(word); c.dmactive && !c.ndmreset && !c.hartreset
    ensures var op := Op.Write(DMCONTROL_ADDR, word);
            Sound(Step(s, op), RefStep(s.cfg, s.busy, r, op, Ran(s, op, h), any), h)
  {
    hide DecodeCtl, AbsSound, HartAfter, Resumes;
    var op, c := Op.Write(DMCONTROL_ADDR, word), DecodeCtl(word);
    CtlMod32(word);
    DmcontrolStep(s, word);
    StepOk(s, op);
    ControlFlag(word);
    var t := Step(s, op);
    forall i | 0 <= i < |s.run.harts| ensures !t.run.harts[i].hartReset {
      QuietControl(s.params, s.run, c, StepArmed(s.abs), i);
    }
    QuietControl(s.params, s.run, c, StepArmed(s.abs), h);
    ActiveAbsSound(s, r, h, c, Ran(s, op, h), any);
  }

  lemma OtherKeepsAbs(s: Dm, op: Op)
    requires Shaped(s.abs) && !op.Configure?
    requires op.Write? ==> op.addr != DMCONTROL_ADDR && op.addr != COMMAND_ADDR && op.addr != ABSTRACTAUTO_ADDR
                           && !IsData(op.addr) && !IsProgbuf(op.addr)
    requires op.Read? ==> !Present(s.cfg, op.addr)
    ensures Step(s, op).abs == s.abs
  {
  }

  /** Operations that start no command and touch no buffer. */
  lemma OtherSound(s: Dm, r: Ref, h: nat, op: Op, any: nat -> nat)
    requires Sound(s, r, h) && !op.Configure?
    requires op.Write? ==> op.addr != DMCONTROL_ADDR && op.addr != COMMAND_ADDR && op.addr != ABSTRACTAUTO_ADDR
                           && !IsData(op.addr) && !IsProgbuf(op.addr)
    requires op.Read? ==> !Present(s.cfg, op.addr)
    ensures Sound(Step(s, op), RefStep(s.cfg, s.busy, r, op, Ran(s, op, h), any), h)
  {
    hide AbsSound, Step;
    RunUntouched(s, op);
    StepOk(s, op);
    OtherKeepsAbs(s, op);
    RanSound(s, r, h, any);
  }

  lemma SoundData(a: Abs, r: Ref)
    requires |r.data| == 12 && AbsSound(a, r)
    ensures Shaped(a) && DataSound(a, r)
  {
  }

  lemma ExecuteKeepsRest(a: Abs, r: Ref, word: nat, any: nat -> nat)
    requires Shaped(a) && |r.data| == 12
    ensures ExecuteCommand(a, word).lastCommand == a.lastCommand
    ensures ExecuteCommand(a, word).abstractauto == a.abstractauto
    ensures var t := RefExecute(r, word, any);
            t.lastCommand == r.lastCommand && t.abstractauto == r.abstractauto && t.dmactive == r.dmactive
  {
    hide DecodeCommand;
  }

  /** Replaying the last command over buffers just accessed. */
  ghost predicate ReplayFits(s: Dm, r: Ref)
    requires |r.data| == 12
  {
    AbsSound(s.abs, r) && r.lastCommand == s.abs.lastCommand && r.abstractauto == s.abs.abstractauto
  }

  lemma ReplayExact(s: Dm, r: Ref, addr: nat, any: nat -> nat)
    requires |r.data| == 12 && ReplayFits(s, r) && (IsData(addr) || IsProgbuf(addr))
    requires RefArmed(s.cfg, s.busy, r, addr) ==> SizeKnown(DecodeCommand(r.lastCommand))
    ensures var t := if RefArmed(s.cfg, s.busy, r, addr) then RefExecute(r, r.lastCommand, any) else r;
            && |t.data| == 12 && t.dmactive == r.dmactive
            && (ReplayFits(Autoexec(s, addr), t) <==>
                  (RefArmed(s.cfg, s.busy, r, addr) ==> Fresh(r, DecodeCommand(r.lastCommand))))
            && Autoexec(s, addr).abs.lastCommand == t.lastCommand && Autoexec(s, addr).abs.abstractauto == t.abstractauto
  {
    hide AbsSound, ExecuteCommand, RefExecute, DecodeCommand, Fresh;
    SoundData(s.abs, r);
    if RefArmed(s.cfg, s.busy, r, addr) {
      ExecuteExact(s.abs, r, r.lastCommand, any);
      ExecuteKeepsRest(s.abs, r, r.lastCommand, any);
    }
  }

  /** The registers may change under an empty shadow. */
  lemma RanSound(s: Dm, r: Ref, h: nat, any: nat -> nat)
    requires Sound(s, r, h)
    ensures AbsSound(s.abs, if HartHalted(s, h) then r else r.(regs := any))
  {
    if !HartHalted(s, h) {
      EmptyShadowSound(s.abs, r, any);
    }
  }

  lemma StillRan(s: Dm, op: Op, h: nat)
    requires Shaped(s.abs) && !op.Configure? && !(op.Write? && op.addr == DMCONTROL_ADDR)
    ensures Ran(s, op, h) == !HartHalted(s, h)
  {
    RunUntouched(s, op);
  }

  lemma BusyWriteSound(s: Dm, r: Ref, h: nat, addr: nat, word: nat, any: nat -> nat)
    requires Sound(s, r, h) && s.busy && GuardedWhileBusy(addr)
    ensures var op := Op.Write(addr, word);
            Sound(Step(s, op), RefStep(s.cfg, s.busy, r, op, Ran(s, op, h), any), h)
  {
    hide AbsSound;
    StillRan(s, Op.Write(addr, word), h);
    RanSound(s, r, h, any);
  }

  /** The buffer write itself, before the replay. */
  lemma StoredFits(s: Dm, r: Ref, h: nat, addr: nat, word: nat, any: nat -> nat)
    requires Sound(s, r, h) && (IsData(addr) || IsProgbuf(addr)) && !s.busy && s.run.dmactive && Present(s.cfg, addr)
    ensures var stored := RefStore(s.cfg, s.busy, r, Op.Write(addr, word), !HartHalted(s, h), any);
            ReplayFits(s.(abs := StoreBuffer(s.abs, addr, word % TWO32)), stored)
  {
    hide AbsSound;
    RanSound(s, r, h, any);
    var r' := if HartHalted(s, h) then r else r.(regs := any);
    if IsData(addr) {
      StoreSound(s.abs, r', addr, word % TWO32);
    } else {
      ProgbufStoreSound(s.abs, r', addr, word % TWO32);
    }
  }

  lemma BufferWriteExact(s: Dm, r: Ref, h: nat, addr: nat, word: nat, any: nat -> nat)
    requires Sound(s, r, h) && (IsData(addr) || IsProgbuf(addr)) && !s.busy && Present(s.cfg, addr) && s.run.dmactive
    requires InScope(s, r, Op.Write(addr, word), h)
    ensures var op := Op.Write(addr, word);
            Sound(Step(s, op), RefStep(s.cfg, s.busy, r, op, Ran(s, op, h), any), h) <==> Kept(s, r, op, h, any)
  {
    hide AbsSound, ExecuteCommand, RefExecute, DecodeCommand, Fresh;
    var op := Op.Write(addr, word);
    StillRan(s, op, h);
    RunUntouched(s, op);
    StepOk(s, op);
    StoredFits(s, r, h, addr, word, any);
    var stored := RefStore(s.cfg, s.busy, r, op, !HartHalted(s, h), any);
    ReplayExact(s.(abs := StoreBuffer(s.abs, addr, word % TWO32)), stored, addr, any);
  }

  lemma BufferReadExact(s: Dm, r: Ref, h: nat, addr: nat, any: nat -> nat)
    requires Sound(s, r, h) && Present(s.cfg, addr) && InScope(s, r, Op.Read(addr), h)
    ensures var op := Op.Read(addr);
            Sound(Step(s, op), RefStep(s.cfg, s.busy, r, op, Ran(s, op, h), any), h) <==> Kept(s, r, op, h, any)
  {
    hide AbsSound, ExecuteCommand, RefExecute, DecodeCommand, Fresh;
    var op := Op.Read(addr);
    StillRan(s, op, h);
    RunUntouched(s, op);
    StepOk(s, op);
    RanSound(s, r, h, any);
    var stored := RefStore(s.cfg, s.busy, r, op, !HartHalted(s, h), any);
    if !r.dmactive {
      BitZero(if IsData(addr) then addr - DATA0 else 16 + addr - PROGBUF0);
    } else {
      ReplayExact(s, stored, addr, any);
    }
  }

  lemma CommandExact(s: Dm, r: Ref, h: nat, word: nat, any: nat -> nat)
    requires Sound(s, r, h) && !s.busy && s.run.dmactive && InScope(s, r, Op.Write(COMMAND_ADDR, word), h)
    ensures var op := Op.Write(COMMAND_ADDR, word);
            Sound(Step(s, op), RefStep(s.cfg, s.busy, r, op, Ran(s, op, h), any), h) <==> Kept(s, r, op, h, any)
  {
    hide AbsSound, ExecuteCommand, RefExecute, DecodeCommand, Fresh;
    var op, value := Op.Write(COMMAND_ADDR, word), word % TWO32;
    StillRan(s, op, h);
    RunUntouched(s, op);
    StepOk(s, op);
    var a, stored := s.abs.(lastCommand := value), r.(lastCommand := value);
    LastCommandSound(s.abs, r, value);
    ExecuteExact(a, stored, value, any);
    ExecuteKeepsRest(a, stored, value, any);
  }

  // ---- Writes to an inactive module ----

  /** Command word 0 moves nothing. */
  lemma NoCommand(a: Abs)
    requires Shaped(a)
    ensures ExecuteCommand(a, 0) == a
  {
    hide DecodeCommand, LowHalf, HighHalf;
    CommandFields(0);
  }

  /** An ignored word leaves the two in agreement exactly if it is 0. */
  lemma IgnoredExact(s: Dm, r: Ref, h: nat, addr: nat, word: nat, any: nat -> nat)
    requires Sound(s, r, h) && Ignored(s.cfg, s.busy, r, Op.Write(addr, word))
    ensures var op := Op.Write(addr, word);
            Sound(Step(s, op), RefStep(s.cfg, s.busy, r, op, Ran(s, op, h), any), h) <==> word % TWO32 == 0
  {
    hide AbsSound, ExecuteCommand, RefExecute, DecodeCommand;
    var op := Op.Write(addr, word);
    StillRan(s, op, h);
    RunUntouched(s, op);
    StepOk(s, op);
    RanSound(s, r, h, any);
    SoundData(s.abs, r);
    var r' := if HartHalted(s, h) then r else r.(regs := any);
    if addr == COMMAND_ADDR {
      NoCommand(s.abs);
      ExecuteKeepsRest(s.abs.(lastCommand := word % TWO32), r, word % TWO32, any);
    } else if IsData(addr) {
      BitZero(addr - DATA0);
      IgnoredData(s.abs, r', addr, word % TWO32);
    }
  }

  lemma IgnoredData(a: Abs, r: Ref, addr: nat, value: nat)
    requires |r.data| == 12 && AbsSound(a, r) && r == RefReset(r) && IsData(addr) && value < TWO32
    ensures AbsSound(StoreBuffer(a, addr, value), r) <==> value == 0
  {
    var b, i := StoreBuffer(a, addr, value), addr - DATA0;
    if value == 0 {
      StoreSound(a, r, addr, value);
      assert RefData(r, i, 0) == r;
    } else {
      assert i > 0 ==> b.known[i] && b.data[i] != r.data[i];
    }
  }

  lemma LastCommandSound(a: Abs, r: Ref, value: nat)
    requires |r.data| == 12 && AbsSound(a, r)
    ensures AbsSound(a.(lastCommand := value), r.(lastCommand := value))
    ensures AbsSound(a.(abstractauto := value), r.(abstractauto := value))
  {
    forall regno ensures RegSound(a.(lastCommand := value), r.(lastCommand := value), regno)
                 ensures RegSound(a.(abstractauto := value), r.(abstractauto := value), regno) {
      assert RegSound(a, r, regno);
    }
  }

  lemma AbstractautoSound(s: Dm, r: Ref, h: nat, word: nat, any: nat -> nat)
    requires Sound(s, r, h) && !s.busy && s.run.dmactive
    ensures var op := Op.Write(ABSTRACTAUTO_ADDR, word);
            Sound(Step(s, op), RefStep(s.cfg, s.busy, r, op, Ran(s, op, h), any), h)
  {
    hide AbsSound;
    var op, value := Op.Write(ABSTRACTAUTO_ADDR, word), word % TWO32;
    StillRan(s, op, h);
    RunUntouched(s, op);
    StepOk(s, op);
    RanSound(s, r, h, any);
    LastCommandSound(s.abs, if HartHalted(s, h) then r else r.(regs := any), value);
  }

  lemma AbsentBufferSound(s: Dm, r: Ref, h: nat, addr: nat, word: nat, any: nat -> nat)
    requires Sound(s, r, h) && (IsData(addr) || IsProgbuf(addr)) && !Present(s.cfg, addr)
    ensures var op := Op.Write(addr, word);
            Sound(Step(s, op), RefStep(s.cfg, s.busy, r, op, Ran(s, op, h), any), h)
  {
    hide AbsSound;
    StillRan(s, Op.Write(addr, word), h);
    RanSound(s, r, h, any);
  }

  /** Nothing is started by, and nothing ignored in, an operation elsewhere. */
  lemma OtherKept(s: Dm, r: Ref, h: nat, op: Op, any: nat -> nat)
    requires Shaped(s.abs) && |r.data| == 12
    requires op.Write? ==> op.addr != COMMAND_ADDR && op.addr != ABSTRACTAUTO_ADDR && !Present(s.cfg, op.addr)
    requires op.Read? ==> !Present(s.cfg, op.addr)
    ensures Kept(s, r, op, h, any)
  {
  }

  lemma WriteExact(s: Dm, r: Ref, h: nat, addr: nat, word: nat, any: nat -> nat)
    requires Sound(s, r, h) && InScope(s, r, Op.Write(addr, word), h) && addr != DMCONTROL_ADDR
    ensures var op := Op.Write(addr, word);
            Sound(Step(s, op), RefStep(s.cfg, s.busy, r, op, Ran(s, op, h), any), h) <==> Kept(s, r, op, h, any)
  {
    hide AbsSound, Step, RefStep, Ran, RefStore, DecodeCommand, Fresh, InScope;
    var op := Op.Write(addr, word);
    if s.busy && GuardedWhileBusy(addr) {
      BusyWriteSound(s, r, h, addr, word, any);
    } else if Ignored(s.cfg, s.busy, r, op) {
      IgnoredExact(s, r, h, addr, word, any);
    } else if addr == COMMAND_ADDR {
      CommandExact(s, r, h, word, any);
    } else if addr == ABSTRACTAUTO_ADDR {
      AbstractautoSound(s, r, h, word, any);
    } else if IsData(addr) || IsProgbuf(addr) {
      if !Present(s.cfg, addr) {
        AbsentBufferSound(s, r, h, addr, word, any);
        OtherKept(s, r, h, op, any);
      } else if s.run.dmactive {
        BufferWriteExact(s, r, h, addr, word, any);
      } else {
        IdleProgbufSound(s, r, h, addr, word, any);
      }
    } else {
      OtherSound(s, r, h, op, any);
      OtherKept(s, r, h, op, any);
    }
  }

  /** A program buffer word written while the module is inactive claims nothing. */
  lemma IdleProgbufSound(s: Dm, r: Ref, h: nat, addr: nat, word: nat, any: nat -> nat)
    requires Sound(s, r, h) && IsProgbuf(addr) && !s.busy && Present(s.cfg, addr) && !s.run.dmactive
    ensures var op := Op.Write(addr, word);
            Sound(Step(s, op), RefStep(s.cfg, s.busy, r, op, Ran(s, op, h), any), h)
  {
    hide AbsSound, ExecuteCommand, RefExecute, DecodeCommand;
    var op := Op.Write(addr, word);
    StillRan(s, op, h);
    RunUntouched(s, op);
    StepOk(s, op);
    RanSound(s, r, h, any);
    BitZero(16 + addr - PROGBUF0);
    SoundData(s.abs, r);
    ProgbufStoreSound(s.abs, if HartHalted(s, h) then r else r.(regs := any), addr, word % TWO32);
  }

  /** One operation in scope keeps the two in agreement exactly if it keeps the discipline. */
  lemma StepExact(s: Dm, r: Ref, h: nat, op: Op, any: nat -> nat)
    requires Sound(s, r, h) && InScope(s, r, op, h)
    ensures Sound(Step(s, op), RefStep(s.cfg, s.busy, r, op, Ran(s, op, h), any), h) <==> Kept(s, r, op, h, any)
  {
    hide AbsSound, Step, RefStep, Ran, RefStore, DecodeCommand, Fresh;
    match op
    case Write(addr, word) =>
      if addr == DMCONTROL_ADDR {
        OtherKept(s, r, h, op, any);
        if DecodeCtl(word).dmactive {
          ActivateSound(s, r, h, word, any);
        } else {
          DeactivateSound(s, r, h, word, any);
        }
      } else {
        WriteExact(s, r, h, addr, word, any);
      }
    case Read(addr) =>
      if Present(s.cfg, addr) {
        BufferReadExact(s, r, h, addr, any);
      } else {
        OtherSound(s, r, h, op, any);
        OtherKept(s, r, h, op, any);
      }
    case _ =>
      OtherSound(s, r, h, op, any);
      OtherKept(s, r, h, op, any);
  }

  // ---- Whole runs ----

  /** An operation, and what the hart would put into registers nobody controls meanwhile. */
  datatype Move = Move(op: Op, any: nat -> nat)

  function Ops(moves: seq<Move>): (ops: seq<Op>)
    ensures |ops| == |moves| && forall i :: 0 <= i < |moves| ==> ops[i] == moves[i].op
  {
    seq(|moves|, i requires 0 <= i < |moves| => moves[i].op)
  }

  /** The configured module, and a reference with any registers at all. */
  ghost function Configured(p: Params, cfg: Config): (s: Dm)
    ensures Shaped(s.abs)
  {
    SetConfig(Init(p), cfg)
  }

  function RefStart(regs: nat -> nat): Ref { Ref(regs, Zeros(12), 0, 0, 0, 0, false) }

  ghost function RefAfter(s0: Dm, h: nat, regs: nat -> nat, moves: seq<Move>): (r: Ref)
    requires Shaped(s0.abs)
    ensures |r.data| == 12
  {
    if |moves| == 0 then RefStart(regs)
    else
      var init, m := moves[..|moves| - 1], moves[|moves| - 1];
      var s := After(s0, Ops(init));
      RefStep(s.cfg, s.busy, RefAfter(s0, h, regs, init), m.op, Ran(s, m.op, h), m.any)
  }

  ghost predicate AllDisciplined(s0: Dm, h: nat, regs: nat -> nat, moves: seq<Move>)
    requires Shaped(s0.abs)
  {
    |moves| > 0 ==>
      var init, m := moves[..|moves| - 1], moves[|moves| - 1];
      AllDisciplined(s0, h, regs, init)
      && Disciplined(After(s0, Ops(init)), RefAfter(s0, h, regs, init), m.op, h, m.any)
  }

  lemma StartSound(p: Params, cfg: Config, h: nat, regs: nat -> nat)
    requires h < cfg.params.numHarts
    ensures Sound(Configured(p, cfg), RefStart(regs), h)
  {
    var s := Configured(p, cfg);
    ReachableOk(p, []);
    StepOk(Init(p), Configure(cfg));
    forall i | 0 <= i < |s.run.harts| ensures !s.run.harts[i].hartReset {
      assert s.run.harts[i] == ResetHart(cfg.params, true, Init(p).run.harts, i);
    }
  }

  lemma OpsPrefix(moves: seq<Move>)
    requires |moves| > 0
    ensures Ops(moves)[..|moves| - 1] == Ops(moves[..|moves| - 1])
  {
  }

  lemma {:induction false} RunSound(s0: Dm, h: nat, regs: nat -> nat, moves: seq<Move>)
    requires Shaped(s0.abs) && Sound(s0, RefStart(regs), h) && AllDisciplined(s0, h, regs, moves)
    ensures Sound(After(s0, Ops(moves)), RefAfter(s0, h, regs, moves), h)
  {
    hide Sound, InScope, Kept, RefStep;
    if |moves| > 0 {
      var init, m := moves[..|moves| - 1], moves[|moves| - 1];
      RunSound(s0, h, regs, init);
      OpsPrefix(moves);
      StepExact(After(s0, Ops(init)), RefAfter(s0, h, regs, init), h, m.op, m.any);
    }
  }

  /** What the reference returns for a data register; an unimplemented one reads 0. */
  function RefRead(c: Config, r: Ref, addr: nat): nat
    requires |r.data| == 12 && IsData(addr)
  {
    if addr - DATA0 >= c.datacount then 0 else r.data[addr - DATA0]
  }

  /** Over every disciplined run, autoexec replay included, a claimed data register reads as predicted. */
  lemma ShadowIsSound(p: Params, cfg: Config, h: nat, regs: nat -> nat, moves: seq<Move>, addr: nat)
    requires h < cfg.params.numHarts && AllDisciplined(Configured(p, cfg), h, regs, moves)
    requires IsData(addr) && HasModel(After(Configured(p, cfg), Ops(moves)), addr)
    ensures var s := After(Configured(p, cfg), Ops(moves));
            Predict(s, addr) == RefRead(s.cfg, RefAfter(Configured(p, cfg), h, regs, moves), addr)
  {
    hide Configured, RefStep, Disciplined, AllDisciplined;
    StartSound(p, cfg, h, regs);
    RunSound(Configured(p, cfg), h, regs, moves);
  }

  // ---- The discipline is exact ----

  lemma MoveOn(s0: Dm, h: nat, regs: nat -> nat, moves: seq<Move>, m: Move)
    requires Shaped(s0.abs)
    ensures var s, r := After(s0, Ops(moves)), RefAfter(s0, h, regs, moves);
            && After(s0, Ops(moves + [m])) == Step(s, m.op)
            && RefAfter(s0, h, regs, moves + [m]) == RefStep(s.cfg, s.busy, r, m.op, Ran(s, m.op, h), m.any)
  {
    hide RefStep, Step, Ran;
    var all := moves + [m];
    assert all[..|all| - 1] == moves && all[|all| - 1] == m;
    OpsPrefix(all);
  }

  /** Over every disciplined run and every next operation in scope: predictor and reference stay in agreement
      if and only if the operation keeps the discipline too. */
  lemma DisciplineIsExact(p: Params, cfg: Config, h: nat, regs: nat -> nat, moves: seq<Move>, m: Move)
    requires h < cfg.params.numHarts && AllDisciplined(Configured(p, cfg), h, regs, moves)
    requires InScope(After(Configured(p, cfg), Ops(moves)), RefAfter(Configured(p, cfg), h, regs, moves), m.op, h)
    ensures Sound(After(Configured(p, cfg), Ops(moves + [m])), RefAfter(Configured(p, cfg), h, regs, moves + [m]), h) <==>
            Kept(After(Configured(p, cfg), Ops(moves)), RefAfter(Configured(p, cfg), h, regs, moves), m.op, h, m.any)
  {
    hide Configured, RefStep, Kept, InScope, AllDisciplined, Sound, After, RefAfter, Step;
    var s0 := Configured(p, cfg);
    StartSound(p, cfg, h, regs);
    RunSound(s0, h, regs, moves);
    MoveOn(s0, h, regs, moves, m);
    StepExact(After(s0, Ops(moves)), RefAfter(s0, h, regs, moves), h, m.op, m.any);
  }

  // ---- A lapse shows ----

  /** The module takes commands for hart `h` now, and its predictions are claims. */
  predicate Ready(s: Dm, h: nat)
  {
    s.cfgValid && s.run.dmactive && !s.busy && s.cfg.datacount >= 2 && s.run.hartsel == h && HartHalted(s, h)
  }

  function Access(size: nat, write: bool, regno: nat): Command { Command(0, size, false, true, write, regno) }

  /** Predictor and reference, side by side. */
  datatype Pair = Pair(s: Dm, r: Ref)

  ghost function Both(x: Pair, h: nat, op: Op, any: nat -> nat): (y: Pair)
    requires Shaped(x.s.abs) && |x.r.data| == 12
    ensures Shaped(y.s.abs) && |y.r.data| == 12
  {
    Pair(Step(x.s, op), RefStep(x.s.cfg, x.s.busy, x.r, op, Ran(x.s, op, h), any))
  }

  /** The data register is claimed, and the claim is the reference's. */
  ghost predicate ClaimHolds(x: Pair, addr: nat)
    requires Shaped(x.s.abs) && |x.r.data| == 12 && IsData(addr)
  {
    HasModel(x.s, addr) && Predict(x.s, addr) == RefRead(x.s.cfg, x.r, addr)
  }

  lemma CommandBoth(x: Pair, h: nat, word: nat, any: nat -> nat)
    requires Shaped(x.s.abs) && |x.r.data| == 12 && Ready(x.s, h) && x.r.dmactive
    ensures var y := Both(x, h, Op.Write(COMMAND_ADDR, word), any);
            && y.s == x.s.(abs := ExecuteCommand(x.s.abs.(lastCommand := word % TWO32), word % TWO32))
            && y.r == RefExecute(x.r.(lastCommand := word % TWO32), word % TWO32, any)
            && Ready(y.s, h) && y.r.dmactive
  {
    hide ExecuteCommand, RefExecute, DecodeCommand;
    StillRan(x.s, Op.Write(COMMAND_ADDR, word), h);
    ExecuteKeepsRest(x.s.abs, x.r.(lastCommand := word % TWO32), word % TWO32, any);
  }

  /** Reading a register in full shows whether the shadow is right about it: no claim about it is false
      without the data registers showing a false claim. */
  lemma ReadShows(x: Pair, h: nat, read: nat, regno: nat, any: nat -> nat)
    requires Shaped(x.s.abs) && |x.r.data| == 12 && Ready(x.s, h) && x.r.dmactive && Readable(regno)
    requires DecodeCommand(read % TWO32) == Access(3, false, regno)
    ensures var y := Both(x, h, Op.Write(COMMAND_ADDR, read), any);
            RegSound(x.s.abs, x.r, regno) <==>
            (HasModel(y.s, DATA0) ==> ClaimHolds(y, DATA0)) && (HasModel(y.s, DATA0 + 1) ==> ClaimHolds(y, DATA0 + 1))
  {
    hide DecodeCommand, Both;
    CommandBoth(x, h, read, any);
  }

  lemma WriteThenReadMoves(a: Abs, size: nat, regno: nat, last: nat)
    requires Shaped(a) && 2 <= size <= 3 && Readable(regno)
    ensures var w, rd := Access(size, true, regno), Access(size, false, regno);
            var a1 := LowHalf(HighHalf(a, w), w);
            var a2 := LowHalf(HighHalf(a1.(lastCommand := last), rd), rd);
            a2.data0Valid && a2.data0 == a.staged0 && (size == 3 ==> a2.known[1] && a2.data[1] == a.staged1)
  {
  }

  lemma WriteThenReadRef(r: Ref, size: nat, regno: nat, last: nat, any: nat -> nat)
    requires |r.data| == 12 && 2 <= size <= 3 && Readable(regno) && r.data[0] < TWO32 && r.data[1] < TWO32
    ensures var r1 := RefTransfer(r, Access(size, true, regno), any);
            var r2 := RefTransfer(r1.(lastCommand := last), Access(size, false, regno), any);
            r2.data[0] == r.data[0] && (size == 3 ==> r2.data[1] == r.data[1])
  {
    SplitWord(if size == 3 then r.data[1] else any(regno) / TWO32, r.data[0]);
  }

  /** A register written and read back: each claim is right exactly if its data register still held the
      word last written to it over the bus. */
  lemma StaleWriteShows(x: Pair, h: nat, write: nat, read: nat, size: nat, regno: nat, any: nat -> nat)
    requires Shaped(x.s.abs) && |x.r.data| == 12 && DataSound(x.s.abs, x.r) && x.r.dmactive
    requires Ready(x.s, h) && 2 <= size <= 3 && Readable(regno)
    requires DecodeCommand(write % TWO32) == Access(size, true, regno)
    requires DecodeCommand(read % TWO32) == Access(size, false, regno)
    ensures var y := Both(Both(x, h, Op.Write(COMMAND_ADDR, write), any), h, Op.Write(COMMAND_ADDR, read), any);
            && HasModel(y.s, DATA0) && Predict(y.s, DATA0) == x.r.bus0 && RefRead(y.s.cfg, y.r, DATA0) == x.r.data[0]
            && (ClaimHolds(y, DATA0) <==> x.r.data[0] == x.r.bus0)
            && (size == 3 ==>
                  HasModel(y.s, DATA0 + 1) && (ClaimHolds(y, DATA0 + 1) <==> x.r.data[1] == x.r.bus1))
  {
    hide DecodeCommand, Both, LowHalf, HighHalf, RefTransfer, Readable;
    var w, rd := write % TWO32, read % TWO32;
    CommandBoth(x, h, write, any);
    CommandBoth(Both(x, h, Op.Write(COMMAND_ADDR, write), any), h, read, any);
    WriteThenReadMoves(x.s.abs.(lastCommand := w), size, regno, rd);
    WriteThenReadRef(x.r.(lastCommand := w), size, regno, rd, any);
  }

  // ---- A run on which the claim is wrong ----

  const READ_X5 := 0x22_1005
  const WRITE_X6 := 0x23_1006
  const READ_X6 := 0x22_1006

  lemma StaleWords()
    ensures DecodeCommand(READ_X5) == Access(2, false, 0x1005) && DecodeCommand(WRITE_X6) == Access(2, true, 0x1006)
    ensures DecodeCommand(READ_X6) == Access(2, false, 0x1006)
  {
    hide DecodeCommand;
    CommandFields(READ_X5);
    CommandFields(WRITE_X6);
    CommandFields(READ_X6);
  }

  /** x5 moved to x6 through data0: what is claimed of x6 is the word last written to data0. */
  lemma StaleDataMisleads(x: Pair, h: nat, any: nat -> nat)
    requires Sound(x.s, x.r, h) && Ready(x.s, h)
    ensures var y := Both(Both(Both(x, h, Op.Write(COMMAND_ADDR, READ_X5), any), h, Op.Write(COMMAND_ADDR, WRITE_X6), any),
                          h, Op.Write(COMMAND_ADDR, READ_X6), any);
            && HasModel(y.s, DATA0) && Predict(y.s, DATA0) == x.r.bus0
            && RefRead(y.s.cfg, y.r, DATA0) == x.r.regs(0x1005) % TWO32
            && (ClaimHolds(y, DATA0) <==> x.r.regs(0x1005) % TWO32 == x.r.bus0)
  {
    hide DecodeCommand, Both, Sound, ExecuteCommand, Predict, HasModel, RefRead, AbsSound;
    SoundAbs(x.s, x.r, h);
    SoundData(x.s.abs, x.r);
    StaleWords();
    CommandBoth(x, h, READ_X5, any);
    LastCommandSound(x.s.abs, x.r, READ_X5);
    var a, r := x.s.abs.(lastCommand := READ_X5), x.r.(lastCommand := READ_X5);
    ExecuteExact(a, r, READ_X5, any);
    SoundData(ExecuteCommand(a, READ_X5), RefExecute(r, READ_X5, any));
    StaleWriteShows(Both(x, h, Op.Write(COMMAND_ADDR, READ_X5), any), h, WRITE_X6, READ_X6, 2, 0x1006, any);
  }

  lemma SoundAbs(s: Dm, r: Ref, h: nat)
    requires Sound(s, r, h)
    ensures |r.data| == 12 && AbsSound(s.abs, r) && r.dmactive == s.run.dmactive
  {
    hide AbsSound;
  }

  lemma HaltedPair(p: Params, cfg: Config, h: nat, regs: nat -> nat, any: nat -> nat)
    requires h < cfg.params.numHarts && h < 0x10_0000 && cfg.datacount >= 2
    ensures var x := Both(Pair(Configured(p, cfg), RefStart(regs)), h, ControlWrite(IDLE.(haltreq := true, hartsel := h)), any);
            Sound(x.s, x.r, h) && Ready(x.s, h) && x.r.bus0 == 0 && x.r.regs == any
  {
    hide DecodeCtl, DriverDmcontrol, HartAfter;
    var s0, c := Configured(p, cfg), IDLE.(haltreq := true, hartsel := h);
    var op := ControlWrite(c);
    StartSound(p, cfg, h, regs);
    assert !HartHalted(s0, h) by {
      assert s0.run.harts[h] == ResetHart(cfg.params, true, Init(p).run.harts, h);
    }
    ControlWriteDecodes(c);
    ControlWriteRun(s0, c);
    ControlFlag(op.value);
    HaltResponse(cfg.params, s0.run, c, StepArmed(s0.abs), h);
    StepExact(s0, RefStart(regs), h, op, any);
    OtherKept(s0, RefStart(regs), h, op, any);
    HaltKeepsSettings(s0, c);
  }

  lemma HaltKeepsSettings(s: Dm, c: Ctl)
    requires Shaped(s.abs) && c.dmactive && c.hartsel < 0x10_0000
    ensures var t := Step(s, ControlWrite(c)); t.cfg == s.cfg && t.busy == s.busy && t.cfgValid == s.cfgValid
  {
    hide DecodeCtl, DriverDmcontrol, ControlRun, Resumes;
    ControlWriteDecodes(c);
    CtlMod32(ControlWrite(c).value);
    DmcontrolStep(s, ControlWrite(c).value);
  }

  /** So from power-on: halt the hart, move x5 to x6, read x6. The prediction is 0, and right exactly if x5 is. */
  lemma StaleRunMisleads(p: Params, cfg: Config, h: nat, regs: nat -> nat, any: nat -> nat)
    requires h < cfg.params.numHarts && h < 0x10_0000 && cfg.datacount >= 2
    ensures var x := Both(Pair(Configured(p, cfg), RefStart(regs)), h, ControlWrite(IDLE.(haltreq := true, hartsel := h)), any);
            var y := Both(Both(Both(x, h, Op.Write(COMMAND_ADDR, READ_X5), any), h, Op.Write(COMMAND_ADDR, WRITE_X6), any),
                          h, Op.Write(COMMAND_ADDR, READ_X6), any);
            HasModel(y.s, DATA0) && (ClaimHolds(y, DATA0) <==> any(0x1005) % TWO32 == 0)
  {
    hide Both, HasModel, Predict, RefRead, Sound, Ready, Configured;
    HaltedPair(p, cfg, h, regs, any);
    var x := Both(Pair(Configured(p, cfg), RefStart(regs)), h, ControlWrite(IDLE.(haltreq := true, hartsel := h)), any);
    StaleDataMisleads(x, h, any);
  }

  // ---- ndmreset ----

  /** ndmreset takes the hart out of halted without emptying the shadow: whatever runs afterwards, the claims
      about its registers hold exactly if none of a readable one was held. */
  lemma NdmresetExact(s: Dm, r: Ref, h: nat, word: nat)
    requires Sound(s, r, h) && HartHalted(s, h) && DecodeCtl(word).dmactive && DecodeCtl(word).ndmreset
    ensures var op := Op.Write(DMCONTROL_ADDR, word);
            && !HartHalted(Step(s, op), h)
            && ((forall any: nat -> nat :: AbsSound(Step(s, op).abs, RefStep(s.cfg, s.busy, r, op, true, any))) <==>
                forall regno :: Readable(regno) ==> regno !in s.abs.shadowRegs && regno !in s.abs.shadowHi)
  {
    hide DecodeCtl, AbsSound, Readable;
    var op := Op.Write(DMCONTROL_ADDR, word);
    NdmresetKeepsShadow(s, h, word);
    ControlFlag(word);
    var t := r.(dmactive := true);
    forall any: nat -> nat ensures RefStep(s.cfg, s.busy, r, op, true, any) == t.(regs := any) {
    }
    ActiveData(s.abs, r);
    AnyRegisters(s.abs, t);
  }

  lemma ActiveData(a: Abs, r: Ref)
    requires |r.data| == 12 && AbsSound(a, r)
    ensures Shaped(a) && DataSound(a, r.(dmactive := true))
    ensures forall n :: n in a.shadowRegs || n in a.shadowHi ==> Readable(n) ==> RegSound(a, r, n)
  {
  }

  lemma NdmresetKeepsShadow(s: Dm, h: nat, word: nat)
    requires Ok(s) && h < s.params.numHarts && !s.run.ndmreset && !s.run.hartresetLevel
    requires DecodeCtl(word).dmactive && DecodeCtl(word).ndmreset
    ensures var t := Step(s, Op.Write(DMCONTROL_ADDR, word));
            t.abs == s.abs && !HartHalted(t, h)
  {
    hide DecodeCtl;
    CtlMod32(word);
    DmcontrolStep(s, word);
  }

  /** Claims that survive any register contents are no claims. */
  lemma AnyRegisters(a: Abs, r: Ref)
    requires |r.data| == 12 && Shaped(a) && DataSound(a, r)
    ensures (forall any: nat -> nat :: AbsSound(a, r.(regs := any))) <==>
            forall regno :: Readable(regno) ==> regno !in a.shadowRegs && regno !in a.shadowHi
  {
    if regno :| Readable(regno) && (regno in a.shadowRegs || regno in a.shadowHi) {
      var v := if regno in a.shadowRegs then (if a.shadowRegs[regno] == 0 then 1 else 0)
               else (if a.shadowHi[regno] == 0 then TWO32 else 0);
      var any: nat -> nat := (n: nat) => v;
      assert !RegSound(a, r.(regs := any), regno);
      assert !AbsSound(a, r.(regs := any));
    }
  }

  // ---- A data register of an inactive module ----

  /** A data register written while the module is inactive is claimed once it is active, though a module that
      ignores the write, as dmactive=0 lets it, reads 0: right exactly if the word written is 0. */
  lemma InactiveWriteMisleads(x: Pair, h: nat, i: nat, value: nat, on: nat, any: nat -> nat)
    requires Sound(x.s, x.r, h) && !x.s.run.dmactive && !x.s.busy && x.s.cfgValid && i < 12 && i < x.s.cfg.datacount
    requires DecodeCtl(on).dmactive
    ensures var y := Both(Both(x, h, Op.Write(DATA0 + i, value), any), h, Op.Write(DMCONTROL_ADDR, on), any);
            && HasModel(y.s, DATA0 + i) && Predict(y.s, DATA0 + i) == value % TWO32
            && RefRead(y.s.cfg, y.r, DATA0 + i) == 0
            && (ClaimHolds(y, DATA0 + i) <==> value % TWO32 == 0)
  {
    hide DecodeCtl, Both;
    IgnoredStored(x, h, i, value, any);
    Activated(Both(x, h, Op.Write(DATA0 + i, value), any), h, on, any);
  }

  lemma IgnoredStored(x: Pair, h: nat, i: nat, value: nat, any: nat -> nat)
    requires Sound(x.s, x.r, h) && !x.s.run.dmactive && !x.s.busy && x.s.cfgValid && i < 12 && i < x.s.cfg.datacount
    ensures var y := Both(x, h, Op.Write(DATA0 + i, value), any);
            && y.s == x.s.(abs := StoreBuffer(x.s.abs, DATA0 + i, value % TWO32)) && y.r.data == Zeros(12)
  {
    hide AbsSound, ExecuteCommand;
    BitZero(i);
    SoundData(x.s.abs, x.r);
  }

  lemma Activated(x: Pair, h: nat, on: nat, any: nat -> nat)
    requires Shaped(x.s.abs) && |x.r.data| == 12 && DecodeCtl(on).dmactive
    ensures var y := Both(x, h, Op.Write(DMCONTROL_ADDR, on), any);
            && y.s.run.dmactive && y.s.cfg == x.s.cfg && y.s.cfgValid == x.s.cfgValid && y.r.data == x.r.data
            && y.s.abs.data0Valid == x.s.abs.data0Valid && y.s.abs.data0 == x.s.abs.data0
            && y.s.abs.data == x.s.abs.data && y.s.abs.known == x.s.abs.known
  {
    hide DecodeCtl, HartAfter, Resumes;
    CtlMod32(on);
    DmcontrolStep(x.s, on);
    ControlFlag(on);
  }
}
