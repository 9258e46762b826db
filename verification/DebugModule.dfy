// What one DMI operation does to the Debug Module, as functions on values: the
// specification the predictor object of Predictor.dfy is proved against
// (src/pydebug/model/predictor.py).

module DebugModule {
  import opened Bits
  import opened Words

  const DATA0 := 0x04
  const DATA11 := 0x0F
  const DMCONTROL_ADDR := 0x10
  const DMSTATUS_ADDR := 0x11
  const HARTINFO_ADDR := 0x12
  const HALTSUM1_ADDR := 0x13
  const HAWINDOWSEL_ADDR := 0x14
  const HAWINDOW_ADDR := 0x15
  const ABSTRACTCS_ADDR := 0x16
  const COMMAND_ADDR := 0x17
  const ABSTRACTAUTO_ADDR := 0x18
  const NEXTDM_ADDR := 0x1D
  const PROGBUF0 := 0x20
  const PROGBUF15 := 0x2F
  const AUTHDATA_ADDR := 0x30
  const DMCS2_ADDR := 0x32
  const HALTSUM2_ADDR := 0x34
  const HALTSUM3_ADDR := 0x35
  const SBADDRESS3 := 0x37
  const SBCS_ADDR := 0x38
  const SBADDRESS0 := 0x39
  const SBADDRESS1 := 0x3A
  const SBADDRESS2 := 0x3B
  const SBDATA0 := 0x3C
  const SBDATA1 := 0x3D
  const SBDATA2 := 0x3E
  const SBDATA3 := 0x3F
  const HALTSUM0_ADDR := 0x40

  const GPR_X0 := 0x1000
  const DCSR_REGNO := 0x7B0
  const VERSION_1_0 := 3

  // ---- State ----

  /** The constructor's run-control parameters; set_config overwrites them. */
  datatype Params = Params(
    numHarts: nat, version: nat, authenticated: bool, impebreak: bool, hasresethaltreq: bool,
    supportsHartreset: bool, supportsHasel: bool, resumeackReset: bool, stickyunavail: bool,
    haveresetPoweron: bool)

  /** DeclaredConfig, the run-control part in `params`. */
  datatype Config = Config(
    params: Params,
    sbaEnable: bool, abstractautoEnable: bool, hartarrayEnable: bool, authenticationEnable: bool,
    haltgroupsEnable: bool, progbufReadable: bool, haltsumGroupsPresent: bool, progbufsize: nat,
    datacount: nat, relaxedprivReset: bool, nscratch: nat, dataaccess: bool, datasize: nat,
    dataaddr: nat, sbversion: nat, sbasize: nat, sbaccessReset: nat, sbaccessWritable: bool,
    sbaccess128: bool, sbaccess64: bool, sbaccess32: bool, sbaccess16: bool, sbaccess8: bool, nextdm: nat)

  /** DeclaredConfig() with every default. */
  function DefaultConfig(): Config
  {
    Config(Params(1, 2, false, false, false, false, false, false, false, false),
           false, false, false, false, false, false, false, 0, 0, false, 0, false, 0, 0, 0, 0, 0,
           false, false, false, false, false, false, 0)
  }

  /** HartState: the four bits the DM tracks for a hart, and the signals it receives from it. */
  datatype Hart = Hart(
    haltRequest: bool, resumeAck: bool, resetHaltreq: bool, hartReset: bool,
    halted: bool, running: bool, havereset: bool,
    available: bool, unavailSticky: bool, nonexistent: bool)
  {
    predicate Unavail() { !available || unavailSticky }
  }

  datatype Run = Run(dmactive: bool, ndmreset: bool, hartsel: nat, hasel: bool, hartresetLevel: bool, harts: seq<Hart>)

  /** The abstract-command shadow and the buffers it works on. */
  datatype Abs = Abs(
    shadowRegs: map<nat, nat>, shadowHi: map<nat, nat>, staged0: nat, staged1: nat,
    data0Valid: bool, data0: nat, data: seq<nat>, known: seq<bool>, progbuf: seq<nat>,
    lastCommand: nat, abstractauto: nat)

  /** The System Bus Access shadow. */
  datatype Sba = Sba(
    mem: map<nat, nat>, address0: nat, address1: nat, armed: bool, data0Valid: bool, data0: nat,
    data1: nat, data1Known: bool, readonaddr: bool, access: nat, autoincrement: bool, readondata: bool)

  datatype Misc = Misc(hawindowsel: nat, hawindow: map<nat, nat>, authdata: nat, relaxedpriv: bool)

  datatype Dm = Dm(params: Params, cfg: Config, cfgValid: bool, run: Run, abs: Abs, sba: Sba, misc: Misc, busy: bool)

  /** What reaches the model: bus traffic, the observed abstractcs.busy, and set_config. */
  datatype Op =
    | Write(addr: nat, value: nat)
    | Read(addr: nat)
    | SetBusy(busy: bool)
    | Configure(cfg: Config)

  // ---- Reset ----

  function ResetHart(p: Params, powerOn: bool, prev: seq<Hart>, i: nat): Hart
  {
    var blank := Hart(false, p.resumeackReset, false, false, false, true, false, true, false, false);
    if powerOn then blank.(havereset := p.haveresetPoweron)
    else if i < |prev| then blank.(halted := prev[i].halted, running := prev[i].running, havereset := prev[i].havereset)
    else blank
  }

  function ResetHarts(p: Params, powerOn: bool, prev: seq<Hart>): seq<Hart>
  {
    seq(if p.numHarts >= 1 then p.numHarts else 1, i requires i >= 0 => ResetHart(p, powerOn, prev, i))
  }

  function Zeros(n: nat): seq<nat> { seq(n, i => 0) }

  function AllKnown(n: nat): seq<bool> { seq(n, i => true) }

  /** reset_dm: everything takes its reset value except the hart and memory shadows, the armed bit and busy. */
  function ResetDm(s: Dm, powerOn: bool): Dm
  {
    s.(run := Run(false, false, 0, false, false, ResetHarts(s.params, powerOn, s.run.harts)),
       abs := Abs(s.abs.shadowRegs, s.abs.shadowHi, 0, 0, true, 0, Zeros(12), AllKnown(12), Zeros(16), 0, 0),
       sba := Sba(s.sba.mem, 0, 0, s.sba.armed, true, 0, 0, true, false, s.cfg.sbaccessReset, false, false),
       misc := Misc(0, map[], 0, s.cfg.relaxedprivReset))
  }

  /** The state after the constructor. */
  function Init(p: Params): Dm
  {
    ResetDm(Dm(p, DefaultConfig(), false, Run(false, false, 0, false, false, []),
               Abs(map[], map[], 0, 0, false, 0, Zeros(12), AllKnown(12), Zeros(16), 0, 0),
               Sba(map[], 0, 0, false, false, 0, 0, true, false, 0, false, false),
               Misc(0, map[], 0, false), false), true)
  }

  function SetConfig(s: Dm, cfg: Config): Dm
  {
    ResetDm(s.(params := cfg.params, cfg := cfg, cfgValid := true), true)
  }

  // ---- dmcontrol: what a write does to one hart ----

  /** A hart coming out of reset (section 3.2): havereset set, halted exactly if a halt is pending. */
  function Release(h: Hart): Hart
  {
    if h.nonexistent then h
    else if h.resetHaltreq || h.haltRequest then h.(havereset := true, halted := true, running := false)
    else h.(havereset := true, halted := false, running := true)
  }

  /** The ndmreset level, seen by every hart. */
  function NdmresetStage(p: Params, was: bool, now: bool, h: Hart): Hart
  {
    if now && !was then
      h.(halted := false, running := !h.Unavail(), havereset := true, resumeAck := p.resumeackReset)
    else if !now && was then Release(h)
    else h
  }

  /** The hartreset level, seen by the selected hart. */
  function HartresetStage(p: Params, was: bool, now: bool, h: Hart): Hart
  {
    if now && !was then h.(hartReset := true, halted := false, running := false, resumeAck := p.resumeackReset)
    else if !now && was then Release(h.(hartReset := false))
    else h
  }

  /** set/clrresethaltreq, ackhavereset and ackunavail on the selected hart. */
  function AckStage(p: Params, c: Ctl, h: Hart): Hart
  {
    h.(resetHaltreq := if p.hasresethaltreq && c.clrresethaltreq then false
                       else if p.hasresethaltreq && c.setresethaltreq then true
                       else h.resetHaltreq,
       havereset := h.havereset && !c.ackhavereset,
       unavailSticky := h.unavailSticky && !(c.ackunavail && h.available))
  }

  /** The persistent halt request of the selected hart, and its response. */
  function HaltStage(c: Ctl, h: Hart): Hart
  {
    var h' := h.(haltRequest := c.haltreq);
    if c.haltreq && !h'.nonexistent && !h'.Unavail() && h'.running && !h'.halted
    then h'.(halted := true, running := false)
    else h'
  }

  predicate ResumeActs(c: Ctl, h: Hart)
  {
    c.resumereq && !c.haltreq && !h.nonexistent && !h.Unavail()
  }

  /** resumereq on the selected hart; `step` is the shadowed dcsr.step. */
  function ResumeStage(c: Ctl, step: bool, h: Hart): Hart
  {
    if !ResumeActs(c, h) then h
    else if h.halted then h.(halted := step, running := !step, resumeAck := true)
    else h.(resumeAck := false)
  }

  /** A hart held in reset is not halted, and runs unless it is unavailable. */
  function SettleStage(ndmreset: bool, h: Hart): Hart
  {
    if ndmreset || (h.hartReset && !h.nonexistent) then h.(halted := false, running := !h.Unavail()) else h
  }

  /** Hart `i` as the request bits of the write see it: named, and past the reset edges. */
  function AfterEdges(p: Params, r: Run, c: Ctl, i: nat): Hart
    requires i < |r.harts|
  {
    var h := NdmresetStage(p, r.ndmreset, c.ndmreset, r.harts[i].(nonexistent := i >= p.numHarts));
    if i == c.hartsel then HartresetStage(p, r.hartresetLevel, c.hartreset && p.supportsHartreset, h) else h
  }

  function BeforeResume(p: Params, r: Run, c: Ctl, i: nat): Hart
    requires i < |r.harts|
  {
    var h := AfterEdges(p, r, c, i);
    if i == c.hartsel then HaltStage(c, AckStage(p, c, h)) else h
  }

  function HartAfter(p: Params, r: Run, c: Ctl, step: bool, i: nat): Hart
    requires i < |r.harts|
  {
    var h := BeforeResume(p, r, c, i);
    SettleStage(c.ndmreset, if i == c.hartsel then ResumeStage(c, step, h) else h)
  }

  /** dcsr.step as last written through an abstract command. */
  predicate StepArmed(a: Abs)
  {
    DCSR_REGNO in a.shadowRegs && Flag(a.shadowRegs[DCSR_REGNO], 2)
  }

  /** The write resumes a halted hart, whose registers the shadow can no longer follow. */
  predicate Resumes(p: Params, r: Run, c: Ctl)
  {
    c.hartsel < |r.harts|
    && ResumeActs(c, BeforeResume(p, r, c, c.hartsel))
    && BeforeResume(p, r, c, c.hartsel).halted
  }

  function ControlRun(p: Params, r: Run, c: Ctl, step: bool): Run
  {
    Run(true, c.ndmreset, c.hartsel, c.hasel && p.supportsHasel, c.hartreset && p.supportsHartreset,
        seq(|r.harts|, i requires 0 <= i < |r.harts| => HartAfter(p, r, c, step, i)))
  }

  function WriteDmcontrol(s: Dm, value: nat): Dm
  {
    var c := DecodeCtl(value);
    if !c.dmactive then ResetDm(s, false)
    else
      s.(run := ControlRun(s.params, s.run, c, StepArmed(s.abs)),
         abs := if Resumes(s.params, s.run, c) then s.abs.(shadowRegs := map[], shadowHi := map[]) else s.abs)
  }

  // ---- Abstract commands (section 3.7.1.1) ----

  datatype Command = Command(cmdtype: nat, aarsize: nat, postexec: bool, transfer: bool, write: bool, regno: nat)

  function DecodeCommand(value: nat): Command
  {
    Command(Extract(value, 24, 8), Extract(value, 20, 3), Flag(value, 18), Flag(value, 17), Flag(value, 16),
            Extract(value, 0, 16))
  }

  /** The fields of a command word, by arithmetic. */
  lemma CommandFields(w: nat)
    ensures DecodeCommand(w) ==
            Command((w / 0x100_0000) % 256, (w / 0x10_0000) % 8, (w / 0x4_0000) % 2 == 1, (w / 0x2_0000) % 2 == 1,
                    (w / 0x1_0000) % 2 == 1, w % 0x1_0000)
  {
    ExtractIsDivMod(w, 24, 8);
    ExtractIsDivMod(w, 20, 3);
    ExtractIsDivMod(w, 18, 1);
    ExtractIsDivMod(w, 17, 1);
    ExtractIsDivMod(w, 16, 1);
    ExtractIsDivMod(w, 0, 16);
    hide Extract;
    assert Pow2(1) == 2 && Pow2(3) == 8 && Pow2(8) == 256 && Pow2(16) == 0x1_0000 && Pow2(17) == 0x2_0000;
    assert Pow2(18) == 0x4_0000 && Pow2(20) == 0x10_0000 && Pow2(24) == 0x100_0000;
  }

  /** The trigger CSRs legalize what is written, so a write does not predict a read. */
  predicate ReadsBackAsWritten(regno: nat) { !(0x7A0 <= regno <= 0x7AF) }

  /** The data1 half of a transfer. */
  function HighHalf(a: Abs, cmd: Command): Abs
    requires |a.data| == 12 && |a.known| == 12
  {
    if cmd.aarsize == 3 then
      if cmd.write then a.(shadowHi := a.shadowHi[cmd.regno := a.staged1])
      else if cmd.regno == GPR_X0 then a.(data := a.data[1 := 0], known := a.known[1 := true])
      else if cmd.regno in a.shadowHi && ReadsBackAsWritten(cmd.regno) then
        a.(data := a.data[1 := a.shadowHi[cmd.regno]], known := a.known[1 := true])
      else a.(known := a.known[1 := false])
    else if cmd.write then a.(shadowHi := a.shadowHi - {cmd.regno})
    else a
  }

  /** The data0 half of a transfer. */
  function LowHalf(a: Abs, cmd: Command): Abs
  {
    if cmd.write then a.(shadowRegs := a.shadowRegs[cmd.regno := a.staged0])
    else if cmd.regno == GPR_X0 then a.(data0Valid := true, data0 := 0)
    else if cmd.regno in a.shadowRegs && ReadsBackAsWritten(cmd.regno) then
      a.(data0Valid := true, data0 := a.shadowRegs[cmd.regno])
    else a.(data0Valid := false)
  }

  function ExecuteCommand(a: Abs, value: nat): Abs
    requires |a.data| == 12 && |a.known| == 12
  {
    var cmd := DecodeCommand(value);
    if cmd.cmdtype != 0 || cmd.aarsize > 3 then a
    else
      var moved := if cmd.transfer then LowHalf(HighHalf(a, cmd), cmd) else a;
      if cmd.postexec then moved.(shadowRegs := map[], shadowHi := map[]) else moved
  }

  predicate IsData(addr: nat) { DATA0 <= addr <= DATA11 }
  predicate IsProgbuf(addr: nat) { PROGBUF0 <= addr <= PROGBUF15 }

  predicate AutoexecArmed(s: Dm, addr: nat)
    requires IsData(addr) || IsProgbuf(addr)
  {
    s.cfg.abstractautoEnable && !s.busy
    && Bit(s.abs.abstractauto, if IsData(addr) then addr - DATA0 else 16 + addr - PROGBUF0)
  }

  predicate Implemented(s: Dm, addr: nat)
  {
    (IsData(addr) && addr - DATA0 < s.cfg.datacount) || (IsProgbuf(addr) && addr - PROGBUF0 < s.cfg.progbufsize)
  }

  predicate Shaped(a: Abs) { |a.data| == 12 && |a.known| == 12 && |a.progbuf| == 16 }

  function Autoexec(s: Dm, addr: nat): Dm
    requires Shaped(s.abs) && (IsData(addr) || IsProgbuf(addr))
  {
    if AutoexecArmed(s, addr) then s.(abs := ExecuteCommand(s.abs, s.abs.lastCommand)) else s
  }

  function StoreBuffer(a: Abs, addr: nat, value: nat): Abs
    requires Shaped(a) && (IsData(addr) || IsProgbuf(addr))
  {
    if addr == DATA0 then a.(staged0 := value, data0Valid := true, data0 := value)
    else if IsData(addr) then
      var i := addr - DATA0;
      a.(data := a.data[i := value], known := a.known[i := true], staged1 := if i == 1 then value else a.staged1)
    else a.(progbuf := a.progbuf[addr - PROGBUF0 := value])
  }

  function WriteBuffer(s: Dm, addr: nat, value: nat): Dm
    requires Shaped(s.abs) && (IsData(addr) || IsProgbuf(addr))
  {
    if Implemented(s, addr) then Autoexec(s.(abs := StoreBuffer(s.abs, addr, value)), addr) else s
  }

  // ---- System Bus Access (section 3.10) ----

  function SbaIncrement(b: Sba, sbasize: nat): Sba
  {
    if !b.autoincrement then b
    else
      var a := b.address1 * TWO32 + b.address0 + Pow2(b.access);
      b.(address0 := a % TWO32, address1 := if sbasize > 32 then (a / TWO32) % TWO32 else b.address1)
  }

  function SbaArm(b: Sba, address: nat): Sba
  {
    if address in b.mem then b.(data1Known := false, data0Valid := true, data0 := b.mem[address])
    else b.(data1Known := false, data0Valid := false)
  }

  function WriteSbcs(b: Sba, cfg: Config, value: nat): Sba
  {
    b.(armed := Flag(value, 20), readonaddr := Flag(value, 20),
       access := if cfg.sbaccessWritable then Extract(value, 17, 3) else b.access,
       autoincrement := Flag(value, 16), readondata := Flag(value, 15))
  }

  function WriteSbaddress0(b: Sba, sbasize: nat, value: nat): Sba
  {
    var b' := b.(address0 := value);
    if b'.armed then SbaIncrement(SbaArm(b', value), sbasize) else b'
  }

  function WriteSbdata0(b: Sba, sbasize: nat, value: nat): Sba
  {
    SbaIncrement(b.(mem := b.mem[b.address0 := value]), sbasize)
  }

  function ReadSbdata0(b: Sba, sbasize: nat): Sba
  {
    if b.readondata then SbaIncrement(SbaArm(b, b.address0), sbasize) else b
  }

  // ---- One operation ----

  predicate GuardedWhileBusy(addr: nat)
  {
    addr == COMMAND_ADDR || addr == ABSTRACTCS_ADDR || addr == ABSTRACTAUTO_ADDR || IsData(addr) || IsProgbuf(addr)
  }

  /** Harts of window `sel` that exist, as a mask. */
  ghost function HawindowImplemented(numHarts: nat, sel: nat): nat
  {
    BitsWord((k: nat) => 32 * sel + k < numHarts, 32)
  }

  /** `a & b` */
  ghost function And(a: nat, b: nat): nat
  {
    if a == 0 || b == 0 then 0 else 2 * And(a / 2, b / 2) + (if a % 2 == 1 && b % 2 == 1 then 1 else 0)
  }

  /** on_write */
  ghost function OnWrite(s: Dm, addr: nat, word: nat): Dm
    requires Shaped(s.abs)
  {
    var value := word % TWO32;
    if s.busy && GuardedWhileBusy(addr) then s
    else if IsData(addr) || IsProgbuf(addr) then WriteBuffer(s, addr, value)
    else if addr == DMCONTROL_ADDR then WriteDmcontrol(s, value)
    else if addr == SBADDRESS1 then s.(sba := s.sba.(address1 := value))
    else if addr == SBDATA1 then s.(sba := s.sba.(data1 := value, data1Known := true))
    else if addr == HAWINDOW_ADDR then
      if s.cfg.hartarrayEnable then
        s.(misc := s.misc.(hawindow := s.misc.hawindow[s.misc.hawindowsel :=
             And(value, HawindowImplemented(s.params.numHarts, s.misc.hawindowsel))]))
      else s
    else if addr == COMMAND_ADDR then
      s.(abs := ExecuteCommand(s.abs.(lastCommand := value), value))
    else if addr == SBCS_ADDR then s.(sba := WriteSbcs(s.sba, s.cfg, value))
    else if addr == SBADDRESS0 then s.(sba := WriteSbaddress0(s.sba, s.cfg.sbasize, value))
    else if addr == SBDATA0 then s.(sba := WriteSbdata0(s.sba, s.cfg.sbasize, value))
    else if addr == ABSTRACTAUTO_ADDR then s.(abs := s.abs.(abstractauto := value))
    else if addr == HAWINDOWSEL_ADDR then s.(misc := s.misc.(hawindowsel := Low(value, 15)))
    else if addr == ABSTRACTCS_ADDR && s.params.version >= VERSION_1_0 then
      s.(misc := s.misc.(relaxedpriv := Flag(value, 11)))
    else s
  }

  /** observe_read: the side effects of a read. */
  function OnRead(s: Dm, addr: nat): Dm
    requires Shaped(s.abs)
  {
    if addr == SBDATA0 then s.(sba := ReadSbdata0(s.sba, s.cfg.sbasize))
    else if Implemented(s, addr) then Autoexec(s, addr)
    else s
  }

  lemma ExecuteShaped(a: Abs, value: nat)
    requires Shaped(a)
    ensures Shaped(ExecuteCommand(a, value))
  {
  }

  lemma BufferShaped(s: Dm, addr: nat, value: nat)
    requires Shaped(s.abs) && (IsData(addr) || IsProgbuf(addr))
    ensures Shaped(Autoexec(s, addr).abs) && Shaped(WriteBuffer(s, addr, value).abs)
  {
    ExecuteShaped(s.abs, s.abs.lastCommand);
    ExecuteShaped(StoreBuffer(s.abs, addr, value), s.abs.lastCommand);
  }

  lemma ControlShaped(s: Dm, value: nat)
    requires Shaped(s.abs)
    ensures Shaped(WriteDmcontrol(s, value).abs)
  {
  }

  lemma WriteShaped(s: Dm, addr: nat, word: nat)
    requires Shaped(s.abs)
    ensures Shaped(OnWrite(s, addr, word).abs)
  {
    var value := word % TWO32;
    if IsData(addr) || IsProgbuf(addr) {
      BufferShaped(s, addr, value);
    } else if addr == DMCONTROL_ADDR {
      ControlShaped(s, value);
    } else if addr == COMMAND_ADDR {
      ExecuteShaped(s.abs.(lastCommand := value), value);
    }
  }

  lemma ReadShaped(s: Dm, addr: nat)
    requires Shaped(s.abs)
    ensures Shaped(OnRead(s, addr).abs)
  {
    if IsData(addr) || IsProgbuf(addr) {
      BufferShaped(s, addr, 0);
    }
  }

  ghost function Step(s: Dm, op: Op): (t: Dm)
    requires Shaped(s.abs)
    ensures Shaped(t.abs)
  {
    match op
    case Write(addr, value) =>
      WriteShaped(s, addr, value);
      OnWrite(s, addr, value)
    case Read(addr) =>
      ReadShaped(s, addr);
      OnRead(s, addr)
    case SetBusy(b) => s.(busy := b)
    case Configure(cfg) => SetConfig(s, cfg)
  }

  /** The state after a run. */
  ghost function After(s: Dm, ops: seq<Op>): (t: Dm)
    requires Shaped(s.abs)
    ensures Shaped(t.abs)
  {
    if |ops| == 0 then s
    else
      Step(After(s, ops[..|ops| - 1]), ops[|ops| - 1])
  }

  // ---- Read prediction ----

  /** The word whose bit `k` is `f(k)`, for `k < n`. */
  ghost function BitsWord(f: nat -> bool, n: nat): nat
  {
    if n == 0 then 0 else if f(n - 1) then Or(BitsWord(f, n - 1), Shl(1, n - 1)) else BitsWord(f, n - 1)
  }

  lemma {:induction false} BitsWordBit(f: nat -> bool, n: nat, k: nat)
    ensures Bit(BitsWord(f, n), k) <==> k < n && f(k)
  {
    if n == 0 {
      BitZero(k);
    } else {
      BitsWordBit(f, n - 1, k);
      BitOr(BitsWord(f, n - 1), Shl(1, n - 1), k);
      BitShl(1, n - 1, k);
      if k >= n - 1 {
        BitFlag(true, k - (n - 1));
      }
    }
  }

  /** Some halted hart of the block selected at this level of the haltsum tree falls in slot `j`. */
  ghost predicate SlotHalted(numHarts: nat, r: Run, level: nat, j: nat)
  {
    exists h: nat :: h < |r.harts| && InSlot(numHarts, r, level, j, h)
  }

  predicate InSlot(numHarts: nat, r: Run, level: nat, j: nat, h: nat)
    requires h < |r.harts|
  {
    h < numHarts && r.harts[h].halted
    && (level < 3 ==> Shr(h, 5 * level + 5) == Shr(r.hartsel, 5 * level + 5))
    && Low(Shr(h, 5 * level), 5) == j
  }

  ghost function Haltsum(s: Dm, level: nat): nat
  {
    if s.cfg.haltsumGroupsPresent then BitsWord((j: nat) => SlotHalted(s.params.numHarts, s.run, level, j), 32) else 0
  }

  ghost function Haltsum0(s: Dm): nat
  {
    BitsWord((k: nat) => k < s.params.numHarts && k < |s.run.harts| && s.run.harts[k].halted, 32)
  }

  function SelectedStatus(s: Dm): Status
  {
    var r := s.run;
    var exists_ := r.hartsel < |r.harts|;
    var h := if exists_ then r.harts[r.hartsel]
             else Hart(false, false, false, false, false, false, false, true, false, false);
    var none := r.hartsel >= s.params.numHarts;
    Status(s.run.ndmreset && s.params.version >= VERSION_1_0, s.params.stickyunavail, s.params.impebreak,
           h.havereset, h.havereset, h.resumeAck, h.resumeAck, none, none, h.Unavail(), h.Unavail(),
           h.running, h.running, h.halted, h.halted, s.params.authenticated, false,
           s.params.hasresethaltreq, false, s.params.version)
  }

  function ExpectDmstatus(s: Dm): nat { EncodeStatus(SelectedStatus(s)) }

  function ExpectDmcontrol(s: Dm): nat
  {
    ReadbackWord(s.run.dmactive, s.run.ndmreset, s.run.hasel,
                 s.run.hartresetLevel && s.params.supportsHartreset, s.run.hartsel)
  }

  predicate WiderThan32(c: Config) { c.sbaEnable && (c.sbaccess64 || c.sbaccess128) }

  predicate HasModel(s: Dm, addr: nat)
    requires Shaped(s.abs)
  {
    var c := s.cfg;
    if addr == DMCONTROL_ADDR || addr == DMSTATUS_ADDR then true
    else if !s.cfgValid || !s.run.dmactive then false
    else if addr == DATA0 then s.abs.data0Valid
    else if IsData(addr) && addr - DATA0 < c.datacount then s.abs.known[addr - DATA0]
    else if addr == SBDATA0 then !c.sbaEnable || s.sba.data0Valid
    else if addr == SBDATA1 then !WiderThan32(c) || s.sba.data1Known
    else if addr == SBDATA2 || addr == SBDATA3 then !(c.sbaEnable && c.sbaccess128)
    else if addr == SBADDRESS2 then !(c.sbaEnable && c.sbasize > 64)
    else if addr == SBADDRESS3 then !(c.sbaEnable && c.sbasize > 96)
    else if addr == AUTHDATA_ADDR then !c.authenticationEnable
    else if addr == DMCS2_ADDR then !c.haltgroupsEnable
    else true
  }

  function HartinfoWord(c: Config): nat
  {
    OrAll([(Low(c.nscratch, 4), 20), (FromBool(c.dataaccess), 16), (Low(c.datasize, 4), 12), (Low(c.dataaddr, 12), 0)])
  }

  function AbstractcsWord(s: Dm): nat
  {
    OrAll([(Low(s.cfg.progbufsize, 5), 24), (FromBool(s.misc.relaxedpriv), 11), (Low(s.cfg.datacount, 4), 0)])
  }

  function AbstractautoWord(s: Dm): nat
  {
    if !s.cfg.abstractautoEnable then 0
    else Low(OrAll([(Low(Shr(s.abs.abstractauto, 16), s.cfg.progbufsize), 16),
                    (Low(Low(s.abs.abstractauto, 12), s.cfg.datacount), 0)]), 32)
  }

  function SbcsWord(s: Dm): nat
  {
    var c := s.cfg;
    if !c.sbaEnable then 0
    else OrAll([(Low(c.sbversion, 3), 29), (FromBool(s.sba.readonaddr), 20), (Low(s.sba.access, 3), 17),
                (FromBool(s.sba.autoincrement), 16), (FromBool(s.sba.readondata), 15), (Low(c.sbasize, 7), 5),
                (FromBool(c.sbaccess128), 4), (FromBool(c.sbaccess64), 3), (FromBool(c.sbaccess32), 2),
                (FromBool(c.sbaccess16), 1), (FromBool(c.sbaccess8), 0)])
  }

  /** predict, for the registers it only reads out of the state; 0 for every unimplemented one. */
  function PredictRegister(s: Dm, addr: nat): nat
    requires Shaped(s.abs)
  {
    var c := s.cfg;
    if IsData(addr) then
      if addr - DATA0 >= c.datacount then 0
      else if addr == DATA0 then s.abs.data0 else s.abs.data[addr - DATA0]
    else if IsProgbuf(addr) then
      if addr - PROGBUF0 < c.progbufsize && c.progbufReadable then s.abs.progbuf[addr - PROGBUF0] else 0
    else if addr == DMCONTROL_ADDR then ExpectDmcontrol(s)
    else if addr == DMSTATUS_ADDR then ExpectDmstatus(s)
    else if addr == HARTINFO_ADDR then HartinfoWord(c)
    else if addr == ABSTRACTCS_ADDR then AbstractcsWord(s)
    else if addr == ABSTRACTAUTO_ADDR then AbstractautoWord(s)
    else if addr == HAWINDOWSEL_ADDR then if c.hartarrayEnable then Low(s.misc.hawindowsel, 15) else 0
    else if addr == HAWINDOW_ADDR then
      if c.hartarrayEnable && s.misc.hawindowsel in s.misc.hawindow then s.misc.hawindow[s.misc.hawindowsel] else 0
    else if addr == NEXTDM_ADDR then c.nextdm % TWO32
    else if addr == SBCS_ADDR then SbcsWord(s)
    else if addr == SBADDRESS0 then if c.sbaEnable then s.sba.address0 else 0
    else if addr == SBADDRESS1 then if c.sbaEnable && c.sbasize > 32 then s.sba.address1 else 0
    else if addr == SBDATA0 then if c.sbaEnable then s.sba.data0 else 0
    else if addr == SBDATA1 then if WiderThan32(c) then s.sba.data1 else 0
    else 0
  }

  /** predict: the value a read should return. */
  ghost function Predict(s: Dm, addr: nat): nat
    requires Shaped(s.abs)
  {
    if addr == HALTSUM0_ADDR then Haltsum0(s)
    else if addr == HALTSUM1_ADDR then Haltsum(s, 1)
    else if addr == HALTSUM2_ADDR then Haltsum(s, 2)
    else if addr == HALTSUM3_ADDR then Haltsum(s, 3)
    else PredictRegister(s, addr)
  }
}
