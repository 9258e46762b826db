// src/pydebug/model/predictor.py in its own form: an object whose methods update
// its fields, here grouped by subsystem. Every method is proved against the
// value-level step of DebugModule.

module Predictor {
  import opened Bits
  import opened Registers
  import opened Words
  import opened DebugModule

  class DMPredictor {
    var params: Params
    var cfg: Config
    var cfgValid: bool
    var run: Run
    var abs: Abs
    var sba: Sba
    var misc: Misc
    var observedCmdbusy: bool

    /** The value the object stands for. */
    function State(): Dm
      reads this
    {
      Dm(params, cfg, cfgValid, run, abs, sba, misc, observedCmdbusy)
    }

    ghost predicate Valid()
      reads this
    {
      Shaped(abs)
    }

    // ---- Construction, configuration and reset ----

    constructor (p: Params)
      ensures Valid() && State() == Init(p)
    {
      params, cfg, cfgValid := p, DefaultConfig(), false;
      run := Run(false, false, 0, false, false, []);
      abs := Abs(map[], map[], 0, 0, false, 0, Zeros(12), AllKnown(12), Zeros(16), 0, 0);
      sba := Sba(map[], 0, 0, false, false, 0, 0, true, false, 0, false, false);
      misc, observedCmdbusy := Misc(0, map[], 0, false), false;
      new;
      ResetDm(true);
    }

    method SetConfig(c: Config)
      modifies this
      ensures Valid() && State() == DebugModule.SetConfig(old(State()), c)
    {
      cfg, cfgValid, params := c, true, c.params;
      ResetDm(true);
    }

    /** Spec reset values; the hart and memory shadows are not DM state and survive. */
    method ResetDeclaredRegs()
      modifies `abs, `sba, `misc
      ensures abs == Abs(old(abs).shadowRegs, old(abs).shadowHi, 0, 0, true, 0, Zeros(12), AllKnown(12), Zeros(16), 0, 0)
      ensures sba == Sba(old(sba).mem, 0, 0, old(sba).armed, true, 0, 0, true, false, cfg.sbaccessReset, false, false)
      ensures misc == Misc(0, map[], 0, cfg.relaxedprivReset)
    {
      abs := abs.(abstractauto := 0);
      misc := misc.(hawindowsel := 0, authdata := 0);
      sba := sba.(readonaddr := false, access := cfg.sbaccessReset, autoincrement := false, readondata := false);
      misc := misc.(relaxedpriv := cfg.relaxedprivReset);
      abs := abs.(staged0 := 0, staged1 := 0, data0Valid := true, data0 := 0, data := Zeros(12), known := AllKnown(12));
      abs := abs.(progbuf := Zeros(16), lastCommand := 0);
      sba := sba.(address0 := 0, address1 := 0, data0Valid := true, data0 := 0, data1 := 0, data1Known := true);
      misc := misc.(hawindow := map[]);
    }

    method ResetDm(powerOn: bool)
      modifies `run, `abs, `sba, `misc
      ensures Valid() && State() == DebugModule.ResetDm(old(State()), powerOn)
    {
      var prev := run.harts;
      ResetDeclaredRegs();
      var harts := [];
      var count := if params.numHarts >= 1 then params.numHarts else 1;
      for i := 0 to count
        invariant |harts| == i
        invariant forall k :: 0 <= k < i ==> harts[k] == ResetHart(params, powerOn, prev, k)
      {
        var h := Hart(false, params.resumeackReset, false, false, false, true, false, true, false, false);
        if powerOn {
          h := h.(halted := false, running := true, havereset := params.haveresetPoweron);
        } else {
          h := h.(halted := if i < |prev| then prev[i].halted else false,
                  running := if i < |prev| then prev[i].running else true,
                  havereset := if i < |prev| then prev[i].havereset else false);
        }
        harts := harts + [h];
      }
      run := Run(false, false, 0, false, false, harts);
      assert harts == ResetHarts(params, powerOn, prev);
    }

    method SetObservedCmdbusy(busy: bool)
      requires Valid()
      modifies `observedCmdbusy
      ensures Valid() && State() == Step(old(State()), SetBusy(busy))
    {
      observedCmdbusy := busy;
    }

    // ---- dmcontrol ----

    method UpdateHart(i: nat, h: Hart)
      requires i < |run.harts|
      modifies `run
      ensures run == old(run).(harts := old(run).harts[i := h])
    {
      run := run.(harts := run.harts[i := h]);
    }

    method ReleaseFromReset(i: nat)
      requires i < |run.harts|
      modifies `run
      ensures run == old(run).(harts := old(run).harts[i := Release(old(run).harts[i])])
    {
      var h := run.harts[i];
      if h.nonexistent {
        assert run.harts == run.harts[i := h];
        return;
      }
      h := h.(havereset := true);
      if h.resetHaltreq || h.haltRequest {
        h := h.(halted := true, running := false);
      } else {
        h := h.(halted := false, running := true);
      }
      UpdateHart(i, h);
    }

    method NameNonexistent()
      modifies `run
      ensures run == old(run).(harts := run.harts) && |run.harts| == |old(run).harts|
      ensures forall k :: 0 <= k < |run.harts| ==>
        run.harts[k] == old(run).harts[k].(nonexistent := k >= params.numHarts)
    {
      for i := 0 to |run.harts|
        invariant run == old(run).(harts := run.harts) && |run.harts| == |old(run).harts|
        invariant forall k :: 0 <= k < |run.harts| ==>
          run.harts[k] == if k < i then old(run).harts[k].(nonexistent := k >= params.numHarts) else old(run).harts[k]
      {
        UpdateHart(i, run.harts[i].(nonexistent := i >= params.numHarts));
      }
    }

    method ApplyNdmreset(asserted: bool)
      modifies `run
      ensures run == old(run).(ndmreset := asserted, harts := run.harts) && |run.harts| == |old(run).harts|
      ensures forall k :: 0 <= k < |run.harts| ==>
        run.harts[k] == NdmresetStage(params, old(run).ndmreset, asserted, old(run).harts[k])
    {
      if asserted && !run.ndmreset {
        run := run.(ndmreset := true);
        for i := 0 to |run.harts|
          invariant run == old(run).(ndmreset := true, harts := run.harts) && |run.harts| == |old(run).harts|
          invariant forall k :: 0 <= k < |run.harts| ==>
            run.harts[k] == if k < i then NdmresetStage(params, false, true, old(run).harts[k]) else old(run).harts[k]
        {
          var h := run.harts[i];
          UpdateHart(i, h.(halted := false, running := !(h.unavailSticky || !h.available),
                           havereset := true, resumeAck := params.resumeackReset));
        }
      } else if !asserted && run.ndmreset {
        run := run.(ndmreset := false);
        for i := 0 to |run.harts|
          invariant run == old(run).(ndmreset := false, harts := run.harts) && |run.harts| == |old(run).harts|
          invariant forall k :: 0 <= k < |run.harts| ==>
            run.harts[k] == if k < i then Release(old(run).harts[k]) else old(run).harts[k]
        {
          ReleaseFromReset(i);
        }
      }
    }

    /** With hasel tied to 0 the selected harts are the one hartsel names, if it exists. */
    method ApplyHartreset(asserted: bool)
      modifies `run
      ensures run == old(run).(hartresetLevel := asserted, harts := run.harts) && |run.harts| == |old(run).harts|
      ensures forall k :: 0 <= k < |run.harts| ==>
        run.harts[k] == if k == run.hartsel
                        then HartresetStage(params, old(run).hartresetLevel, asserted, old(run).harts[k])
                        else old(run).harts[k]
    {
      if asserted && !run.hartresetLevel {
        run := run.(hartresetLevel := true);
        if run.hartsel < |run.harts| {
          UpdateHart(run.hartsel, run.harts[run.hartsel].(hartReset := true, halted := false, running := false,
                                                          resumeAck := params.resumeackReset));
        }
      } else if !asserted && run.hartresetLevel {
        run := run.(hartresetLevel := false);
        if run.hartsel < |run.harts| {
          UpdateHart(run.hartsel, run.harts[run.hartsel].(hartReset := false));
          ReleaseFromReset(run.hartsel);
        }
      }
    }

    /** setresethaltreq and clrresethaltreq as one hart sees them: clearing wins. */
    method AckedResethaltreq(c: Ctl, h: Hart) returns (h': Hart)
      ensures h' == h.(resetHaltreq := AckStage(params, c, h).resetHaltreq)
    {
      h' := h;
      if params.hasresethaltreq {
        if c.setresethaltreq && !c.clrresethaltreq {
          h' := h'.(resetHaltreq := true);
        }
        if c.clrresethaltreq {
          h' := h'.(resetHaltreq := false);
        }
      }
    }

    method AckedHavereset(c: Ctl, h: Hart) returns (h': Hart)
      ensures h' == h.(havereset := h.havereset && !c.ackhavereset)
    {
      h' := if c.ackhavereset then h.(havereset := false) else h;
    }

    /** Only a hart that is available now loses its sticky record. */
    method AckedUnavail(c: Ctl, h: Hart) returns (h': Hart)
      ensures h' == h.(unavailSticky := h.unavailSticky && !(c.ackunavail && h.available))
    {
      h' := if c.ackunavail && h.available then h.(unavailSticky := false) else h;
    }

    method Acked(c: Ctl, h: Hart) returns (h': Hart)
      ensures h' == AckStage(params, c, h)
    {
      h' := AckedResethaltreq(c, h);
      h' := AckedHavereset(c, h');
      h' := AckedUnavail(c, h');
    }

    /** Halt-on-reset requests and acknowledgments of the selected hart. */
    method ApplyAcks(c: Ctl)
      modifies `run
      ensures run == old(run).(harts := run.harts) && |run.harts| == |old(run).harts|
      ensures forall k :: 0 <= k < |run.harts| ==>
        run.harts[k] == if k == run.hartsel then AckStage(params, c, old(run).harts[k]) else old(run).harts[k]
    {
      hide AckStage;
      if run.hartsel < |run.harts| {
        var h := Acked(c, run.harts[run.hartsel]);
        UpdateHart(run.hartsel, h);
      }
    }

    /** The persistent halt request of the selected hart, and its response. */
    method ApplyHaltreq(c: Ctl)
      modifies `run
      ensures run == old(run).(harts := run.harts) && |run.harts| == |old(run).harts|
      ensures forall k :: 0 <= k < |run.harts| ==>
        run.harts[k] == if k == run.hartsel then HaltStage(c, old(run).harts[k]) else old(run).harts[k]
    {
      if run.hartsel < |run.harts| {
        var h := run.harts[run.hartsel].(haltRequest := c.haltreq);
        if c.haltreq && !(h.nonexistent || h.Unavail()) && h.running && !h.halted {
          h := h.(halted := true, running := false);
        }
        UpdateHart(run.hartsel, h);
      }
    }

    /** resumereq, with the single-step prediction from the last dcsr written. */
    method ApplyResumereq(ghost c: Ctl)
      requires c.resumereq && !c.haltreq
      modifies `run, `abs
      ensures run == old(run).(harts := run.harts) && |run.harts| == |old(run).harts|
      ensures forall k :: 0 <= k < |run.harts| ==>
        run.harts[k] == if k == run.hartsel then ResumeStage(c, StepArmed(old(abs)), old(run).harts[k])
                        else old(run).harts[k]
      ensures abs == if run.hartsel < |run.harts| && ResumeActs(c, old(run).harts[run.hartsel])
                        && old(run).harts[run.hartsel].halted
                     then old(abs).(shadowRegs := map[], shadowHi := map[]) else old(abs)
    {
      hide StepArmed;
      if run.hartsel < |run.harts| {
        var h := run.harts[run.hartsel];
        if h.nonexistent || h.Unavail() {
          return;
        }
        h := h.(resumeAck := false);
        if h.halted {
          var stepArmed := ReadStep();
          h := h.(halted := stepArmed, running := !stepArmed, resumeAck := true);
          abs := abs.(shadowRegs := map[], shadowHi := map[]);
        }
        UpdateHart(run.hartsel, h);
      }
    }

    /** dcsr.step as last written, 0 if the shadow does not hold dcsr. */
    method ReadStep() returns (stepArmed: bool)
      ensures stepArmed == StepArmed(abs)
    {
      hide Extract;
      var dcsr := if DCSR_REGNO in abs.shadowRegs then abs.shadowRegs[DCSR_REGNO] else 0;
      stepArmed := Flag(dcsr, 2);
      ShadowedStep(abs);
    }

    lemma ShadowedStep(a: Abs)
      ensures StepArmed(a) == Flag(if DCSR_REGNO in a.shadowRegs then a.shadowRegs[DCSR_REGNO] else 0, 2)
    {
      FlagIsBit(0, 2);
      BitZero(2);
    }

    method SettleResetState()
      modifies `run
      ensures run == old(run).(harts := run.harts) && |run.harts| == |old(run).harts|
      ensures forall k :: 0 <= k < |run.harts| ==> run.harts[k] == SettleStage(run.ndmreset, old(run).harts[k])
    {
      for i := 0 to |run.harts|
        invariant run == old(run).(harts := run.harts) && |run.harts| == |old(run).harts|
        invariant forall k :: 0 <= k < |run.harts| ==>
          run.harts[k] == if k < i then SettleStage(run.ndmreset, old(run).harts[k]) else old(run).harts[k]
      {
        var h := run.harts[i];
        if run.ndmreset || (h.hartReset && !h.nonexistent) {
          UpdateHart(i, h.(halted := false, running := !(h.unavailSticky || !h.available)));
        }
      }
    }

    /** Selection first, then the two reset levels: both act on the new selection. */
    method ApplyLevels(c: Ctl)
      requires c.dmactive
      modifies `run
      ensures run == Run(true, c.ndmreset, c.hartsel, c.hasel && params.supportsHasel,
                         c.hartreset && params.supportsHartreset, run.harts)
      ensures |run.harts| == |old(run).harts|
      ensures forall k :: 0 <= k < |run.harts| ==> run.harts[k] == AfterEdges(params, old(run), c, k)
    {
      hide NdmresetStage, HartresetStage;
      run := run.(dmactive := true, hartsel := c.hartsel, hasel := if params.supportsHasel then c.hasel else false);
      NameNonexistent();
      ApplyNdmreset(c.ndmreset);
      ApplyHartreset(c.hartreset && params.supportsHartreset);
    }

    /** The levels, the acknowledgements and the halt request, in that order. */
    method ApplyRequests(c: Ctl)
      requires c.dmactive
      modifies `run
      ensures run == Run(true, c.ndmreset, c.hartsel, c.hasel && params.supportsHasel, c.hartreset && params.supportsHartreset,
                         run.harts)
      ensures |run.harts| == |old(run).harts|
      ensures forall k :: 0 <= k < |run.harts| ==> run.harts[k] == BeforeResume(params, old(run), c, k)
    {
      hide AckStage, HaltStage, AfterEdges;
      ApplyLevels(c);
      ApplyAcks(c);
      ApplyHaltreq(c);
    }

    /** An active dmcontrol write. */
    method ApplyControl(c: Ctl)
      requires c.dmactive
      modifies `run, `abs
      ensures run == ControlRun(params, old(run), c, StepArmed(old(abs)))
      ensures abs == if Resumes(params, old(run), c) then old(abs).(shadowRegs := map[], shadowHi := map[]) else old(abs)
    {
      hide BeforeResume, ResumeStage, SettleStage, StepArmed;
      ghost var r, p, step := run, params, StepArmed(abs);
      ApplyRequests(c);
      if c.resumereq && !c.haltreq {
        ApplyResumereq(c);
      } else {
        NothingResumes(c, step);
      }
      SettleResetState();
      assert forall k :: 0 <= k < |run.harts| ==> run.harts[k] == HartAfter(p, r, c, step, k);
      assert run.harts == ControlRun(p, r, c, step).harts;
    }

    method WriteDmcontrol(value: nat)
      requires Valid()
      modifies `run, `abs, `sba, `misc
      ensures Valid() && State() == DebugModule.WriteDmcontrol(old(State()), value)
    {
      hide DecodeCtl, DebugModule.ResetDm, ControlRun, Resumes;
      var c := DecodeCtl(value);
      // dmactive=0 resets the DM, and the other bits of the same write are dropped.
      if !c.dmactive {
        ResetDm(false);
      } else {
        ApplyControl(c);
      }
    }

    lemma NothingResumes(c: Ctl, step: bool)
      requires !c.resumereq || c.haltreq
      ensures forall h: Hart :: ResumeStage(c, step, h) == h
    {
    }

    // ---- Abstract commands ----

    method ExecuteCommand(value: nat)
      requires Valid()
      modifies `abs
      ensures Valid() && abs == DebugModule.ExecuteCommand(old(abs), value)
    {
      hide DecodeCommand;
      var cmd := DecodeCommand(value);
      var regno := cmd.regno;
      if cmd.cmdtype != 0 || cmd.aarsize > 3 {
        return;
      }
      if cmd.transfer {
        if cmd.aarsize == 3 {
          if cmd.write {
            abs := abs.(shadowHi := abs.shadowHi[regno := abs.staged1]);
          } else if regno == GPR_X0 {
            abs := abs.(data := abs.data[1 := 0], known := abs.known[1 := true]);
          } else if regno in abs.shadowHi && ReadsBackAsWritten(regno) {
            abs := abs.(data := abs.data[1 := abs.shadowHi[regno]], known := abs.known[1 := true]);
          } else {
            abs := abs.(known := abs.known[1 := false]);
          }
        } else if cmd.write {
          abs := abs.(shadowHi := abs.shadowHi - {regno});
        }
        if cmd.write {
          abs := abs.(shadowRegs := abs.shadowRegs[regno := abs.staged0]);
        } else if regno == GPR_X0 {
          abs := abs.(data0Valid := true, data0 := 0);
        } else if regno in abs.shadowRegs && ReadsBackAsWritten(regno) {
          abs := abs.(data0Valid := true, data0 := abs.shadowRegs[regno]);
        } else {
          abs := abs.(data0Valid := false);
        }
      }
      if cmd.postexec {
        abs := abs.(shadowRegs := map[], shadowHi := map[]);
      }
    }

    method WriteBuffer(addr: nat, value: nat)
      requires Valid() && (IsData(addr) || IsProgbuf(addr))
      modifies `abs
      ensures Valid() && State() == DebugModule.WriteBuffer(old(State()), addr, value)
    {
      hide DebugModule.ExecuteCommand;
      if IsData(addr) {
        var i := addr - DATA0;
        if i >= cfg.datacount {
          return;
        }
        if i == 0 {
          abs := abs.(staged0 := value, data0Valid := true, data0 := value);
        } else {
          abs := abs.(data := abs.data[i := value], known := abs.known[i := true]);
          if i == 1 {
            abs := abs.(staged1 := value);
          }
        }
      } else {
        var i := addr - PROGBUF0;
        if i >= cfg.progbufsize {
          return;
        }
        abs := abs.(progbuf := abs.progbuf[i := value]);
      }
      RunAutoexec(addr);
    }

    /** An access to an armed word re-runs the last command, unless one is in flight. */
    method RunAutoexec(addr: nat)
      requires Valid() && (IsData(addr) || IsProgbuf(addr))
      modifies `abs
      ensures Valid() && State() == Autoexec(old(State()), addr)
    {
      if cfg.abstractautoEnable && !observedCmdbusy {
        if Bit(abs.abstractauto, if IsData(addr) then addr - DATA0 else 16 + addr - PROGBUF0) {
          ExecuteCommand(abs.lastCommand);
        }
      }
    }

    // ---- System Bus Access ----

    method SbaAutoincrement()
      modifies `sba
      ensures sba == SbaIncrement(old(sba), cfg.sbasize)
    {
      if sba.autoincrement {
        var a := sba.address1 * TWO32 + sba.address0 + Pow2(sba.access);
        sba := sba.(address0 := a % TWO32);
        if cfg.sbasize > 32 {
          sba := sba.(address1 := (a / TWO32) % TWO32);
        }
      }
    }

    method SbaArmRead(address: nat)
      modifies `sba
      ensures sba == SbaArm(old(sba), address)
    {
      sba := sba.(data1Known := false);
      if address in sba.mem {
        sba := sba.(data0Valid := true, data0 := sba.mem[address]);
      } else {
        sba := sba.(data0Valid := false);
      }
    }

    method WriteSbcs(value: nat)
      modifies `sba
      ensures sba == DebugModule.WriteSbcs(old(sba), cfg, value)
    {
      sba := sba.(armed := Flag(value, 20), readonaddr := Flag(value, 20));
      if cfg.sbaccessWritable {
        sba := sba.(access := Extract(value, 17, 3));
      }
      sba := sba.(autoincrement := Flag(value, 16), readondata := Flag(value, 15));
    }

    method WriteSbaddress0(value: nat)
      modifies `sba
      ensures sba == DebugModule.WriteSbaddress0(old(sba), cfg.sbasize, value)
    {
      sba := sba.(address0 := value);
      if sba.armed {
        SbaArmRead(value);
        SbaAutoincrement();
      }
    }

    method WriteSbdata0(value: nat)
      modifies `sba
      ensures sba == DebugModule.WriteSbdata0(old(sba), cfg.sbasize, value)
    {
      sba := sba.(mem := sba.mem[sba.address0 := value]);
      SbaAutoincrement();
    }

    method SbdataReadEffects()
      modifies `sba
      ensures sba == ReadSbdata0(old(sba), cfg.sbasize)
    {
      if sba.readondata {
        SbaArmRead(sba.address0);
        SbaAutoincrement();
      }
    }

    // ---- One operation ----

    /** Harts of window `sel` that exist, gathered one bit at a time. */
    method HawindowMask(sel: nat) returns (m: nat)
      ensures m == HawindowImplemented(params.numHarts, sel)
    {
      ghost var n := params.numHarts;
      m := 0;
      var h := 32 * sel;
      var end := if params.numHarts < 32 * (sel + 1) then params.numHarts else 32 * (sel + 1);
      forall k: nat ensures !Bit(0, k) {
        BitZero(k);
      }
      while h < end
        invariant 32 * sel <= h && (h <= end || h == 32 * sel)
        invariant forall k: nat :: Bit(m, k) <==> 32 * sel + k < h
      {
        ghost var before := m;
        m := Or(m, Shl(1, h - 32 * sel));
        forall k: nat ensures Bit(m, k) <==> 32 * sel + k < h + 1 {
          SetBit(before, h - 32 * sel, k);
        }
        h := h + 1;
      }
      forall k: nat ensures Bit(m, k) <==> Bit(HawindowImplemented(n, sel), k) {
        BitsWordBit((k: nat) => 32 * sel + k < n, 32, k);
      }
      SameBits(m, HawindowImplemented(n, sel));
    }

    lemma SetBit(w: nat, at: nat, k: nat)
      ensures Bit(Or(w, Shl(1, at)), k) <==> Bit(w, k) || k == at
    {
      BitOr(w, Shl(1, at), k);
      BitShl(1, at, k);
      if k >= at {
        BitFlag(true, k - at);
      }
    }

    method BitwiseAnd(a: nat, b: nat) returns (r: nat)
      ensures r == And(a, b)
    {
      if a == 0 || b == 0 {
        return 0;
      }
      var rest := BitwiseAnd(a / 2, b / 2);
      r := 2 * rest + (if a % 2 == 1 && b % 2 == 1 then 1 else 0);
    }

    method OnWrite(addr: nat, word: nat)
      requires Valid()
      modifies this
      ensures Valid() && State() == DebugModule.OnWrite(old(State()), addr, word)
    {
      hide DebugModule.WriteDmcontrol, DebugModule.WriteBuffer, DebugModule.ExecuteCommand, DebugModule.WriteSbcs,
           DebugModule.WriteSbaddress0, DebugModule.WriteSbdata0, HawindowImplemented, And, Flag;
      var value := word % TWO32;
      if observedCmdbusy && GuardedWhileBusy(addr) {
        return;
      }
      if IsData(addr) || IsProgbuf(addr) {
        WriteBuffer(addr, value);
      } else if addr == DMCONTROL_ADDR {
        WriteDmcontrol(value);
      } else if addr == SBADDRESS1 {
        sba := sba.(address1 := value);
      } else if addr == SBDATA1 {
        sba := sba.(data1 := value, data1Known := true);
      } else if addr == HAWINDOW_ADDR {
        if cfg.hartarrayEnable {
          var mask := HawindowMask(misc.hawindowsel);
          var kept := BitwiseAnd(value, mask);
          misc := misc.(hawindow := misc.hawindow[misc.hawindowsel := kept]);
        }
      } else if addr == COMMAND_ADDR {
        abs := abs.(lastCommand := value);
        ExecuteCommand(value);
      } else if addr == SBCS_ADDR {
        WriteSbcs(value);
      } else if addr == SBADDRESS0 {
        WriteSbaddress0(value);
      } else if addr == SBDATA0 {
        WriteSbdata0(value);
      } else if addr == ABSTRACTAUTO_ADDR {
        abs := abs.(abstractauto := value);
      } else if addr == HAWINDOWSEL_ADDR {
        misc := misc.(hawindowsel := Low(value, 15));
      } else if addr == ABSTRACTCS_ADDR {
        if params.version >= VERSION_1_0 {
          misc := misc.(relaxedpriv := Flag(value, 11));
        }
      }
    }

    method ObserveRead(addr: nat)
      requires Valid()
      modifies `abs, `sba
      ensures Valid() && State() == OnRead(old(State()), addr)
    {
      hide Autoexec, ReadSbdata0;
      if addr == SBDATA0 {
        SbdataReadEffects();
      }
      if (IsData(addr) && addr - DATA0 < cfg.datacount) || (IsProgbuf(addr) && addr - PROGBUF0 < cfg.progbufsize) {
        RunAutoexec(addr);
      }
    }

    // ---- Read prediction ----

    /** haltsum1-3: one pass over the harts, setting the bit of each halted one in the selected block. */
    method ExpectHaltsum(level: nat) returns (word: nat)
      ensures word == Haltsum(State(), level)
    {
      if !cfg.haltsumGroupsPresent {
        return 0;
      }
      word := 0;
      ghost var r, n := run, params.numHarts;
      var h := 0;
      forall k: nat ensures !Bit(0, k) {
        BitZero(k);
      }
      while h < |run.harts| && h < params.numHarts
        invariant h <= |run.harts|
        invariant forall k: nat :: Bit(word, k) <==> SlotHaltedBelow(n, r, level, k, h)
      {
        ghost var before := word;
        if run.harts[h].halted && !(level < 3 && Shr(h, 5 * level + 5) != Shr(run.hartsel, 5 * level + 5)) {
          word := Or(word, Shl(1, Low(Shr(h, 5 * level), 5)));
        }
        forall k: nat ensures Bit(word, k) <==> SlotHaltedBelow(n, r, level, k, h + 1) {
          SlotStep(n, r, level, k, h);
          SetBit(before, Low(Shr(h, 5 * level), 5), k);
        }
        h := h + 1;
      }
      forall k: nat ensures Bit(word, k) <==> Bit(Haltsum(State(), level), k) {
        BitsWordBit((j: nat) => SlotHalted(n, r, level, j), 32, k);
        SlotAll(n, r, level, k, h);
      }
      SameBits(word, Haltsum(State(), level));
    }

    ghost predicate SlotHaltedBelow(numHarts: nat, r: Run, level: nat, j: nat, n: nat)
      requires n <= |r.harts|
    {
      exists h: nat :: h < n && InSlot(numHarts, r, level, j, h)
    }

    lemma SlotStep(numHarts: nat, r: Run, level: nat, j: nat, n: nat)
      requires n < |r.harts|
      ensures SlotHaltedBelow(numHarts, r, level, j, n + 1) <==>
              SlotHaltedBelow(numHarts, r, level, j, n) || InSlot(numHarts, r, level, j, n)
    {
    }

    lemma SlotAll(numHarts: nat, r: Run, level: nat, j: nat, n: nat)
      requires n <= |r.harts| && (n == |r.harts| || n >= numHarts)
      ensures SlotHaltedBelow(numHarts, r, level, j, n) <==> SlotHalted(numHarts, r, level, j)
      ensures SlotHalted(numHarts, r, level, j) ==> j < 32
    {
      if SlotHalted(numHarts, r, level, j) {
        var h: nat :| h < |r.harts| && InSlot(numHarts, r, level, j, h);
        LowBound(Shr(h, 5 * level), 5);
        assert Pow2(5) == 32;
        assert h < n;
      }
    }

    method ExpectHaltsum0() returns (word: nat)
      ensures word == Haltsum0(State())
    {
      word := 0;
      ghost var harts, n := run.harts, params.numHarts;
      var i := 0;
      forall k: nat ensures !Bit(0, k) {
        BitZero(k);
      }
      while i < params.numHarts && i < 32 && i < |run.harts|
        invariant i <= 32 && i <= |harts|
        invariant forall k: nat :: Bit(word, k) <==> k < i && k < n && harts[k].halted
      {
        ghost var before := word;
        if run.harts[i].halted {
          word := Or(word, Shl(1, i));
        }
        forall k: nat ensures Bit(word, k) <==> k < i + 1 && k < n && harts[k].halted {
          SetBit(before, i, k);
        }
        i := i + 1;
      }
      forall k: nat ensures Bit(word, k) <==> Bit(Haltsum0(State()), k) {
        BitsWordBit((k: nat) => k < n && k < |harts| && harts[k].halted, 32, k);
      }
      SameBits(word, Haltsum0(State()));
    }

    /** predict: the value a read of `addr` should return. */
    method Predict(addr: nat) returns (value: nat)
      requires Valid()
      ensures value == DebugModule.Predict(State(), addr)
    {
      hide Haltsum, Haltsum0, PredictRegister;
      if addr == HALTSUM0_ADDR {
        value := ExpectHaltsum0();
      } else if addr == HALTSUM1_ADDR {
        value := ExpectHaltsum(1);
      } else if addr == HALTSUM2_ADDR {
        value := ExpectHaltsum(2);
      } else if addr == HALTSUM3_ADDR {
        value := ExpectHaltsum(3);
      } else if IsData(addr) || IsProgbuf(addr) {
        value := PredictBuffer(addr);
      } else if addr == SBCS_ADDR || SBADDRESS0 <= addr <= SBADDRESS1 || SBDATA0 <= addr <= SBDATA1 {
        value := PredictBus(addr);
      } else {
        value := PredictControl(addr);
      }
    }

    /** With one hart selected at most, all and any of a pair agree; no hart gives 0 in both. */
    method SelectedStatus() returns (st: Status)
      ensures st == DebugModule.SelectedStatus(State())
    {
      var p := params;
      var halted, running, havereset, resumeack, unavail := false, false, false, false, false;
      if run.hartsel < |run.harts| {
        var h := run.harts[run.hartsel];
        halted, running, havereset, resumeack := h.halted, h.running, h.havereset, h.resumeAck;
        unavail := h.unavailSticky || !h.available;
      }
      var nonexistent := run.hartsel >= p.numHarts;
      var pending := if p.version >= VERSION_1_0 then run.ndmreset else false;
      st := Status(pending, p.stickyunavail, p.impebreak, havereset, havereset, resumeack, resumeack,
                   nonexistent, nonexistent, unavail, unavail, running, running, halted, halted,
                   p.authenticated, false, p.hasresethaltreq, false, p.version);
    }

    method ExpectDmstatus() returns (word: nat)
      ensures word == DebugModule.ExpectDmstatus(State())
    {
      hide Encoded, StatusValues, Known, DebugModule.SelectedStatus, DMSTATUS;
      var st := SelectedStatus();
      StatusAligned(st);
      var encoded := Encode(DMSTATUS, StatusValues(st));
      word := encoded.value;
    }

    /** dmcontrol: the fields that read back, encoded, and hartsel merged in. */
    method ExpectDmcontrol() returns (word: nat)
      ensures word == DebugModule.ExpectDmcontrol(State())
    {
      hide Encoded, ReadbackValues, Known, WithHartsel;
      var hartreset := run.hartresetLevel && params.supportsHartreset;
      ReadbackKnown(run.dmactive, run.ndmreset, run.hasel, hartreset);
      var encoded := Encode(DMCONTROL, ReadbackValues(run.dmactive, run.ndmreset, run.hasel, hartreset));
      word := WithHartsel(encoded.value, run.hartsel);
    }

    method PredictBuffer(addr: nat) returns (value: nat)
      requires Valid() && (IsData(addr) || IsProgbuf(addr))
      ensures value == PredictRegister(State(), addr)
    {
      if IsData(addr) {
        var i := addr - DATA0;
        if i >= cfg.datacount {
          return 0;
        }
        value := if i == 0 then abs.data0 else abs.data[i];
      } else {
        var i := addr - PROGBUF0;
        value := if i < cfg.progbufsize && cfg.progbufReadable then abs.progbuf[i] else 0;
      }
    }

    method PredictBus(addr: nat) returns (value: nat)
      requires Valid()
      requires addr == SBCS_ADDR || SBADDRESS0 <= addr <= SBADDRESS1 || SBDATA0 <= addr <= SBDATA1
      ensures value == PredictRegister(State(), addr)
    {
      hide OrAll, DebugModule.ExpectDmcontrol, DebugModule.ExpectDmstatus, Low;
      if addr == SBCS_ADDR {
        value := SbcsWord(State());
      } else if addr == SBADDRESS0 {
        value := if cfg.sbaEnable then sba.address0 else 0;
      } else if addr == SBADDRESS1 {
        value := if cfg.sbaEnable && cfg.sbasize > 32 then sba.address1 else 0;
      } else if addr == SBDATA0 {
        value := if cfg.sbaEnable then sba.data0 else 0;
      } else {
        value := if cfg.sbaEnable && (cfg.sbaccess64 || cfg.sbaccess128) then sba.data1 else 0;
      }
    }

    method PredictControl(addr: nat) returns (value: nat)
      requires Valid() && !IsData(addr) && !IsProgbuf(addr)
      requires addr != SBCS_ADDR && !(SBADDRESS0 <= addr <= SBADDRESS1) && !(SBDATA0 <= addr <= SBDATA1)
      ensures value == PredictRegister(State(), addr)
    {
      hide OrAll, DebugModule.ExpectDmcontrol, DebugModule.ExpectDmstatus;
      if addr == DMCONTROL_ADDR {
        value := ExpectDmcontrol();
      } else if addr == DMSTATUS_ADDR {
        value := ExpectDmstatus();
      } else if addr == HARTINFO_ADDR {
        value := HartinfoWord(cfg);
      } else if addr == ABSTRACTCS_ADDR {
        value := AbstractcsWord(State());
      } else if addr == ABSTRACTAUTO_ADDR {
        value := AbstractautoWord(State());
      } else if addr == HAWINDOWSEL_ADDR {
        value := if cfg.hartarrayEnable then Low(misc.hawindowsel, 15) else 0;
      } else if addr == HAWINDOW_ADDR {
        value := 0;
        if cfg.hartarrayEnable && misc.hawindowsel in misc.hawindow {
          value := misc.hawindow[misc.hawindowsel];
        }
      } else if addr == NEXTDM_ADDR {
        value := cfg.nextdm % TWO32;
      } else {
        value := 0;
      }
    }
  }
}
