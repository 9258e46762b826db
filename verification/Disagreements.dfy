// How the rule checker comes to report the model's own behaviour: from every state,
// a way into each of the two families in which a lone resume makes them differ.

module Disagreements {
  import opened Bits
  import opened Registers
  import opened Words
  import opened DebugModule
  import opened RunControl
  import opened Rules
  import opened Agreement
  import opened Driver

  /** What the checker is shown of a write. */
  function Shown(op: Op): Seen
    requires op.Write?
  {
    Seen(true, op.addr, Some(op.value), None)
  }

  const RESUME := IDLE.(resumereq := true)

  /** The operation is reported although it is the model's own. */
  ghost predicate FalselyReported(s: Dm, op: Op)
    requires op.Write? && Shaped(s.abs)
  {
    exists v: Violation ::
      !v.IsStimulus() && Reported(Some(Snap(s)), Shown(op), OnWrite(s, op.addr, op.value), v)
  }

  lemma ResumeRequest()
    ensures Request(Shown(ControlWrite(RESUME))) == Some(RESUME) && LoneResume(RESUME)
  {
    hide DriverDmcontrol, DecodeCtl;
    ControlWriteDecodes(RESUME);
  }

  /** A lone resume of hart 0 that is not found as it was, or that is halted with a step armed, is reported. */
  lemma ResumeReported(s: Dm)
    requires Ok(s) && s.params.numHarts >= 1
    requires var h := s.run.harts[0]; (h.halted && StepArmed(s.abs)) || FindsHalted(s.run, h) != h.halted
    ensures FalselyReported(s, ControlWrite(RESUME))
  {
    hide Request, ControlWrite, StepArmed, FindsHalted, Reported, DecodeCtl;
    var op := ControlWrite(RESUME);
    ResumeRequest();
    IsWrite(RESUME);
    var t := OnWrite(s, op.addr, op.value);
    ControlWriteRun(s, RESUME);
    AgreesFrom(s, Shown(op), t);
    assert Disagrees(s, Shown(op), t);
  }

  lemma IsWrite(c: Ctl)
    ensures ControlWrite(c).Write? && ControlWrite(c).addr == DMCONTROL_ADDR
  {
  }

  /** The reset family: from every state, ndmreset and haltreq in one write, then a lone resume, which
      releases the reset into the pending halt and resumes in the same write. */
  lemma ReleaseDisagrees(s: Dm)
    requires Ok(s) && s.params.numHarts >= 1
    ensures FalselyReported(Step(s, ControlWrite(IDLE.(ndmreset := true, haltreq := true))), ControlWrite(RESUME))
  {
    hide ControlWrite, StepArmed, HartAfter, Step, FalselyReported;
    var c := IDLE.(ndmreset := true, haltreq := true);
    ControlWriteHart(s, c, 0);
    HaltPendsInReset(s.params, s.run, c, StepArmed(s.abs));
    ResumeReported(Step(s, ControlWrite(c)));
  }

  lemma HaltPendsInReset(p: Params, r: Run, c: Ctl, step: bool)
    requires RunOk(p, r) && p.numHarts >= 1 && c == IDLE.(ndmreset := true, haltreq := true)
    ensures var h := HartAfter(p, r, c, step, 0); h.haltRequest && !h.halted
  {
    assert HartOk(p, r, 0);
  }

  /** A halt of hart 0 and a write of dcsr with step set. */
  ghost function HaltAndArm(s: Dm): Dm
    requires Shaped(s.abs)
  {
    Step(Step(Step(s, Halting(0)), Op.Write(DATA0, 4)), CommandOp(2, true, DCSR_REGNO))
  }

  /** The step family: from every idle state with a data register, halt, set dcsr.step, and resume. */
  lemma StepDisagrees(s: Dm)
    requires Ok(s) && s.params.numHarts >= 1 && !StillHeld(s.run, s.run.harts[0])
    requires !s.busy && s.cfg.datacount >= 1
    ensures FalselyReported(HaltAndArm(s), ControlWrite(RESUME))
  {
    hide StepArmed, Step, FalselyReported, Halting, CommandOp, StillHeld;
    HaltTakesEffect(s, 0);
    HaltingKeepsConfig(s, 0);
    DcsrWritten(Step(s, Halting(0)), 4);
    StepBit(0);
    ResumeReported(HaltAndArm(s));
  }

  lemma HaltingKeepsConfig(s: Dm, i: nat)
    requires Shaped(s.abs) && i < 0x10_0000
    ensures var t := Step(s, Halting(i)); t.cfg == s.cfg && t.busy == s.busy
  {
    hide DecodeCtl, DriverDmcontrol, ControlRun, Resumes;
    DmcontrolStep(s, DriverDmcontrol(IDLE.(haltreq := true, hartsel := i)));
  }
}
