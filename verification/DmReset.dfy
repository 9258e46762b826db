// What survives a reset of the Debug Module (src/pydebug/model/predictor.py,
// section 3.14.2, dmactive).

module DmReset {
  import opened Bits
  import opened Words
  import opened DebugModule
  import opened RunControl

  predicate SameHart(a: Hart, b: Hart) { a.halted == b.halted && a.running == b.running && a.havereset == b.havereset }

  /** All a reset of the module leaves behind: three facts per hart, the register and memory shadows,
      the armed read-on-address and the observed busy bit. */
  ghost predicate SurvivorsAgree(s: Dm, t: Dm)
  {
    && |s.run.harts| == |t.run.harts| && (forall i :: 0 <= i < |s.run.harts| ==> SameHart(s.run.harts[i], t.run.harts[i]))
    && s.abs.shadowRegs == t.abs.shadowRegs && s.abs.shadowHi == t.abs.shadowHi
    && s.sba.mem == t.sba.mem && s.sba.armed == t.sba.armed && s.busy == t.busy
  }

  predicate OneConfiguration(s: Dm, t: Dm)
  {
    s.params == t.params && s.cfg == t.cfg && s.cfgValid == t.cfgValid
  }

  lemma HartsAgree(p: Params, a: seq<Hart>, b: seq<Hart>)
    requires |a| == |b| == |ResetHarts(p, false, a)|
    ensures ResetHarts(p, false, a) == ResetHarts(p, false, b) <==>
            forall i :: 0 <= i < |a| ==> SameHart(a[i], b[i])
  {
    var x, y := ResetHarts(p, false, a), ResetHarts(p, false, b);
    forall i | 0 <= i < |a| ensures x[i] == y[i] <==> SameHart(a[i], b[i]) {
      assert x[i] == ResetHart(p, false, a, i) && y[i] == ResetHart(p, false, b, i);
    }
    if forall i :: 0 <= i < |a| ==> SameHart(a[i], b[i]) {
      assert x == y;
    }
  }

  /** A write of dmactive=0 makes two modules of one configuration equal exactly if the survivors agree. */
  lemma ResetIsCanonical(s: Dm, t: Dm, v: nat, w: nat)
    requires Ok(s) && Ok(t) && OneConfiguration(s, t)
    requires !DecodeCtl(v).dmactive && !DecodeCtl(w).dmactive
    ensures Step(s, Op.Write(DMCONTROL_ADDR, v)) == Step(t, Op.Write(DMCONTROL_ADDR, w)) <==> SurvivorsAgree(s, t)
  {
    hide DecodeCtl, ResetHarts;
    CtlMod32(v);
    CtlMod32(w);
    DmcontrolStep(s, v);
    DmcontrolStep(t, w);
    HartsCount(s.params, s.run.harts);
    HartsAgree(s.params, s.run.harts, t.run.harts);
  }

  lemma HartsCount(p: Params, a: seq<Hart>)
    ensures |ResetHarts(p, false, a)| == if p.numHarts >= 1 then p.numHarts else 1
  {
  }

  /** So whatever two runs did before (every state a run reaches is Ok, RunControl.ReachableOk), after a
      reset they agree on every later claim and prediction under the same inputs, provided the survivors agree. */
  lemma LaterPredictionsAgree(s0: Dm, t0: Dm, v: nat, w: nat, later: seq<Op>, addr: nat)
    requires Ok(s0) && Ok(t0) && OneConfiguration(s0, t0) && SurvivorsAgree(s0, t0)
    requires !DecodeCtl(v).dmactive && !DecodeCtl(w).dmactive
    ensures var s := Step(s0, Op.Write(DMCONTROL_ADDR, v));
            var t := Step(t0, Op.Write(DMCONTROL_ADDR, w));
            && Shaped(s.abs) && Shaped(t.abs)
            && HasModel(After(s, later), addr) == HasModel(After(t, later), addr)
            && Predict(After(s, later), addr) == Predict(After(t, later), addr)
  {
    hide DecodeCtl, Step, After, HasModel, Predict, SurvivorsAgree;
    ResetIsCanonical(s0, t0, v, w);
  }

  // ---- Two survivors that show ----

  /** The armed read-on-address outlives the reset although sbcs.sbreadonaddr then reads 0: writing an
      address that holds a word makes sbdata0 claim that word only if it was armed before. */
  lemma ArmedSurvives(s: Dm, v: nat, on: nat, a: nat)
    requires Ok(s) && s.cfgValid && s.cfg.sbaEnable && a < TWO32 && a in s.sba.mem
    requires !DecodeCtl(v).dmactive && DecodeCtl(on).dmactive
    ensures var t := Step(Step(s, Op.Write(DMCONTROL_ADDR, v)), Op.Write(DMCONTROL_ADDR, on));
            && Shaped(t.abs) && !t.sba.readonaddr
            && Predict(Step(t, Op.Write(SBADDRESS0, a)), SBDATA0) == if s.sba.armed then s.sba.mem[a] else 0
  {
    hide DecodeCtl, ControlRun, Resumes;
    CtlMod32(v);
    CtlMod32(on);
    DmcontrolStep(s, v);
    var r := Step(s, Op.Write(DMCONTROL_ADDR, v));
    DmcontrolStep(r, on);
    var t := Step(r, Op.Write(DMCONTROL_ADDR, on));
    ArmedAddress(t, a);
  }

  lemma ArmedAddress(t: Dm, a: nat)
    requires Shaped(t.abs) && t.cfg.sbaEnable && a < TWO32 && a in t.sba.mem && !t.sba.autoincrement && t.sba.data0 == 0
    ensures Predict(Step(t, Op.Write(SBADDRESS0, a)), SBDATA0) == if t.sba.armed then t.sba.mem[a] else 0
  {
  }
}
