// What dmstatus says over whole runs, in terms of the words written alone: which
// resets, acknowledgements and resumes of the past its havereset and resumeack bits
// report (src/pydebug/model/predictor.py, sections 3.2, 3.5 and 3.14.1).

module HartHistory {
  import opened Bits
  import opened Words
  import opened Registers
  import opened DebugModule
  import opened RunControl
  import opened HartLaws

  /** A module just powered on: every hart runs, and only the two declared bits may be set. */
  ghost predicate PoweredOn(s: Dm)
  {
    var p, r := s.params, s.run;
    && Ok(s) && !r.dmactive && !r.ndmreset && !r.hartresetLevel && r.hartsel == 0
    && forall i :: 0 <= i < |r.harts| ==>
         var h := r.harts[i];
         && !h.halted && h.running && h.havereset == p.haveresetPoweron && h.resumeAck == p.resumeackReset
         && !h.haltRequest && !h.resetHaltreq && !h.hartReset
  }

  /** The constructor and set_config both power the module on. */
  lemma PowersOn(p: Params, s: Dm, cfg: Config)
    requires Shaped(s.abs)
    ensures PoweredOn(Init(p)) && PoweredOn(SetConfig(s, cfg))
  {
    ReachableOk(p, []);
    ResetOk(s.(params := cfg.params, cfg := cfg, cfgValid := true), true);
  }

  predicate ControlOp(op: Op) { op.Write? && op.addr == DMCONTROL_ADDR }

  /** A dmcontrol write with dmactive set. */
  predicate Active(op: Op) { ControlOp(op) && Bit(op.value, 0) }

  /** Bit `k` of the last dmcontrol write, if that was active. */
  predicate Up(ops: seq<Op>, k: nat)
  {
    match LastControl(ops)
    case None => false
    case Some(w) => Bit(w, 0) && Bit(w, k)
  }

  /** Hart `i` is the one selected after the run. */
  ghost predicate Named(ops: seq<Op>, i: nat)
  {
    match LastControl(ops)
    case None => i == 0
    case Some(w) => if Bit(w, 0) then Selects(w, i) else i == 0
  }

  lemma OtherOps(s: Dm, op: Op)
    requires Shaped(s.abs) && !op.Configure? && !ControlOp(op)
    ensures Step(s, op).run == s.run && Step(s, op).params == s.params
  {
    RunUntouched(s, op);
  }

  lemma ControlOps(s: Dm, op: Op)
    requires Shaped(s.abs) && ControlOp(op)
    ensures Step(s, op) == OnWrite(s, DMCONTROL_ADDR, op.value) && Step(s, op).params == s.params
  {
    DmcontrolStep(s, op.value);
  }

  /** The levels and the selection are those of the last dmcontrol write. */
  lemma {:induction false} Levels(s0: Dm, ops: seq<Op>)
    requires PoweredOn(s0) && NoConfigure(ops)
    ensures var s := After(s0, ops);
            && Ok(s) && s.params == s0.params && |s.run.harts| == |s0.run.harts|
            && s.run.ndmreset == Up(ops, 1) && s.run.hartresetLevel == (s0.params.supportsHartreset && Up(ops, 29))
            && Named(ops, s.run.hartsel)
  {
    hide Bit, Selects, OnWrite;
    if |ops| > 0 {
      var init, op := ops[..|ops| - 1], ops[|ops| - 1];
      Levels(s0, init);
      StepOk(After(s0, init), op);
      if ControlOp(op) {
        ControlOps(After(s0, init), op);
        LevelsLaw(After(s0, init), op.value);
      } else {
        OtherOps(After(s0, init), op);
      }
    }
  }

  // ---- havereset ----

  /** After the run `prior`, the operation puts hart `i` under a reset or lets it out of one: ndmreset
      moves either way, or hartreset is dropped on it. */
  ghost predicate Resets(p: Params, prior: seq<Op>, op: Op, i: nat)
  {
    Active(op)
    && (Bit(op.value, 1) != Up(prior, 1)
        || (Selects(op.value, i) && p.supportsHartreset && !Bit(op.value, 29) && Up(prior, 29)))
  }

  /** The operation acknowledges havereset of hart `i`. */
  ghost predicate Acks(op: Op, i: nat) { Active(op) && Selects(op.value, i) && Bit(op.value, 28) }

  ghost predicate NoAckFrom(ops: seq<Op>, j: int, i: nat)
  {
    forall m :: j <= m < |ops| && 0 <= m ==> !Acks(ops[m], i)
  }

  /** Some reset of hart `i` was never acknowledged, or the one of power-on was not. */
  ghost predicate ResetUnacked(p: Params, ops: seq<Op>, i: nat)
  {
    (p.haveresetPoweron && NoAckFrom(ops, 0, i))
    || exists j :: 0 <= j < |ops| && Resets(p, ops[..j], ops[j], i) && NoAckFrom(ops, j, i)
  }

  lemma ResetUnackedStep(p: Params, init: seq<Op>, op: Op, i: nat)
    ensures ResetUnacked(p, init + [op], i) <==>
            (ResetUnacked(p, init, i) || Resets(p, init, op, i)) && !Acks(op, i)
  {
    hide Resets, Acks;
    var ops, n := init + [op], |init|;
    assert forall j :: 0 <= j <= n ==> ops[..j] == init[..j];
    assert init[..n] == init && ops[n] == op;
    assert forall j :: NoAckFrom(ops, j, i) ==> NoAckFrom(init, j, i);
    assert forall j :: NoAckFrom(init, j, i) && !Acks(op, i) ==> NoAckFrom(ops, j, i);
    if Resets(p, init, op, i) && !Acks(op, i) {
      assert Resets(p, ops[..n], ops[n], i) && NoAckFrom(ops, n, i);
    }
    if ResetUnacked(p, init, i) && !Acks(op, i) && !(p.haveresetPoweron && NoAckFrom(init, 0, i)) {
      var j :| 0 <= j < n && Resets(p, init[..j], init[j], i) && NoAckFrom(init, j, i);
      assert Resets(p, ops[..j], ops[j], i) && NoAckFrom(ops, j, i);
    }
    if exists j :: 0 <= j < |ops| && Resets(p, ops[..j], ops[j], i) && NoAckFrom(ops, j, i) {
      var j :| 0 <= j < |ops| && Resets(p, ops[..j], ops[j], i) && NoAckFrom(ops, j, i);
      assert !Acks(ops[n], i);
      assert j < n ==> Resets(p, init[..j], init[j], i) && NoAckFrom(init, j, i);
    }
  }

  /** Over every run a hart shows havereset exactly if a reset of it was never acknowledged since. */
  lemma {:induction false} HaveresetMeans(s0: Dm, ops: seq<Op>, i: nat)
    requires PoweredOn(s0) && NoConfigure(ops) && i < s0.params.numHarts
    ensures var s := After(s0, ops);
            i < |s.run.harts| && (s.run.harts[i].havereset <==> ResetUnacked(s0.params, ops, i))
  {
    hide Bit, Selects, OnWrite, Resets, ResetUnacked;
    Levels(s0, ops);
    if |ops| == 0 {
      NothingYet(s0.params, i);
    } else {
      var init, op := ops[..|ops| - 1], ops[|ops| - 1];
      assert ops == init + [op];
      Levels(s0, init);
      HaveresetMeans(s0, init, i);
      ResetUnackedStep(s0.params, init, op, i);
      HaveresetStep(s0.params, After(s0, init), init, op, i);
    }
  }

  lemma NothingYet(p: Params, i: nat)
    ensures ResetUnacked(p, [], i) <==> p.haveresetPoweron
  {
    assert NoAckFrom([], 0, i);
  }

  lemma HaveresetStep(p: Params, s: Dm, prior: seq<Op>, op: Op, i: nat)
    requires Ok(s) && s.params == p && !op.Configure? && i < p.numHarts
    requires s.run.ndmreset == Up(prior, 1) && s.run.hartresetLevel == (p.supportsHartreset && Up(prior, 29))
    ensures Step(s, op).params == p && i < |s.run.harts| && i < |Step(s, op).run.harts|
    ensures Step(s, op).run.harts[i].havereset <==>
            (s.run.harts[i].havereset || Resets(p, prior, op, i)) && !Acks(op, i)
  {
    hide Bit, Selects, OnWrite, Up;
    StepOk(s, op);
    if ControlOp(op) {
      ControlOps(s, op);
      if Active(op) {
        DmcontrolLaw(s, op.value, i);
      } else {
        InactiveLaw(s, op.value, i);
      }
    } else {
      OtherOps(s, op);
    }
  }

  // ---- resumeack ----

  /** The operation asks hart `i` to resume. */
  ghost predicate Resumed(op: Op, i: nat) { Active(op) && AsksResume(op.value, i) }

  /** After the run `prior`, the operation gives the resume acknowledgement of hart `i` its reset value:
      it resets the module, or begins a reset of the hart. */
  ghost predicate Forgets(p: Params, prior: seq<Op>, op: Op, i: nat)
  {
    ControlOp(op)
    && (!Bit(op.value, 0) || (Bit(op.value, 1) && !Up(prior, 1))
        || (Selects(op.value, i) && p.supportsHartreset && Bit(op.value, 29) && !Up(prior, 29)))
  }

  /** The resume of hart `i` at `j` is its last, and nothing reset its acknowledgement since. */
  ghost predicate Standing(p: Params, ops: seq<Op>, j: int, i: nat)
  {
    0 <= j < |ops| && Resumed(ops[j], i)
    && forall m :: j < m < |ops| ==> !Resumed(ops[m], i) && !Forgets(p, ops[..m], ops[m], i)
  }

  lemma StandingStep(p: Params, init: seq<Op>, op: Op, j: int, i: nat)
    ensures Standing(p, init + [op], j, i) <==>
            if Resumed(op, i) then j == |init|
            else Standing(p, init, j, i) && !Forgets(p, init, op, i)
  {
    hide Resumed, Forgets;
    var ops, n := init + [op], |init|;
    assert forall m :: 0 <= m <= n ==> ops[..m] == init[..m];
    assert init[..n] == init && ops[n] == op;
    if Standing(p, ops, j, i) && j < n {
      assert !Resumed(ops[n], i) && !Forgets(p, ops[..n], ops[n], i);
      forall m | j < m < n ensures !Resumed(init[m], i) && !Forgets(p, init[..m], init[m], i) {
        assert !Resumed(ops[m], i) && !Forgets(p, ops[..m], ops[m], i);
      }
    }
    if Standing(p, init, j, i) && !Resumed(op, i) && !Forgets(p, init, op, i) {
      forall m | j < m <= n ensures !Resumed(ops[m], i) && !Forgets(p, ops[..m], ops[m], i) {
        assert m < n ==> !Resumed(init[m], i) && !Forgets(p, init[..m], init[m], i);
      }
    }
  }

  /** What the resume at `j` found: whether the hart met it halted. */
  ghost predicate FoundHalted(s0: Dm, ops: seq<Op>, j: nat, i: nat)
    requires Shaped(s0.abs) && j < |ops|
  {
    var s := After(s0, ops[..j]);
    ops[j].Write? && i < |s.run.harts| && MeetsHalted(s.params, s.run, ops[j].value, i)
  }

  /** `ack` is what the last resume of hart `i` found, or the declared reset value if none stands. */
  ghost predicate Acknowledges(s0: Dm, ops: seq<Op>, i: nat, ack: bool)
    requires Shaped(s0.abs)
  {
    && (forall j :: Standing(s0.params, ops, j, i) ==> ack == FoundHalted(s0, ops, j, i))
    && ((forall j :: !Standing(s0.params, ops, j, i)) ==> ack == s0.params.resumeackReset)
  }

  /** Over every run the resume acknowledgement of a hart says whether its last resume found it halted,
      and is the declared reset value if a reset followed or there was none. */
  lemma {:induction false} ResumeackMeans(s0: Dm, ops: seq<Op>, i: nat)
    requires PoweredOn(s0) && NoConfigure(ops) && i < s0.params.numHarts
    ensures var s := After(s0, ops);
            i < |s.run.harts| && Acknowledges(s0, ops, i, s.run.harts[i].resumeAck)
  {
    hide Bit, Selects, OnWrite, Forgets, Resumed, MeetsHalted, Acknowledges;
    Levels(s0, ops);
    if |ops| == 0 {
      NoneStanding(s0, i);
    } else {
      var init, op := ops[..|ops| - 1], ops[|ops| - 1];
      assert ops == init + [op];
      Levels(s0, init);
      ResumeackMeans(s0, init, i);
      ResumeackStep(s0.params, After(s0, init), init, op, i);
      AcknowledgesStep(s0, init, op, i, After(s0, init).run.harts[i].resumeAck);
    }
  }

  /** How the acknowledgement of the whole run follows from that of the run before its last operation. */
  lemma AcknowledgesStep(s0: Dm, init: seq<Op>, op: Op, i: nat, ack: bool)
    requires Shaped(s0.abs) && Acknowledges(s0, init, i, ack) && i < |After(s0, init).run.harts|
    ensures var s, p := After(s0, init), s0.params;
            Acknowledges(s0, init + [op], i,
              if Resumed(op, i) then op.Write? && MeetsHalted(s.params, s.run, op.value, i)
              else if Forgets(p, init, op, i) then p.resumeackReset else ack)
  {
    hide Bit, Selects, Forgets, Resumed, MeetsHalted, Standing, FoundHalted, After;
    var ops, p := init + [op], s0.params;
    FoundEarlier(s0, init, op, i);
    forall j ensures Standing(p, ops, j, i) <==>
                       if Resumed(op, i) then j == |init| else Standing(p, init, j, i) && !Forgets(p, init, op, i)
    {
      StandingStep(p, init, op, j, i);
    }
    StandingIn(p, ops, i);
    if Resumed(op, i) {
      assert Standing(p, ops, |init|, i);
    }
  }

  lemma StandingIn(p: Params, ops: seq<Op>, i: nat)
    ensures forall j :: Standing(p, ops, j, i) ==> 0 <= j < |ops|
  {
  }

  lemma NoneStanding(s0: Dm, i: nat)
    requires Shaped(s0.abs)
    ensures Acknowledges(s0, [], i, s0.params.resumeackReset)
  {
  }

  lemma FoundEarlier(s0: Dm, init: seq<Op>, op: Op, i: nat)
    requires Shaped(s0.abs)
    ensures forall j :: Standing(s0.params, init, j, i) ==>
              0 <= j < |init| && (FoundHalted(s0, init + [op], j, i) <==> FoundHalted(s0, init, j, i))
    ensures FoundHalted(s0, init + [op], |init|, i) <==>
            var s := After(s0, init);
            op.Write? && i < |s.run.harts| && MeetsHalted(s.params, s.run, op.value, i)
  {
    hide MeetsHalted, After, Resumed, Forgets;
    var ops := init + [op];
    assert ops[..|init|] == init;
    forall j | Standing(s0.params, init, j, i)
      ensures 0 <= j < |init| && (FoundHalted(s0, ops, j, i) <==> FoundHalted(s0, init, j, i))
    {
      assert ops[..j] == init[..j] && ops[j] == init[j];
    }
  }

  lemma ResumeackStep(p: Params, s: Dm, prior: seq<Op>, op: Op, i: nat)
    requires Ok(s) && s.params == p && !op.Configure? && i < p.numHarts
    requires s.run.ndmreset == Up(prior, 1) && s.run.hartresetLevel == (p.supportsHartreset && Up(prior, 29))
    ensures Resumed(op, i) ==> op.Write?
    ensures Step(s, op).params == p && i < |s.run.harts| && i < |Step(s, op).run.harts|
    ensures Step(s, op).run.harts[i].resumeAck ==
            if Resumed(op, i) then MeetsHalted(p, s.run, op.value, i)
            else if Forgets(p, prior, op, i) then p.resumeackReset
            else s.run.harts[i].resumeAck
  {
    hide Bit, Selects, OnWrite, Up, MeetsHalted;
    StepOk(s, op);
    if ControlOp(op) {
      ControlOps(s, op);
      if Active(op) {
        DmcontrolLaw(s, op.value, i);
      } else {
        InactiveLaw(s, op.value, i);
      }
    } else {
      OtherOps(s, op);
    }
  }

  // ---- dmstatus over every run ----

  /** Over every run: ndmresetpending, hasresethaltreq and nonexistent ... */
  lemma DmstatusModule(s0: Dm, ops: seq<Op>, i: nat)
    requires PoweredOn(s0) && NoConfigure(ops) && Named(ops, i)
    ensures var w, p := Predict(After(s0, ops), DMSTATUS_ADDR), s0.params;
            && Bit(w, 24) == (Up(ops, 1) && p.version >= 3) && Bit(w, 5) == p.hasresethaltreq
            && Bit(w, 15) == Bit(w, 14) == (i >= p.numHarts)
            && (i >= p.numHarts >= 1 ==>
                  !Bit(w, 19) && !Bit(w, 18) && !Bit(w, 17) && !Bit(w, 16) && !Bit(w, 9) && !Bit(w, 8))
  {
    hide Bit, Selects, Predict;
    var s := After(s0, ops);
    Levels(s0, ops);
    NamedOnce(ops, i, s.run.hartsel);
    DmstatusHartBits(s);
    DmstatusModuleBits(s, 0);
  }

  lemma NamedOnce(ops: seq<Op>, i: nat, j: nat)
    requires Named(ops, i) && Named(ops, j)
    ensures i == j
  {
    hide Bit;
    if LastControl(ops).Some? {
      var w := LastControl(ops).value;
      SelectsIsHartsel(w, i);
      SelectsIsHartsel(w, j);
    }
  }

  /** ... havereset and resumeack of the selected hart. */
  lemma DmstatusHistory(s0: Dm, ops: seq<Op>, i: nat)
    requires PoweredOn(s0) && NoConfigure(ops) && Named(ops, i) && i < s0.params.numHarts
    ensures var w := Predict(After(s0, ops), DMSTATUS_ADDR);
            && Bit(w, 19) == Bit(w, 18) == ResetUnacked(s0.params, ops, i)
            && Bit(w, 17) == Bit(w, 16)
            && Acknowledges(s0, ops, i, Bit(w, 17))
  {
    hide Bit, Selects, Predict, ResetUnacked, Acknowledges;
    var s := After(s0, ops);
    Levels(s0, ops);
    NamedOnce(ops, i, s.run.hartsel);
    DmstatusHartBits(s);
    HaveresetMeans(s0, ops, i);
    ResumeackMeans(s0, ops, i);
  }
}
