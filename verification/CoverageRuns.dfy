// The bus observer beside the Debug Module it watches, over every run: what it
// infers from traffic alone is the hidden state, and exactly which excluded
// bins a run can hit.

module CoverageRuns {
  import opened Bits
  import opened Registers
  import opened Words
  import opened DebugModule
  import opened RunControl
  import opened Coverage

  /** What the observer is told of one operation; reads carry the predicted value. */
  ghost function Sampled(s: Dm, op: Op): Option<Sample>
    requires Shaped(s.abs)
  {
    match op
    case Write(addr, value) => Some(Sample(WriteOp, addr, Some(value), None))
    case Read(addr) => Some(Sample(ReadOp, addr, None, Some(Predict(s, addr))))
    case _ => None
  }

  ghost function WatchStep(w: Watch, s: Dm, op: Op): Watch
    requires Shaped(s.abs)
  {
    if Sampled(s, op).Some? then Seen(w, Sampled(s, op).value) else w
  }

  /** The observer after a run. */
  ghost function Watched(s0: Dm, ops: seq<Op>): Watch
    requires Shaped(s0.abs)
  {
    if |ops| == 0 then START
    else
      var init := ops[..|ops| - 1];
      WatchStep(Watched(s0, init), After(s0, init), ops[|ops| - 1])
  }

  /** The bins the operation after a run hits. */
  ghost function HitsNext(cov: Setup, s0: Dm, ops: seq<Op>, op: Op): seq<Key>
    requires Shaped(s0.abs)
  {
    var s := After(s0, ops);
    if Sampled(s, op).Some? then Hits(cov, Watched(s0, ops), Sampled(s, op).value) else []
  }

  /** A module just reset: where observation starts. */
  ghost predicate AtReset(s: Dm)
  {
    Ok(s) && !s.run.dmactive
    && forall i :: 0 <= i < |s.run.harts| ==> !s.run.harts[i].resetHaltreq && !s.run.harts[i].hartReset
  }

  lemma InitAtReset(p: Params)
    ensures AtReset(Init(p))
  {
    ReachableOk(p, []);
  }

  lemma ConfiguredAtReset(p: Params, cfg: Config)
    ensures AtReset(SetConfig(Init(p), cfg))
  {
    ReachableOk(p, []);
    StepOk(Init(p), Configure(cfg));
  }

  // ---- The coupling ----

  ghost predicate Coupled(s: Dm, w: Watch)
  {
    && w.ndmreset == s.run.ndmreset
    && (s.run.dmactive ==> w.hartsel == s.run.hartsel)
    && (s.params.hasresethaltreq ==>
          forall i :: 0 <= i < |s.run.harts| ==> Held(w, i) == s.run.harts[i].resetHaltreq)
  }

  lemma StagesKeepRequest(p: Params, was: bool, now: bool, h: Hart)
    ensures NdmresetStage(p, was, now, h).resetHaltreq == h.resetHaltreq
    ensures HartresetStage(p, was, now, h).resetHaltreq == h.resetHaltreq
  {
  }

  lemma EdgesKeepRequest(p: Params, r: Run, c: Ctl, i: nat)
    requires i < |r.harts|
    ensures AfterEdges(p, r, c, i).resetHaltreq == r.harts[i].resetHaltreq
  {
    hide NdmresetStage, HartresetStage;
    var h := r.harts[i].(nonexistent := i >= p.numHarts);
    StagesKeepRequest(p, r.ndmreset, c.ndmreset, h);
    StagesKeepRequest(p, r.hartresetLevel, c.hartreset && p.supportsHartreset, NdmresetStage(p, r.ndmreset, c.ndmreset, h));
  }

  lemma RequestsKeepRequest(c: Ctl, step: bool, ndmreset: bool, h: Hart)
    ensures HaltStage(c, h).resetHaltreq == h.resetHaltreq
    ensures ResumeStage(c, step, h).resetHaltreq == h.resetHaltreq
    ensures SettleStage(ndmreset, h).resetHaltreq == h.resetHaltreq
  {
  }

  /** What one dmcontrol write does to a hart's halt-on-reset bit. */
  lemma ResetHaltreqAfter(p: Params, r: Run, c: Ctl, step: bool, i: nat)
    requires p.hasresethaltreq && i < |r.harts|
    ensures HartAfter(p, r, c, step, i).resetHaltreq ==
            (if i == c.hartsel && c.clrresethaltreq then false
             else if i == c.hartsel && c.setresethaltreq then true
             else r.harts[i].resetHaltreq)
  {
    hide HaltStage, ResumeStage, SettleStage, AfterEdges;
    EdgesKeepRequest(p, r, c, i);
    var h := AfterEdges(p, r, c, i);
    RequestsKeepRequest(c, step, c.ndmreset, h);
    RequestsKeepRequest(c, step, c.ndmreset, AckStage(p, c, h));
    var b := BeforeResume(p, r, c, i);
    RequestsKeepRequest(c, step, c.ndmreset, b);
    RequestsKeepRequest(c, step, c.ndmreset, ResumeStage(c, step, b));
  }

  lemma CoupledControl(s: Dm, w: Watch, word: nat)
    requires Ok(s) && Coupled(s, w)
    ensures Coupled(Step(s, Op.Write(DMCONTROL_ADDR, word)), ControlSeen(w, word))
  {
    hide DecodeCtl, HartAfter;
    CtlMod32(word);
    DmcontrolStep(s, word);
    var c := DecodeCtl(word);
    if c.dmactive && s.params.hasresethaltreq {
      forall i | 0 <= i < |s.run.harts|
        ensures Held(ControlSeen(w, word), i) == WriteDmcontrol(s, word % TWO32).run.harts[i].resetHaltreq
      {
        ResetHaltreqAfter(s.params, s.run, c, StepArmed(s.abs), i);
      }
    }
  }

  lemma CoupledStep(s: Dm, w: Watch, op: Op)
    requires Ok(s) && Coupled(s, w) && !op.Configure?
    ensures Coupled(Step(s, op), WatchStep(w, s, op))
  {
    hide DecodeStatus, ControlSeen;
    if op.Write? && op.addr == DMCONTROL_ADDR {
      CoupledControl(s, w, op.value);
    } else {
      RunUntouched(s, op);
    }
  }

  lemma {:induction false} StaysOk(s0: Dm, ops: seq<Op>)
    requires Ok(s0)
    ensures Ok(After(s0, ops))
    ensures NoConfigure(ops) ==> After(s0, ops).params == s0.params && After(s0, ops).cfg == s0.cfg
  {
    if |ops| > 0 {
      var s, op := After(s0, ops[..|ops| - 1]), ops[|ops| - 1];
      StaysOk(s0, ops[..|ops| - 1]);
      StepOk(s, op);
      if !op.Configure? && !(op.Write? && op.addr == DMCONTROL_ADDR) {
        RunUntouched(s, op);
      } else if !op.Configure? {
        DmcontrolStep(s, op.value);
      }
    }
  }

  /** Over every run, the ndmreset level, the selection and the unreadable halt-on-reset bits
      rebuilt from the bus are the module's own. */
  lemma {:induction false} BusOnlyReconstruction(s0: Dm, ops: seq<Op>)
    requires AtReset(s0) && NoConfigure(ops)
    ensures Coupled(After(s0, ops), Watched(s0, ops))
  {
    if |ops| > 0 {
      var init := ops[..|ops| - 1];
      BusOnlyReconstruction(s0, init);
      StaysOk(s0, init);
      CoupledStep(After(s0, init), Watched(s0, init), ops[|ops| - 1]);
    }
  }

  // ---- The observed state ----

  /** The state of the selected hart, as the module holds it. */
  predicate InRange(s: Dm) { s.run.hartsel < s.params.numHarts && s.run.hartsel < |s.run.harts| }

  function TrueState(s: Dm): HartState
  {
    if !InRange(s) then Nonexistent
    else if s.run.harts[s.run.hartsel].halted then Halted
    else if s.run.ndmreset then InReset
    else Running
  }

  lemma ReadsTrueState(s: Dm)
    requires Ok(s)
    ensures StateOf(DecodeStatus(ExpectDmstatus(s)), s.run.ndmreset) == TrueState(s)
  {
    hide EncodeStatus, DecodeStatus;
    StatusRoundTrip(SelectedStatus(s));
    if InRange(s) {
      assert HartOk(s.params, s.run, s.run.hartsel);
    }
  }

  lemma DmstatusIsExpected(s: Dm)
    requires Shaped(s.abs)
    ensures Predict(s, DMSTATUS_ADDR) == ExpectDmstatus(s)
  {
    hide ExpectDmstatus;
  }

  /** hartsel of the last dmcontrol write of a run. */
  function LastHartsel(ops: seq<Op>): nat
  {
    if |ops| == 0 then 0
    else if ops[|ops| - 1].Write? && ops[|ops| - 1].addr == DMCONTROL_ADDR then DecodeCtl(ops[|ops| - 1].value).hartsel
    else LastHartsel(ops[..|ops| - 1])
  }

  /** The selected hart's true state at the last dmstatus read since the last dmactive=0, and which hart it was. */
  ghost function LastSeen(s0: Dm, ops: seq<Op>): Option<(HartState, nat)>
    requires Shaped(s0.abs)
  {
    if |ops| == 0 then None
    else
      var init, op := ops[..|ops| - 1], ops[|ops| - 1];
      if op.Read? && op.addr == DMSTATUS_ADDR then Some((TrueState(After(s0, init)), LastHartsel(init)))
      else if op.Write? && op.addr == DMCONTROL_ADDR && !DecodeCtl(op.value).dmactive then None
      else LastSeen(s0, init)
  }

  predicate Believes(w: Watch, seen: Option<(HartState, nat)>)
  {
    match seen
    case None => w.state == Unknown
    case Some(x) => w.state == x.0 && w.stateHartsel == Some(x.1)
  }

  lemma {:induction false} SelectionTracked(s0: Dm, ops: seq<Op>)
    requires Ok(s0)
    ensures Watched(s0, ops).hartsel == LastHartsel(ops)
  {
    hide DecodeCtl, DecodeStatus;
    if |ops| > 0 {
      SelectionTracked(s0, ops[..|ops| - 1]);
    }
  }

  lemma SeenUntouched(w: Watch, x: Sample)
    requires !(x.op == WriteOp && x.addr == DMCONTROL_ADDR) && !(x.op == ReadOp && x.addr == DMSTATUS_ADDR)
    ensures Seen(w, x).state == w.state && Seen(w, x).stateHartsel == w.stateHartsel
  {
  }

  lemma StatusReadSeen(s: Dm, w: Watch)
    requires Ok(s) && Coupled(s, w)
    ensures var w' := WatchStep(w, s, Op.Read(DMSTATUS_ADDR));
            w'.state == TrueState(s) && w'.stateHartsel == Some(w.hartsel)
  {
    hide EncodeStatus, DecodeStatus, StateOf, TrueState;
    DmstatusIsExpected(s);
    ReadsTrueState(s);
  }

  lemma ControlKeepsState(w: Watch, word: nat)
    ensures DecodeCtl(word).dmactive ==>
              ControlSeen(w, word).state == w.state && ControlSeen(w, word).stateHartsel == w.stateHartsel
    ensures !DecodeCtl(word).dmactive ==> ControlSeen(w, word).state == Unknown
  {
    hide DecodeCtl;
  }

  /** Over every run, the inferred state is the true state of the hart last read, and unknown
      exactly when no dmstatus read followed the last reset of the module. */
  lemma {:induction false} ObservedState(s0: Dm, ops: seq<Op>)
    requires AtReset(s0) && NoConfigure(ops)
    ensures Believes(Watched(s0, ops), LastSeen(s0, ops))
  {
    hide DecodeCtl, DecodeStatus, TrueState, ControlSeen;
    if |ops| > 0 {
      var init, op := ops[..|ops| - 1], ops[|ops| - 1];
      ObservedState(s0, init);
      BusOnlyReconstruction(s0, init);
      StaysOk(s0, init);
      SelectionTracked(s0, init);
      var s, w := After(s0, init), Watched(s0, init);
      if op.Read? && op.addr == DMSTATUS_ADDR {
        StatusReadSeen(s, w);
      } else if op.Write? && op.addr == DMCONTROL_ADDR {
        ControlKeepsState(w, op.value);
      } else if Sampled(s, op).Some? {
        SeenUntouched(w, Sampled(s, op).value);
      }
    }
  }

  // ---- Transitions and exclusions ----

  lemma ControlKeys(cov: Setup, w: Watch, word: nat, k: Key)
    requires k in ControlHits(cov, w, word)
    ensures k.ControlField? || k.Hartsel? || k.HaltreqResumereq? || k.MutexBits? || k.ResumereqPrior?
            || k.HaveresetAck? || k.NdmresetEdge?
  {
    hide FlagHits, DecodeCtl, OneBit, MutexClass, Shadowed;
    if k in FlagHits(DMCONTROL.fields, word, true) {
      FlagsAreOneBit(DMCONTROL.fields, word, true, k);
    }
  }

  lemma StatusKeys(w: Watch, word: nat, k: Key)
    requires k in StatusHits(w, word)
    ensures k.StatusField? || k.Version? || k.AllAny? || k.Transition?
  {
    hide FlagHits, DecodeStatus, OneBit, StateOf;
    if k in FlagHits(DMSTATUS.fields, word, false) {
      FlagsAreOneBit(DMSTATUS.fields, word, false, k);
    }
  }

  lemma StatusTransitionKey(w: Watch, word: nat, k: Key)
    requires k in StatusHits(w, word) && k.Transition?
    ensures k in TransitionHits(w, StateOf(DecodeStatus(word), w.ndmreset))
  {
    hide FlagHits, DecodeStatus, OneBit, StateOf, TransitionHits;
    if k in FlagHits(DMSTATUS.fields, word, false) {
      FlagsAreOneBit(DMSTATUS.fields, word, false, k);
    }
  }

  lemma ExternalKeys(w: Watch, x: Sample, k: Key)
    requires k in ExternalHits(w, x)
    ensures !k.Transition? && !k.NdmresetEdge? && !k.ResumereqPrior?
  {
    hide DecodeCommand, Flag, Extract;
  }

  lemma TransitionOnlyFromStatus(cov: Setup, w: Watch, x: Sample, k: Key)
    requires k.Transition? && k in Hits(cov, w, x)
    ensures x.op == ReadOp && x.addr == DMSTATUS_ADDR
    ensures k in TransitionHits(w, StateOf(DecodeStatus(OrZero(x.readback)), w.ndmreset))
  {
    hide ControlHits, StatusHits, ExternalHits, DecodeStatus, StateOf, TransitionHits;
    if k in ControlHits(cov, w, OrZero(x.data)) {
      ControlKeys(cov, w, OrZero(x.data), k);
    }
    if k in ExternalHits(Staged(w, x), x) {
      ExternalKeys(Staged(w, x), x, k);
    }
    if k in StatusHits(w, OrZero(x.readback)) {
      StatusTransitionKey(w, OrZero(x.readback), k);
    }
  }

  /** Over every run, a transition bin is hit exactly when one hart really made that move between
      two dmstatus reads with no module reset in between. */
  lemma TransitionsAreReal(cov: Setup, s0: Dm, ops: seq<Op>, op: Op, a: HartState, b: HartState)
    requires AtReset(s0) && NoConfigure(ops)
    ensures Transition(a, b) in HitsNext(cov, s0, ops, op) <==>
            (op.Read? && op.addr == DMSTATUS_ADDR && LastSeen(s0, ops) == Some((a, LastHartsel(ops)))
             && TrueState(After(s0, ops)) == b && Live(a) && Live(b) && a != b)
  {
    hide TrueState, Hits, LastSeen, LastHartsel, Predict;
    ObservedState(s0, ops);
    BusOnlyReconstruction(s0, ops);
    StaysOk(s0, ops);
    SelectionTracked(s0, ops);
    var s, w, k := After(s0, ops), Watched(s0, ops), Transition(a, b);
    if Sampled(s, op).Some? {
      if k in HitsNext(cov, s0, ops, op) {
        TransitionOnlyFromStatus(cov, w, Sampled(s, op).value, k);
      }
      if op.Read? && op.addr == DMSTATUS_ADDR {
        StatusTransition(cov, s, w, k);
      }
    }
  }

  lemma StatusTransition(cov: Setup, s: Dm, w: Watch, k: Key)
    requires Ok(s) && Coupled(s, w) && k.Transition?
    ensures k in Hits(cov, w, Sample(ReadOp, DMSTATUS_ADDR, None, Some(Predict(s, DMSTATUS_ADDR)))) <==>
            k in TransitionHits(w, TrueState(s))
  {
    hide FlagHits, ExpectDmstatus, DecodeStatus, StateOf, TrueState, PairHits, TransitionHits;
    DmstatusIsExpected(s);
    ReadsTrueState(s);
    var word := ExpectDmstatus(s);
    if k in FlagHits(DMSTATUS.fields, word, false) {
      FlagsAreOneBit(DMSTATUS.fields, word, false, k);
    }
    if k in PairHits(DecodeStatus(word)) {
      PairKeys(DecodeStatus(word), k);
    }
  }

  /** What a run must hold for its next operation to hit excluded bin `k`. */
  ghost predicate Excuse(cov: Setup, s0: Dm, ops: seq<Op>, op: Op, k: Key)
    requires Shaped(s0.abs)
  {
    var p := After(s0, ops).params;
    match k
    case DmiAccess(_, _) => op.Write? && op.addr == DMSTATUS_ADDR
    case Transition(_, _) =>
      op.Read? && op.addr == DMSTATUS_ADDR && LastSeen(s0, ops) == Some((Halted, LastHartsel(ops)))
      && TrueState(After(s0, ops)) == InReset
    case StatusField(name, value) =>
      op.Read? && op.addr == DMSTATUS_ADDR
      && ((name == Name.impebreak && p.impebreak) || (name == Name.authenticated && !p.authenticated)
          || (name == Name.stickyunavail && p.stickyunavail && !cov.supportsStickyunavail))
    case Version(n) => op.Read? && op.addr == DMSTATUS_ADDR && n == p.version % 16
    case _ => false
  }

  /** The observer and the module are told the same facts about the device. */
  predicate Matched(cov: Setup, p: Params)
  {
    cov.numHarts == p.numHarts && cov.supportsStickyunavail == p.stickyunavail
    && p.authenticated && !p.impebreak && (p.version == 2 || p.version == 3)
  }

  lemma FieldAt(word: nat, i: nat, value: bool)
    requires i < |DMSTATUS.fields| && DMSTATUS.fields[i].width == 1
    ensures StatusField(DMSTATUS.fields[i].name, value) in FlagHits(DMSTATUS.fields, word, false)
            <==> (DMSTATUS.fields[i].Get(word) == 1) == value
  {
    hide DMSTATUS;
    var fields := DMSTATUS.fields;
    var k := StatusField(fields[i].name, value);
    FlagHitsExact(fields, word, false, k);
    DmstatusNames();
    if k in FlagHits(fields, word, false) {
      var j :| 0 <= j < |fields| && fields[j].width == 1 && k == StatusField(fields[j].name, fields[j].Get(word) == 1);
      assert fields[j].name == fields[i].name;
    }
  }

  lemma PredictedLevels(s: Dm)
    requires Ok(s)
    ensures var f := DecodeStatus(ExpectDmstatus(s));
            f.stickyunavail == s.params.stickyunavail && f.impebreak == s.params.impebreak
            && !f.allunavail && !f.anyunavail && f.authenticated == s.params.authenticated
            && !f.authbusy && !f.confstrptrvalid && f.version == s.params.version % 16
  {
    hide EncodeStatus, DecodeStatus;
    NotUnavailable(s);
    StatusRoundTrip(SelectedStatus(s));
  }

  lemma LevelHit(word: nat, k: Key, cov: Setup)
    requires k.StatusField? && IsExclusion(cov, k)
    ensures k in FlagHits(DMSTATUS.fields, word, false) <==>
            (var f := DecodeStatus(word);
             if k.name == Name.impebreak then f.impebreak
             else if k.name == Name.authbusy then f.authbusy
             else if k.name == Name.confstrptrvalid then f.confstrptrvalid
             else if k.name == Name.allunavail then f.allunavail
             else if k.name == Name.anyunavail then f.anyunavail
             else if k.name == Name.stickyunavail then f.stickyunavail
             else !f.authenticated)
  {
    hide FlagHits, DecodeStatus, Extract, OneBit;
    LevelsDecoded(word);
    var i := if k.name == Name.impebreak then 2 else if k.name == Name.authbusy then 16
             else if k.name == Name.confstrptrvalid then 18 else if k.name == Name.allunavail then 9
             else if k.name == Name.anyunavail then 10 else if k.name == Name.stickyunavail then 1 else 15;
    FieldAt(word, i, k.value);
  }

  /** The excluded levels of dmstatus a predicted word shows. */
  lemma ExcludedLevels(s: Dm, cov: Setup, k: Key)
    requires Ok(s) && k.StatusField? && IsExclusion(cov, k)
    ensures k in FlagHits(DMSTATUS.fields, ExpectDmstatus(s), false) <==>
            ((k.name == Name.impebreak && s.params.impebreak) || (k.name == Name.authenticated && !s.params.authenticated)
             || (k.name == Name.stickyunavail && s.params.stickyunavail && !cov.supportsStickyunavail))
  {
    hide FlagHits, ExpectDmstatus, DecodeStatus, OneBit;
    PredictedLevels(s);
    LevelHit(ExpectDmstatus(s), k, cov);
  }

  lemma NotUnavailable(s: Dm)
    requires Ok(s)
    ensures var f := SelectedStatus(s); !f.allunavail && !f.anyunavail && !f.authbusy && !f.confstrptrvalid
  {
    if s.run.hartsel < |s.run.harts| {
      assert HartOk(s.params, s.run, s.run.hartsel);
    }
  }

  lemma LevelsDecoded(word: nat)
    ensures var f, t := DecodeStatus(word), DMSTATUS.fields;
            && f.stickyunavail == (t[1].Get(word) == 1) && f.impebreak == (t[2].Get(word) == 1)
            && f.allunavail == (t[9].Get(word) == 1) && f.anyunavail == (t[10].Get(word) == 1)
            && f.authenticated == (t[15].Get(word) == 1) && f.authbusy == (t[16].Get(word) == 1)
            && f.confstrptrvalid == (t[18].Get(word) == 1)
  {
    hide Extract;
  }

  lemma ExternalAreBins(cov: Setup, w: Watch, x: Sample, k: Key)
    requires k in ExternalHits(w, x)
    ensures IsBin(cov, k)
  {
    hide DecodeCommand, Flag, Extract, OneBit, OutOfSlice;
  }

  lemma OtherHitsAreBins(cov: Setup, w: Watch, x: Sample, k: Key)
    requires k in Hits(cov, w, x) && x.addr != DMSTATUS_ADDR
    ensures IsBin(cov, k)
  {
    hide ControlHits, ExternalHits, OneBit, OutOfSlice;
    if x.op == WriteOp && x.addr == DMCONTROL_ADDR && k in ControlHits(cov, w, OrZero(x.data)) {
      ControlHitsDeclared(cov, w, OrZero(x.data), k);
    } else if k in ExternalHits(Staged(w, x), x) {
      ExternalAreBins(cov, Staged(w, x), x, k);
    }
  }

  lemma PairsAgree(s: Dm, k: Key)
    requires Ok(s) && k.AllAny? && k in PairHits(DecodeStatus(ExpectDmstatus(s)))
    ensures k.all == k.any && !(k.all && k.state.UnavailState?)
  {
    hide EncodeStatus, DecodeStatus;
    NotUnavailable(s);
    StatusRoundTrip(SelectedStatus(s));
  }

  /** The exclusions one predicted dmstatus word hits. */
  lemma StatusExclusions(cov: Setup, s: Dm, w: Watch, k: Key)
    requires Ok(s) && Coupled(s, w) && IsExclusion(cov, k)
    ensures k in StatusHits(w, ExpectDmstatus(s)) <==>
            if k.StatusField? then k in FlagHits(DMSTATUS.fields, ExpectDmstatus(s), false)
            else if k.Version? then k.number == s.params.version % 16
            else if k.Transition? then w.stateHartsel == Some(w.hartsel) && w.state == Halted && TrueState(s) == InReset
            else false
  {
    hide FlagHits, ExpectDmstatus, DecodeStatus, OneBit, StateOf, TrueState, PairHits;
    var word := ExpectDmstatus(s);
    ReadsTrueState(s);
    PredictedLevels(s);
    if k in FlagHits(DMSTATUS.fields, word, false) {
      FlagsAreOneBit(DMSTATUS.fields, word, false, k);
    }
    if k in PairHits(DecodeStatus(word)) {
      PairKeys(DecodeStatus(word), k);
      PairsAgree(s, k);
    }
  }

  lemma PairKeys(f: Status, k: Key)
    requires k in PairHits(f)
    ensures k.AllAny?
  {
  }

  /** Over every run, the exact account of the exclusions the next operation hits. */
  lemma ExclusionsExact(cov: Setup, s0: Dm, ops: seq<Op>, op: Op, k: Key)
    requires AtReset(s0) && NoConfigure(ops) && IsExclusion(cov, k)
    ensures k in HitsNext(cov, s0, ops, op) <==> Excuse(cov, s0, ops, op, k)
  {
    hide StatusHits, Predict, TrueState, LastSeen, LastHartsel, Hits, FlagHits, OneBit;
    ObservedState(s0, ops);
    BusOnlyReconstruction(s0, ops);
    StaysOk(s0, ops);
    SelectionTracked(s0, ops);
    var s, w := After(s0, ops), Watched(s0, ops);
    if Sampled(s, op).Some? {
      var x := Sampled(s, op).value;
      if x.addr == DMSTATUS_ADDR {
        DmstatusIsExpected(s);
        DmstatusSamples(cov, w, x, k);
        StatusExclusions(cov, s, w, k);
        if k.StatusField? {
          ExcludedLevels(s, cov, k);
        }
      } else if k in Hits(cov, w, x) {
        OtherHitsAreBins(cov, w, x, k);
        BinsAndExclusionsDisjoint(cov, k);
      }
    }
  }

  lemma DmstatusSamples(cov: Setup, w: Watch, x: Sample, k: Key)
    requires x.addr == DMSTATUS_ADDR && x.op != OtherOp && IsExclusion(cov, k)
    ensures k in Hits(cov, w, x) <==>
            if x.op == WriteOp then k.DmiAccess? else k in StatusHits(w, OrZero(x.readback))
  {
    hide StatusHits, OneBit;
  }

  lemma ParamsKept(s0: Dm, ops: seq<Op>)
    requires AtReset(s0) && NoConfigure(ops)
    ensures After(s0, ops).params == s0.params
  {
    StaysOk(s0, ops);
  }

  /** Told the truth about the device, the observer can be contradicted by two exclusions only:
      stimulus that writes dmstatus, and a halted hart caught by a reset. */
  lemma OnlyTwoExclusions(cov: Setup, s0: Dm, ops: seq<Op>, op: Op, k: Key)
    requires AtReset(s0) && NoConfigure(ops) && Matched(cov, s0.params)
    requires IsExclusion(cov, k)
    ensures k in HitsNext(cov, s0, ops, op) ==> k == DmiAccess(true, true) || k == Transition(Halted, InReset)
  {
    hide LastSeen, LastHartsel, TrueState, HitsNext, Ok, AtReset, After, OneBit;
    ExclusionsExact(cov, s0, ops, op, k);
    ParamsKept(s0, ops);
  }

  /** In particular in every session that first declares the device and then runs. */
  lemma ConfiguredSession(cov: Setup, p: Params, cfg: Config, ops: seq<Op>, op: Op, k: Key)
    requires NoConfigure(ops) && Matched(cov, cfg.params) && IsExclusion(cov, k)
    ensures k in HitsNext(cov, SetConfig(Init(p), cfg), ops, op) ==>
              k == DmiAccess(true, true) || k == Transition(Halted, InReset)
  {
    hide HitsNext, AtReset;
    ConfiguredAtReset(p, cfg);
    OnlyTwoExclusions(cov, SetConfig(Init(p), cfg), ops, op, k);
  }

  lemma HaltedThenReset(s: Dm, i: nat)
    requires Ok(s) && i < s.params.numHarts && i < 0x10_0000 && !s.run.harts[i].hartReset
    ensures var s1 := Step(s, ControlWrite(IDLE.(haltreq := true, hartsel := i)));
            var s2 := Step(s1, ControlWrite(IDLE.(ndmreset := true, hartsel := i)));
            TrueState(s1) == Halted && TrueState(s2) == InReset && s2.params == s.params
  {
    hide DriverDmcontrol, ControlWrite, HartAfter;
    var c1, c2 := IDLE.(haltreq := true, hartsel := i), IDLE.(ndmreset := true, hartsel := i);
    ControlWriteRun(s, c1);
    HaltResponse(s.params, s.run, c1, StepArmed(s.abs), i);
    var s1 := Step(s, ControlWrite(c1));
    StepOk(s, ControlWrite(c1));
    ControlWriteRun(s1, c2);
    StepOk(s1, ControlWrite(c2));
    assert HartOk(s1.params, Step(s1, ControlWrite(c2)).run, i);
  }

  /** A run of two dmcontrol writes around one dmstatus read: where it ends and what was last seen. */
  lemma WriteReadWrite(s0: Dm, c1: Ctl, c2: Ctl)
    requires Shaped(s0.abs) && c1.hartsel < 0x10_0000 && c2.hartsel < 0x10_0000 && c1.dmactive && c2.dmactive
    ensures var w1, rd, w2 := ControlWrite(c1), Op.Read(DMSTATUS_ADDR), ControlWrite(c2);
            var s1 := Step(s0, w1);
            && Shaped(s1.abs) && After(s0, [w1, rd, w2]) == Step(s1, w2)
            && LastHartsel([w1, rd, w2]) == c2.hartsel
            && LastSeen(s0, [w1, rd, w2]) == Some((TrueState(s1), c1.hartsel))
  {
    hide DriverDmcontrol, TrueState, DecodeCtl, OnWrite, ControlWrite;
    var w1, rd, w2 := ControlWrite(c1), Op.Read(DMSTATUS_ADDR), ControlWrite(c2);
    ControlWriteDecodes(c1);
    ControlWriteDecodes(c2);
    IsControlWrite(c1);
    IsControlWrite(c2);
    assert [w1][..0] == [] && [w1, rd][..1] == [w1] && [w1, rd, w2][..2] == [w1, rd];
    assert After(s0, [w1]) == Step(s0, w1);
    assert After(s0, [w1, rd]) == Step(s0, w1);
    assert LastHartsel([w1]) == c1.hartsel;
    assert LastSeen(s0, [w1, rd]) == Some((TrueState(Step(s0, w1)), c1.hartsel));
  }

  lemma IsControlWrite(c: Ctl)
    ensures ControlWrite(c).Write? && ControlWrite(c).addr == DMCONTROL_ADDR
  {
  }

  /** The exclusion that cannot happen, happening: halt a hart, read, assert ndmreset, read. */
  lemma HaltedToInResetIsReachable(cov: Setup, s0: Dm, i: nat)
    requires AtReset(s0) && i < s0.params.numHarts && i < 0x10_0000
    ensures var ops := [ControlWrite(IDLE.(haltreq := true, hartsel := i)), Op.Read(DMSTATUS_ADDR),
                        ControlWrite(IDLE.(ndmreset := true, hartsel := i))];
            IsExclusion(cov, Transition(Halted, InReset))
            && Transition(Halted, InReset) in HitsNext(cov, s0, ops, Op.Read(DMSTATUS_ADDR))
  {
    hide TrueState, HitsNext, ControlWrite, Step, LastSeen, LastHartsel, After;
    var c1, c2 := IDLE.(haltreq := true, hartsel := i), IDLE.(ndmreset := true, hartsel := i);
    var ops := [ControlWrite(c1), Op.Read(DMSTATUS_ADDR), ControlWrite(c2)];
    assert HartOk(s0.params, s0.run, i);
    IsControlWrite(c1);
    IsControlWrite(c2);
    HaltedThenReset(s0, i);
    WriteReadWrite(s0, c1, c2);
    TransitionsAreReal(cov, s0, ops, Op.Read(DMSTATUS_ADDR), Halted, InReset);
  }

  // ---- What two of the crosses really say ----

  lemma ControlOnly(cov: Setup, w: Watch, word: nat, k: Key)
    requires k.NdmresetEdge? || k.ResumereqPrior?
    ensures k in ControlHits(cov, w, word) <==>
            (if k.NdmresetEdge? then k in EdgeHits(w, DecodeCtl(word))
             else DecodeCtl(word).resumereq && DecodeCtl(word).hartsel == w.hartsel && Live(w.state)
                  && k == ResumereqPrior(w.state))
  {
    hide FlagHits, DecodeCtl, EdgeHits;
    if k in FlagHits(DMCONTROL.fields, word, true) {
      FlagsAreOneBit(DMCONTROL.fields, word, true, k);
    }
    if k in EdgeHits(w, DecodeCtl(word)) {
      EdgeKeys(w, DecodeCtl(word), k);
    }
  }

  lemma EdgeKeys(w: Watch, c: Ctl, k: Key)
    requires k in EdgeHits(w, c)
    ensures k.NdmresetEdge?
  {
  }

  lemma CrossesOnlyFromControl(cov: Setup, w: Watch, x: Sample, k: Key)
    requires (k.NdmresetEdge? || k.ResumereqPrior?) && k in Hits(cov, w, x)
    ensures x.op == WriteOp && x.addr == DMCONTROL_ADDR
  {
    hide ControlHits, StatusHits, ExternalHits;
    if k in ExternalHits(Staged(w, x), x) {
      ExternalKeys(Staged(w, x), x, k);
    }
    if k in StatusHits(w, OrZero(x.readback)) {
      StatusKeys(w, OrZero(x.readback), k);
    }
  }

  /** A release that also resumes: the hart is halted afterwards if it was to halt and steps. */
  lemma ReleaseAndResume(p: Params, r: Run, c: Ctl, step: bool, i: nat)
    requires RunOk(p, r) && i < p.numHarts && r.ndmreset && !p.supportsHartreset
    requires c.dmactive && !c.ndmreset && c.resumereq && !c.haltreq && c.hartsel == i
    ensures HartAfter(p, r, c, step, i).halted <==> Pending(r.harts[i]) && step
  {
    hide NdmresetStage, HartresetStage;
    ReleasedHart(p, r, c, i);
    EdgesMidway(p, r, c, i);
  }

  /** The hart named by a release is halted exactly if a halt was pending or is asked for, or, when the
      same write resumes it, if it steps. */
  predicate HaltsOnRelease(c: Ctl, h: Hart, step: bool)
  {
    if c.resumereq && !c.haltreq then Pending(h) && step else Pending(h) || c.haltreq
  }

  /** The name of a release bin and the hart agree on this release. */
  predicate ReleaseNamesHart(c: Ctl, h: Hart, step: bool)
  {
    if HaltsOnRelease(c, h, step) then !c.clrresethaltreq && (c.setresethaltreq || h.resetHaltreq)
    else c.clrresethaltreq || (!c.setresethaltreq && !h.resetHaltreq)
  }

  lemma NamedHartReleased(s: Dm, word: nat)
    requires Ok(s) && !s.params.supportsHartreset && s.run.ndmreset
    requires var c := DecodeCtl(word); c.dmactive && !c.ndmreset && c.hartsel < s.params.numHarts
    ensures var c, t := DecodeCtl(word), OnWrite(s, DMCONTROL_ADDR, word);
            && c.hartsel < |s.run.harts| && c.hartsel < |t.run.harts|
            && (t.run.harts[c.hartsel].halted <==> HaltsOnRelease(c, s.run.harts[c.hartsel], StepArmed(s.abs)))
  {
    hide DecodeCtl, HartAfter, OnWrite, StepArmed;
    var c := DecodeCtl(word);
    CtlMod32(word);
    DmcontrolStep(s, word);
    if c.resumereq && !c.haltreq {
      ReleaseAndResume(s.params, s.run, c, StepArmed(s.abs), c.hartsel);
    } else {
      ReleaseLaw(s, word, c.hartsel);
    }
  }

  /** When a reset-release bin is hit, the shadow in its name is the selected hart's bit as this very
      write leaves it, while the hart halts by what was pending before it; the two agree exactly on the
      stated writes. */
  lemma ReleaseBinMeaning(cov: Setup, s0: Dm, ops: seq<Op>, word: nat, rhr: bool)
    requires AtReset(s0) && NoConfigure(ops) && s0.params.hasresethaltreq && !s0.params.supportsHartreset
    requires DecodeCtl(word).hartsel < s0.params.numHarts
    requires NdmresetEdge(false, rhr) in HitsNext(cov, s0, ops, Op.Write(DMCONTROL_ADDR, word))
    ensures DecodeCtl(word).hartsel < |After(s0, ops).run.harts|
    ensures DecodeCtl(word).hartsel < |OnWrite(After(s0, ops), DMCONTROL_ADDR, word).run.harts|
    ensures var s, c := After(s0, ops), DecodeCtl(word);
            var h, h' := s.run.harts[c.hartsel], OnWrite(s, DMCONTROL_ADDR, word).run.harts[c.hartsel];
            && s.run.ndmreset && h'.resetHaltreq == rhr
            && (rhr <==> !c.clrresethaltreq && (c.setresethaltreq || h.resetHaltreq))
            && (h'.halted <==> HaltsOnRelease(c, h, StepArmed(s.abs)))
            && ((rhr <==> h'.halted) <==> ReleaseNamesHart(c, h, StepArmed(s.abs)))
  {
    hide DecodeCtl, ControlHits, HartAfter, OnWrite, StepArmed;
    BusOnlyReconstruction(s0, ops);
    StaysOk(s0, ops);
    var s, w, c := After(s0, ops), Watched(s0, ops), DecodeCtl(word);
    assert NdmresetEdge(false, rhr) in ControlHits(cov, w, word);
    ControlOnly(cov, w, word, NdmresetEdge(false, rhr));
    NamedHartReleased(s, word);
    CtlMod32(word);
    DmcontrolStep(s, word);
    ResetHaltreqAfter(s.params, s.run, c, StepArmed(s.abs), c.hartsel);
    assert Held(w, c.hartsel) == s.run.harts[c.hartsel].resetHaltreq;
  }

  /** A release bin that says the wrong thing: ndmreset is released by a write that also sets the
      halt-on-reset bit, the bin counts a release with that bit set, and the hart runs. */
  lemma ReleaseBinMisnames(cov: Setup, s0: Dm)
    requires AtReset(s0) && s0.params.numHarts >= 1 && s0.params.hasresethaltreq && !s0.run.harts[0].haltRequest
    ensures var ops, op := [ControlWrite(IDLE.(ndmreset := true))], ControlWrite(IDLE.(setresethaltreq := true));
            var t := Step(After(s0, ops), op);
            NdmresetEdge(false, true) in HitsNext(cov, s0, ops, op)
            && |t.run.harts| > 0 && !t.run.harts[0].halted && t.run.harts[0].resetHaltreq
  {
    hide HitsNext, ControlWrite, Step, After, DecodeCtl, HartAfter, StepArmed;
    var c1, c2 := IDLE.(ndmreset := true), IDLE.(setresethaltreq := true);
    var p, ops := s0.params, [ControlWrite(c1)];
    IsControlWrite(c1);
    IsControlWrite(c2);
    ControlWriteDecodes(c2);
    OneWrite(s0, c1);
    var s1 := After(s0, ops);
    ControlWriteRun(s0, c1);
    ControlWriteRun(s1, c2);
    StaysOk(s0, ops);
    InResetHart(p, s0.run, c1, StepArmed(s0.abs));
    ReleaseHartLaw(p, s1.run, c2, StepArmed(s1.abs), 0);
    ResetHaltreqAfter(p, s1.run, c2, StepArmed(s1.abs), 0);
    BusOnlyReconstruction(s0, ops);
    ReleaseEdgeHit(cov, s0, ops, c2);
  }

  lemma OneWrite(s0: Dm, c: Ctl)
    requires Shaped(s0.abs)
    ensures After(s0, [ControlWrite(c)]) == Step(s0, ControlWrite(c))
  {
    hide ControlWrite;
    assert [ControlWrite(c)][..0] == [];
  }

  lemma InResetHart(p: Params, r: Run, c: Ctl, step: bool)
    requires RunOk(p, r) && p.numHarts >= 1 && c == IDLE.(ndmreset := true)
    requires !r.harts[0].resetHaltreq && !r.harts[0].haltRequest && !r.hartresetLevel && !r.harts[0].hartReset
    ensures var h := HartAfter(p, r, c, step, 0); !h.resetHaltreq && !h.haltRequest && !h.hartReset
  {
  }

  lemma ReleaseEdgeHit(cov: Setup, s0: Dm, ops: seq<Op>, c: Ctl)
    requires AtReset(s0) && NoConfigure(ops) && After(s0, ops).run.ndmreset
    requires c == IDLE.(setresethaltreq := true)
    ensures NdmresetEdge(false, true) in HitsNext(cov, s0, ops, ControlWrite(c))
  {
    hide DecodeCtl, ControlHits, After, Watched, DriverDmcontrol;
    BusOnlyReconstruction(s0, ops);
    ControlWriteDecodes(c);
    IsControlWrite(c);
    ControlOnly(cov, Watched(s0, ops), ControlWrite(c).value, NdmresetEdge(false, true));
  }

  /** The resume cross names the state last read, of whichever hart was selected then. */
  lemma ResumeCrossExact(cov: Setup, s0: Dm, ops: seq<Op>, op: Op, prior: HartState)
    requires AtReset(s0) && NoConfigure(ops)
    ensures ResumereqPrior(prior) in HitsNext(cov, s0, ops, op) <==>
            (op.Write? && op.addr == DMCONTROL_ADDR && DecodeCtl(op.value).resumereq
             && DecodeCtl(op.value).hartsel == LastHartsel(ops) && Live(prior)
             && LastSeen(s0, ops).Some? && LastSeen(s0, ops).value.0 == prior)
  {
    hide DecodeCtl, ControlHits, LastSeen, LastHartsel, StatusHits, ExternalHits, Predict;
    ObservedState(s0, ops);
    SelectionTracked(s0, ops);
    var s, w, k := After(s0, ops), Watched(s0, ops), ResumereqPrior(prior);
    if Sampled(s, op).Some? {
      if k in HitsNext(cov, s0, ops, op) {
        CrossesOnlyFromControl(cov, w, Sampled(s, op).value, k);
      }
      if op.Write? && op.addr == DMCONTROL_ADDR {
        ControlOnly(cov, w, op.value, k);
      }
    }
  }

  /** The module as the last dmstatus read since the last dmactive=0 found it. */
  ghost function LastRead(s0: Dm, ops: seq<Op>): Option<Dm>
    requires Shaped(s0.abs)
  {
    if |ops| == 0 then None
    else
      var init, op := ops[..|ops| - 1], ops[|ops| - 1];
      if op.Read? && op.addr == DMSTATUS_ADDR then Some(After(s0, init))
      else if op.Write? && op.addr == DMCONTROL_ADDR && !DecodeCtl(op.value).dmactive then None
      else LastRead(s0, init)
  }

  /** The state of hart `i`, as the module holds it. */
  function StateOfHart(s: Dm, i: nat): HartState
  {
    if i >= s.params.numHarts || i >= |s.run.harts| then Nonexistent
    else if s.run.harts[i].halted then Halted
    else if s.run.ndmreset then InReset
    else Running
  }

  lemma {:induction false} SeenIsRead(s0: Dm, ops: seq<Op>)
    requires AtReset(s0) && NoConfigure(ops)
    ensures LastSeen(s0, ops).Some? <==> LastRead(s0, ops).Some?
    ensures LastSeen(s0, ops).Some? ==>
              var x, d := LastSeen(s0, ops).value, LastRead(s0, ops).value;
              x.0 == StateOfHart(d, d.run.hartsel) && d.run.hartsel == if d.run.dmactive then x.1 else 0
  {
    hide DecodeCtl, After, LastHartsel, Watched, AtReset;
    if |ops| > 0 {
      var init := ops[..|ops| - 1];
      SeenIsRead(s0, init);
      StartOk(s0);
      StaysOk(s0, init);
      BusOnlyReconstruction(s0, init);
      SelectionTracked(s0, init);
    }
  }

  lemma StartOk(s0: Dm)
    requires AtReset(s0)
    ensures Ok(s0)
  {
  }

  /** Whose state the resume cross counts: that of the hart the module had selected at the last read,
      and this is the hart being resumed exactly if no write moved the selection since, or, after a read
      of an inactive module, if hart 0 is resumed. */
  lemma ResumeCrossBelongs(cov: Setup, s0: Dm, ops: seq<Op>, op: Op, prior: HartState)
    requires AtReset(s0) && NoConfigure(ops)
    requires ResumereqPrior(prior) in HitsNext(cov, s0, ops, op)
    ensures op.Write? && LastRead(s0, ops).Some? && LastSeen(s0, ops).Some?
    ensures var c, d := DecodeCtl(op.value), LastRead(s0, ops).value;
            && prior == StateOfHart(d, d.run.hartsel)
            && (d.run.hartsel == c.hartsel <==>
                  c.hartsel == if d.run.dmactive then LastSeen(s0, ops).value.1 else 0)
            && (LastSeen(s0, ops).value.1 == c.hartsel && d.run.dmactive ==> prior == StateOfHart(d, c.hartsel))
  {
    hide DecodeCtl, HitsNext, LastSeen, LastRead, LastHartsel, AtReset;
    ResumeCrossExact(cov, s0, ops, op, prior);
    SeenIsRead(s0, ops);
  }

  /** So it can name another hart's state: hart 0 is read halted, hart 1 is selected by one write
      and resumed by the next, and the running hart 1 is counted as resumed when halted. */
  lemma ResumeCrossMisnamesHart(cov: Setup, s0: Dm)
    requires AtReset(s0) && s0.params.numHarts >= 2 && s0.run.harts[1].running
    ensures var ops := [ControlWrite(IDLE.(haltreq := true)), Op.Read(DMSTATUS_ADDR), ControlWrite(IDLE.(hartsel := 1))];
            TrueState(After(s0, ops)) == Running
            && ResumereqPrior(Halted) in HitsNext(cov, s0, ops, ControlWrite(IDLE.(resumereq := true, hartsel := 1)))
  {
    hide TrueState, HitsNext, ControlWrite, Step, LastSeen, LastHartsel, After, DecodeCtl;
    var c1, c2, c3 := IDLE.(haltreq := true), IDLE.(hartsel := 1), IDLE.(resumereq := true, hartsel := 1);
    var ops := [ControlWrite(c1), Op.Read(DMSTATUS_ADDR), ControlWrite(c2)];
    IsControlWrite(c1);
    IsControlWrite(c2);
    IsControlWrite(c3);
    ControlWriteDecodes(c3);
    HaltReadsHalted(s0, 0);
    HaltLeavesSecond(s0);
    IdleReadsRunning(Step(s0, ControlWrite(c1)), 1);
    assert c1 == IDLE.(haltreq := true, hartsel := 0);
    WriteReadWrite(s0, c1, c2);
    ResumeCrossExact(cov, s0, ops, ControlWrite(c3), Halted);
  }

  lemma HaltReadsHalted(s: Dm, i: nat)
    requires Ok(s) && i < s.params.numHarts && i < 0x10_0000 && !s.run.harts[i].hartReset
    ensures TrueState(Step(s, ControlWrite(IDLE.(haltreq := true, hartsel := i)))) == Halted
  {
    hide DriverDmcontrol, ControlWrite, HartAfter;
    var c := IDLE.(haltreq := true, hartsel := i);
    ControlWriteRun(s, c);
    HaltResponse(s.params, s.run, c, StepArmed(s.abs), i);
  }

  lemma IdleReadsRunning(s: Dm, i: nat)
    requires Ok(s) && i < s.params.numHarts && i < 0x10_0000
    requires !s.run.ndmreset && !s.run.hartresetLevel && !s.run.harts[i].hartReset && !s.run.harts[i].halted
    ensures TrueState(Step(s, ControlWrite(IDLE.(hartsel := i)))) == Running
  {
    hide DriverDmcontrol, ControlWrite, HartAfter;
    var c := IDLE.(hartsel := i);
    ControlWriteRun(s, c);
    IdleKeeps(s.params, s.run, c, StepArmed(s.abs), i);
  }

  lemma HaltLeavesSecond(s: Dm)
    requires AtReset(s) && s.params.numHarts >= 2 && s.run.harts[1].running
    ensures var t := Step(s, ControlWrite(IDLE.(haltreq := true)));
            && Ok(t) && t.params == s.params && !t.run.ndmreset && !t.run.hartresetLevel
            && 1 < |t.run.harts| && !t.run.harts[1].hartReset && !t.run.harts[1].halted
  {
    hide DriverDmcontrol, ControlWrite, HartAfter;
    var c, p := IDLE.(haltreq := true), s.params;
    assert HartOk(p, s.run, 1);
    ControlWriteRun(s, c);
    IdleKeeps(p, s.run, c, StepArmed(s.abs), 1);
    StepOk(s, ControlWrite(c));
  }

  lemma IdleKeeps(p: Params, r: Run, c: Ctl, step: bool, i: nat)
    requires RunOk(p, r) && i < p.numHarts && !r.ndmreset && !c.ndmreset && !r.harts[i].hartReset
    requires c.hartsel != i || c == IDLE.(hartsel := i)
    requires c.hartsel == i ==> !r.hartresetLevel
    ensures HartAfter(p, r, c, step, i).halted == r.harts[i].halted
    ensures !HartAfter(p, r, c, step, i).hartReset
  {
    assert HartOk(p, r, i);
  }
}
