// Exactly when the rule checker and the predictor disagree, over every run.

module Agreement {
  import opened Bits
  import opened Registers
  import opened Words
  import opened DebugModule
  import opened RunControl
  import opened Rules

  /** What the checker says of a write or read that the predictor itself made. */
  predicate Expected(s: Dm, seen: Seen, t: Dm, v: Violation)
  {
    var i := t.run.hartsel;
    var lone := Request(seen).Some? && LoneResume(Request(seen).value) && i < s.params.numHarts && i < |s.run.harts|;
    match v
    case VersionNonzero => t.run.dmactive && !t.run.ndmreset && t.params.version % 16 == 0
    case ResumereqResumesHalted(hart, ackMissing) =>
      lone && hart == i && s.run.harts[i].halted
      && if ackMissing then !FindsHalted(s.run, s.run.harts[i])
         else FindsHalted(s.run, s.run.harts[i]) && StepArmed(s.abs)
    case RunningIgnoresResumereq(hart) =>
      lone && hart == i && !s.run.harts[i].halted && FindsHalted(s.run, s.run.harts[i]) && StepArmed(s.abs)
      && !StillHeld(s.run, s.run.harts[i])
    case ResumereqClearsAck(hart) =>
      lone && hart == i && !s.run.harts[i].halted && FindsHalted(s.run, s.run.harts[i])
    case _ => false
  }

  /** The traffic is what the model itself produces: its own step, its own read-backs. */
  ghost predicate Produced(s: Dm, seen: Seen, t: Dm)
    requires Shaped(s.abs)
  {
    if seen.isWrite then seen.data.Some? && t == OnWrite(s, seen.addr, seen.data.value)
    else
      t == OnRead(s, seen.addr)
      && (seen.readback.Some? && (seen.addr == DMCONTROL_ADDR || seen.addr == DMSTATUS_ADDR) ==>
            seen.readback.value == Predict(s, seen.addr))
  }

  // ---- Rules about one word ----

  lemma PredictedStatus(s: Dm)
    requires Shaped(s.abs)
    ensures Predict(s, DMSTATUS_ADDR) == ExpectDmstatus(s)
  {
    hide EncodeStatus, SelectedStatus;
  }

  lemma StatusWordIsPredicted(s: Dm, seen: Seen, t: Dm)
    requires Ok(s) && Produced(s, seen, t)
    ensures StatusWord(seen, t) == ExpectDmstatus(t)
  {
    if !seen.isWrite {
      RunUntouched(s, Op.Read(seen.addr));
      assert SelectedStatus(s) == SelectedStatus(t);
      PredictedStatus(s);
    }
  }

  lemma StatusWordDecodes(s: Dm, seen: Seen, t: Dm)
    requires Ok(s) && Produced(s, seen, t)
    ensures DecodeStatus(StatusWord(seen, t))
         == SelectedStatus(t).(version := SelectedStatus(t).version % 16)
  {
    StatusWordIsPredicted(s, seen, t);
    StatusRoundTrip(SelectedStatus(t));
  }

  lemma WordReported(prev: Option<Snapshot>, seen: Seen, t: Dm, v: Violation)
    requires v.AllImpliesAny? || v.VersionNonzero? || v.NdmresetpendingClear?
    ensures Reported(prev, seen, t, v) <==> WordReport(StatusWord(seen, t), t, v)
  {
    hide StatusWord, WordReport;
  }

  lemma WordRules(s: Dm, seen: Seen, t: Dm, v: Violation)
    requires Ok(s) && Produced(s, seen, t)
    requires v.AllImpliesAny? || v.VersionNonzero? || v.NdmresetpendingClear?
    ensures Reported(Some(Snap(s)), seen, t, v) <==> Expected(s, seen, t, v)
  {
    hide StatusWord, DecodeStatus, Reported, Produced;
    WordReported(Some(Snap(s)), seen, t, v);
    StatusWordDecodes(s, seen, t);
  }

  lemma PredictedControl(s: Dm)
    requires Shaped(s.abs)
    ensures Predict(s, DMCONTROL_ADDR) == ExpectDmcontrol(s)
  {
    hide ExpectDmcontrol;
  }

  lemma PredictedBit(s: Dm, k: nat)
    requires Ok(s)
    ensures Bit(ExpectDmcontrol(s), k) ==> k == 0 || k == 1 || 6 <= k < 26 || k == 26 || k == 29
    ensures !s.run.dmactive && !s.run.hasel ==> !Bit(ExpectDmcontrol(s), k)
  {
    hide ExpectDmcontrol, Predict;
    PredictedControl(s);
    ReadsBackBit(s, k);
    ZeroBits(k);
  }

  lemma ZeroField(w: nat, lsb: nat, width: nat)
    requires forall k: nat :: lsb <= k < lsb + width ==> !Bit(w, k)
    ensures Extract(w, lsb, width) == 0
  {
    forall k: nat ensures Bit(Extract(w, lsb, width), k) <==> Bit(0, k) {
      BitZero(k);
      BitExtract(w, lsb, width, k);
    }
    SameBits(Extract(w, lsb, width), 0);
  }

  lemma WriteOnlyPositions(i: nat)
    requires i < |DMCONTROL.fields| && DMCONTROL.fields[i].ReadsZero()
    ensures var f := DMCONTROL.fields[i];
            f.width == 1 && (2 <= f.lsb <= 5 || f.lsb == 27 || f.lsb == 28 || f.lsb >= 30)
  {
  }

  /** Every write-only field of a predicted dmcontrol word is 0. */
  lemma WriteOnlyReadsZero(s: Dm, f: Field)
    requires Ok(s) && f.width == 1 && (2 <= f.lsb <= 5 || f.lsb == 27 || f.lsb == 28 || f.lsb >= 30)
    ensures f.Get(ExpectDmcontrol(s)) == 0
  {
    hide ReadbackWord;
    PredictedBit(s, f.lsb);
    ZeroField(ExpectDmcontrol(s), f.lsb, 1);
  }

  /** Every field of a predicted dmcontrol word is 0 while the Debug Module is inactive. */
  lemma InactiveReadsZero(s: Dm, f: Field)
    requires Ok(s) && !s.run.dmactive && !s.run.hasel
    ensures f.Get(ExpectDmcontrol(s)) == 0
  {
    hide ReadbackWord;
    forall k: nat | f.lsb <= k < f.lsb + f.width ensures !Bit(ExpectDmcontrol(s), k) {
      PredictedBit(s, k);
    }
    ZeroField(ExpectDmcontrol(s), f.lsb, f.width);
  }

  lemma ReadsZeroRule(s: Dm, seen: Seen, t: Dm, v: Violation)
    requires Ok(s) && Produced(s, seen, t) && v.DmcontrolReadsZero?
    ensures !Reported(Some(Snap(s)), seen, t, v)
  {
    hide ExpectDmcontrol, Predict, Extract, StatusWord, WordReport;
    if !seen.isWrite && seen.addr == DMCONTROL_ADDR && seen.readback.Some? {
      PredictedControl(s);
      forall i: nat | FieldAt(v.field, i) && DMCONTROL.fields[i].ReadsZero()
        ensures DMCONTROL.fields[i].Get(seen.readback.value) == 0
      {
        WriteOnlyPositions(i);
        WriteOnlyReadsZero(s, DMCONTROL.fields[i]);
      }
    }
  }

  lemma ResetValuesZero(i: nat)
    requires i < |DMCONTROL.fields| && DMCONTROL.fields[i].reset.Some?
    ensures DMCONTROL.fields[i].reset.value == 0
  {
  }

  lemma ResetFieldRule(s: Dm, seen: Seen, t: Dm, v: Violation)
    requires Ok(s) && Ok(t) && Produced(s, seen, t) && v.DmResetField?
    ensures !Reported(Some(Snap(s)), seen, t, v)
  {
    if Request(seen).Some? && !Request(seen).value.dmactive {
      DmcontrolWrite(s, seen, t);
      forall i: nat | FieldAt(v.field, i) && DMCONTROL.fields[i].reset.Some?
        ensures DMCONTROL.fields[i].Get(ExpectDmcontrol(t)) == DMCONTROL.fields[i].reset.value
      {
        ResetValuesZero(i);
        InactiveReadsZero(t, DMCONTROL.fields[i]);
      }
    }
  }

  // ---- Rules about harts ----

  lemma DmcontrolWrite(s: Dm, seen: Seen, t: Dm)
    requires Ok(s) && Produced(s, seen, t) && Request(seen).Some?
    ensures var c := Request(seen).value;
            if c.dmactive then t.run == ControlRun(s.params, s.run, c, StepArmed(s.abs)) && c.hartsel < 0x10_0000
            else t.run == ResetDm(s, false).run
    ensures t.params == s.params
  {
    CtlMod32(seen.data.value);
    HartselBound(seen.data.value);
    DmcontrolStep(s, seen.data.value);
  }

  lemma ProducedOk(s: Dm, seen: Seen, t: Dm)
    requires Ok(s) && Produced(s, seen, t)
    ensures Ok(t) && t.params == s.params
    ensures Request(seen).None? ==> t.run == s.run
  {
    var op := if seen.isWrite then Op.Write(seen.addr, seen.data.value) else Op.Read(seen.addr);
    StepOk(s, op);
    if Request(seen).Some? {
      DmcontrolWrite(s, seen, t);
    } else {
      RunUntouched(s, op);
    }
  }

  lemma SelectedReported(prev: Option<Snapshot>, seen: Seen, t: Dm, v: Violation)
    requires v.ResumereqIgnoredWhenHaltreq? || v.HaltedIgnoresHaltreq? || v.ResumereqResumesHalted?
             || v.RunningIgnoresResumereq? || v.ResumereqClearsAck?
    ensures Reported(prev, seen, t, v) <==> Request(seen).Some? && SelectedReport(prev, Request(seen).value, t, v)
  {
    hide SelectedReport, Request;
  }

  lemma ReleaseReported(prev: Option<Snapshot>, seen: Seen, t: Dm, v: Violation)
    requires v.HaveresetSetOnReset? || v.HaltOnReset? || v.NoHaltWithoutRequest?
    ensures Reported(prev, seen, t, v) <==> Request(seen).Some? && ReleaseReport(prev, Request(seen).value, t, v)
  {
    hide ReleaseReport, Request;
  }

  lemma ResetBitReported(prev: Option<Snapshot>, seen: Seen, t: Dm, v: Violation)
    requires v.DmResetHartBit?
    ensures Reported(prev, seen, t, v) <==>
            Request(seen).Some? && !Request(seen).value.dmactive && ResetHartBitReport(t, v)
  {
    hide ResetHartBitReport, Request;
  }

  lemma NoReleaseEdge(s: Dm, seen: Seen, t: Dm, i: nat)
    requires Ok(s) && Produced(s, seen, t) && s.params.numHarts >= 1
    ensures forall c :: !LeftReset(Some(Snap(s)), c, t, i)
    ensures i < |t.run.harts| ==> !(t.run.harts[i].halted && t.run.harts[i].running)
  {
    ProducedOk(s, seen, t);
    if i < |t.run.harts| {
      assert HartOk(s.params, s.run, i);
      assert HartOk(t.params, t.run, i);
    }
  }

  lemma ResetHartRules(s: Dm, seen: Seen, t: Dm, v: Violation)
    requires Ok(s) && Produced(s, seen, t) && s.params.numHarts >= 1
    requires v.HaltRunMutex? || v.HaveresetSetOnReset? || v.HaltOnReset? || v.NoHaltWithoutRequest?
    ensures !Reported(Some(Snap(s)), seen, t, v)
  {
    hide Produced, Ok, LeftReset, Request;
    NoReleaseEdge(s, seen, t, v.hart);
    if !v.HaltRunMutex? {
      hide Reported;
      ReleaseReported(Some(Snap(s)), seen, t, v);
    }
  }

  lemma ResetBitRule(s: Dm, seen: Seen, t: Dm, v: Violation)
    requires Ok(s) && Produced(s, seen, t) && v.DmResetHartBit?
    ensures !Reported(Some(Snap(s)), seen, t, v)
  {
    hide Produced, Ok, Request, ControlRun, Reported;
    ResetBitReported(Some(Snap(s)), seen, t, v);
    if Request(seen).Some? && !Request(seen).value.dmactive && v.hart < |t.run.harts| {
      DmcontrolWrite(s, seen, t);
      assert t.run.harts[v.hart] == ResetHart(s.params, false, s.run.harts, v.hart);
    }
  }

  lemma NdmresetKeepsSticky(p: Params, was: bool, now: bool, h: Hart)
    ensures var h' := NdmresetStage(p, was, now, h);
            (h.havereset ==> h'.havereset) && h'.resetHaltreq == h.resetHaltreq
  {
  }

  lemma HartresetKeepsSticky(p: Params, was: bool, now: bool, h: Hart)
    ensures var h' := HartresetStage(p, was, now, h);
            (h.havereset ==> h'.havereset) && h'.resetHaltreq == h.resetHaltreq
  {
  }

  /** The sticky bits of one hart up to its reset edges ... */
  lemma EdgesKeepSticky(p: Params, r: Run, c: Ctl, i: nat)
    requires i < |r.harts|
    ensures var h, h' := r.harts[i], AfterEdges(p, r, c, i);
            (h.havereset ==> h'.havereset) && h'.resetHaltreq == h.resetHaltreq
  {
    var h0 := r.harts[i].(nonexistent := i >= p.numHarts);
    var h1 := NdmresetStage(p, r.ndmreset, c.ndmreset, h0);
    NdmresetKeepsSticky(p, r.ndmreset, c.ndmreset, h0);
    HartresetKeepsSticky(p, r.hartresetLevel, c.hartreset && p.supportsHartreset, h1);
  }

  lemma SettleKeepsSticky(ndm: bool, h: Hart)
    ensures SettleStage(ndm, h).havereset == h.havereset && SettleStage(ndm, h).resetHaltreq == h.resetHaltreq
  {
  }

  lemma ResumeKeepsSticky(c: Ctl, step: bool, h: Hart)
    ensures ResumeStage(c, step, h).havereset == h.havereset
  {
  }

  lemma HaltKeepsSticky(p: Params, c: Ctl, h: Hart)
    ensures HaltStage(c, AckStage(p, c, h)).havereset == (h.havereset && !c.ackhavereset)
  {
  }

  /** ... and across the whole of an active dmcontrol write. */
  lemma StickyBits(p: Params, r: Run, c: Ctl, step: bool, i: nat)
    requires i < |r.harts|
    ensures var h, h' := r.harts[i], HartAfter(p, r, c, step, i);
            && (h.havereset && !(c.ackhavereset && i == c.hartsel) ==> h'.havereset)
            && (c.ackhavereset && i == c.hartsel ==> !h'.havereset)
            && (i != c.hartsel ==> h'.resetHaltreq == h.resetHaltreq)
  {
    EdgesKeepSticky(p, r, c, i);
    var h := BeforeResume(p, r, c, i);
    HaltKeepsSticky(p, c, AfterEdges(p, r, c, i));
    ResumeKeepsSticky(c, step, h);
    SettleKeepsSticky(c.ndmreset, h);
    SettleKeepsSticky(c.ndmreset, ResumeStage(c, step, h));
  }

  lemma StickyFacts(s: Dm, seen: Seen, t: Dm, i: nat)
    requires Ok(s) && Produced(s, seen, t) && i < |t.run.harts|
    ensures i < |s.run.harts|
    ensures Request(seen).None? ==> t.run.harts[i] == s.run.harts[i]
    ensures Request(seen).Some? && Request(seen).value.dmactive ==>
            var c, h, h' := Request(seen).value, s.run.harts[i], t.run.harts[i];
            && t.run.hartsel == c.hartsel
            && (h.havereset && !(c.ackhavereset && i == c.hartsel) ==> h'.havereset)
            && (c.ackhavereset && i == c.hartsel ==> !h'.havereset)
            && (i != c.hartsel ==> h'.resetHaltreq == h.resetHaltreq)
  {
    ProducedOk(s, seen, t);
    if Request(seen).Some? && Request(seen).value.dmactive {
      DmcontrolWrite(s, seen, t);
      var c, step := Request(seen).value, StepArmed(s.abs);
      assert t.run.harts[i] == HartAfter(s.params, s.run, c, step, i);
      StickyBits(s.params, s.run, c, step, i);
    }
  }

  lemma StickyRules(s: Dm, seen: Seen, t: Dm, v: Violation)
    requires Ok(s) && Produced(s, seen, t)
    requires v.HaveresetSticky? || v.AckhaveresetClears? || v.ResethaltreqPerHart?
    ensures !Reported(Some(Snap(s)), seen, t, v)
  {
    hide Produced, Ok, DecodeStatus, DecodeCtl;
    if v.hart < |t.run.harts| {
      StickyFacts(s, seen, t, v.hart);
    }
  }

  /** A halted hart under haltreq, no reset asserted: it stays halted and keeps its resume ack. */
  lemma HaltedStaysHalted(p: Params, r: Run, c: Ctl, step: bool, i: nat)
    requires RunOk(p, r) && i < p.numHarts && i == c.hartsel && r.harts[i].halted
    requires c.haltreq && !c.ndmreset && !c.hartreset
    ensures var h' := HartAfter(p, r, c, step, i);
            h'.halted && !h'.running && h'.resumeAck == r.harts[i].resumeAck
  {
    assert HartOk(p, r, i);
    EdgesMidway(p, r, c, i);
    var h := AfterEdges(p, r, c, i);
    assert !h.hartReset && h.resumeAck == r.harts[i].resumeAck;
  }

  lemma HaltRules(s: Dm, seen: Seen, t: Dm, v: Violation)
    requires Ok(s) && Produced(s, seen, t) && s.params.numHarts >= 1
    requires v.ResumereqIgnoredWhenHaltreq? || v.HaltedIgnoresHaltreq?
    ensures !Reported(Some(Snap(s)), seen, t, v)
  {
    hide Reported, Produced, Request, StepArmed, ControlRun, HartAfter;
    SelectedReported(Some(Snap(s)), seen, t, v);
    if Request(seen).Some? && SelectedReport(Some(Snap(s)), Request(seen).value, t, v) {
      ProducedOk(s, seen, t);
      SelectedHaltKept(s, seen, t);
    }
  }

  lemma SelectedHaltKept(s: Dm, seen: Seen, t: Dm)
    requires Ok(s) && Ok(t) && Produced(s, seen, t) && Request(seen).Some? && t.params == s.params
    requires var c := Request(seen).value; Acts(c, t) && c.haltreq
    requires var i := t.run.hartsel; i < s.params.numHarts && i < |s.run.harts| && s.run.harts[i].halted
    ensures var i := t.run.hartsel;
            && i < |t.run.harts| && t.run.harts[i].halted && !t.run.harts[i].running
            && t.run.harts[i].resumeAck == s.run.harts[i].resumeAck
  {
    hide Produced, StepArmed, HartAfter;
    var c, step := Request(seen).value, StepArmed(s.abs);
    DmcontrolWrite(s, seen, t);
    assert t.run.harts[c.hartsel] == HartAfter(s.params, s.run, c, step, c.hartsel);
    HaltedStaysHalted(s.params, s.run, c, step, c.hartsel);
  }

  lemma ResumeFacts(s: Dm, seen: Seen, t: Dm)
    requires Ok(s) && Produced(s, seen, t) && Request(seen).Some? && Request(seen).value.dmactive
    requires t.run.hartsel < s.params.numHarts
    ensures var i, c := t.run.hartsel, Request(seen).value;
            && |t.run.harts| == |s.run.harts| && i < |s.run.harts|
            && (LoneResume(c) <==> c.resumereq && !c.haltreq && Acts(c, t))
            && var h, h' := s.run.harts[i], t.run.harts[i];
               && !h.Unavail() && !h.nonexistent && h.running == !h.halted
               && (LoneResume(c) ==>
                     && (h'.halted <==> FindsHalted(s.run, h) && StepArmed(s.abs) && !StillHeld(s.run, h))
                     && h'.running == !h'.halted
                     && h'.resumeAck == FindsHalted(s.run, h))
               && (h.halted ==> !StillHeld(s.run, h))
  {
    var c := Request(seen).value;
    DmcontrolWrite(s, seen, t);
    assert HartOk(s.params, s.run, c.hartsel);
    if LoneResume(c) {
      LoneResumeHart(s.params, s.run, c, StepArmed(s.abs), c.hartsel);
    }
  }

  lemma ResumeRules(s: Dm, seen: Seen, t: Dm, v: Violation)
    requires Ok(s) && Produced(s, seen, t) && s.params.numHarts >= 1
    requires v.ResumereqResumesHalted? || v.RunningIgnoresResumereq? || v.ResumereqClearsAck?
    ensures Reported(Some(Snap(s)), seen, t, v) <==> Expected(s, seen, t, v)
  {
    hide Reported, Produced, Request, StepArmed, FindsHalted, StillHeld;
    SelectedReported(Some(Snap(s)), seen, t, v);
    ProducedOk(s, seen, t);
    if Request(seen).Some? && Request(seen).value.dmactive && t.run.hartsel < s.params.numHarts {
      ResumeFacts(s, seen, t);
    }
  }

  /** From every state that keeps the invariant, the checker reports exactly the expected violations. */
  lemma ExactReports(s: Dm, seen: Seen, t: Dm, v: Violation)
    requires Ok(s) && Produced(s, seen, t) && s.params.numHarts >= 1 && !v.IsStimulus()
    ensures Reported(Some(Snap(s)), seen, t, v) <==> Expected(s, seen, t, v)
  {
    hide Reported, Produced, Ok;
    ProducedOk(s, seen, t);
    match v
    case AllImpliesAny(_) => WordRules(s, seen, t, v);
    case VersionNonzero => WordRules(s, seen, t, v);
    case NdmresetpendingClear => WordRules(s, seen, t, v);
    case DmcontrolReadsZero(_) => ReadsZeroRule(s, seen, t, v);
    case DmResetField(_) => ResetFieldRule(s, seen, t, v);
    case ResumereqIgnoredWhenHaltreq(_) => HaltRules(s, seen, t, v);
    case HaltedIgnoresHaltreq(_, _) => HaltRules(s, seen, t, v);
    case ResumereqResumesHalted(_, _) => ResumeRules(s, seen, t, v);
    case RunningIgnoresResumereq(_) => ResumeRules(s, seen, t, v);
    case ResumereqClearsAck(_) => ResumeRules(s, seen, t, v);
    case HaveresetSticky(_) => StickyRules(s, seen, t, v);
    case AckhaveresetClears(_) => StickyRules(s, seen, t, v);
    case ResethaltreqPerHart(_) => StickyRules(s, seen, t, v);
    case DmResetHartBit(_, _) => ResetBitRule(s, seen, t, v);
    case _ => ResetHartRules(s, seen, t, v);
  }

  /** The operations the checker and the predictor disagree about: a Debug Module that reports
      version 0, and a lone resume of an existing hart that either was halted with dcsr.step
      shadowed, or is found halted or not only because the same write releases it from reset. */
  predicate Disagrees(s: Dm, seen: Seen, t: Dm)
  {
    var i := t.run.hartsel;
    (t.run.dmactive && !t.run.ndmreset && t.params.version % 16 == 0)
    || (Request(seen).Some? && LoneResume(Request(seen).value) && i < s.params.numHarts && i < |s.run.harts|
        && var h := s.run.harts[i];
           (h.halted && StepArmed(s.abs)) || FindsHalted(s.run, h) != h.halted)
  }

  /** Checker and model agree from every state that keeps the invariant ... */
  lemma AgreesFrom(s: Dm, seen: Seen, t: Dm)
    requires Ok(s) && Produced(s, seen, t) && s.params.numHarts >= 1
    ensures (exists v: Violation :: !v.IsStimulus() && Reported(Some(Snap(s)), seen, t, v)) <==> Disagrees(s, seen, t)
  {
    hide Reported, Produced;
    forall v: Violation | !v.IsStimulus()
      ensures Reported(Some(Snap(s)), seen, t, v) <==> Expected(s, seen, t, v)
    {
      ExactReports(s, seen, t, v);
    }
    if Disagrees(s, seen, t) {
      var i := t.run.hartsel;
      var v :=
        if t.run.dmactive && !t.run.ndmreset && t.params.version % 16 == 0 then VersionNonzero
        else if s.run.harts[i].halted then ResumereqResumesHalted(i, !FindsHalted(s.run, s.run.harts[i]))
        else ResumereqClearsAck(i);
      assert Expected(s, seen, t, v);
    }
  }

  /** ... so over every run and every next operation, except exactly there. */
  lemma CheckerAgreesWithModel(p: Params, ops: seq<Op>, seen: Seen, t: Dm)
    requires var s := After(Init(p), ops); Produced(s, seen, t) && s.params.numHarts >= 1
    ensures var s := After(Init(p), ops);
            (exists v: Violation :: !v.IsStimulus() && Reported(Some(Snap(s)), seen, t, v)) <==> Disagrees(s, seen, t)
  {
    hide Reported, Produced, After, Disagrees;
    ReachableOk(p, ops);
    AgreesFrom(After(Init(p), ops), seen, t);
  }

  /** With hartreset tied to 0 the second family is a halt pending on this ndmreset release. */
  lemma WithoutHartreset(s: Dm, i: nat)
    requires Ok(s) && !s.params.supportsHartreset && i < s.params.numHarts
    ensures FindsHalted(s.run, s.run.harts[i]) != s.run.harts[i].halted <==> s.run.ndmreset && Pending(s.run.harts[i])
  {
    assert HartOk(s.params, s.run, i);
  }
}
