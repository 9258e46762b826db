// What one dmcontrol write does to each bit of an implemented hart, and what each bit
// of dmstatus says, stated on the bits of the words alone: closed laws beside the
// stages of src/pydebug/model/predictor.py.

module HartLaws {
  import opened Bits
  import opened Registers
  import opened Words
  import opened DebugModule
  import opened RunControl

  // ---- A dmcontrol word by its bits ----

  /** Every flag of a decoded word is one bit of it. */
  lemma ControlFlags(w: nat)
    ensures var c := DecodeCtl(w);
            && c.haltreq == Bit(w, 31) && c.resumereq == Bit(w, 30) && c.hartreset == Bit(w, 29)
            && c.ackhavereset == Bit(w, 28) && c.ackunavail == Bit(w, 27) && c.hasel == Bit(w, 26)
            && c.setkeepalive == Bit(w, 5) && c.clrkeepalive == Bit(w, 4) && c.setresethaltreq == Bit(w, 3)
            && c.clrresethaltreq == Bit(w, 2) && c.ndmreset == Bit(w, 1) && c.dmactive == Bit(w, 0)
  {
    forall k: nat ensures Flag(w, k) == Bit(w, k) {
      FlagIsBit(w, k);
    }
  }

  /** The write of `w` names hart `i`: hartsello is its low ten bits and hartselhi the next ten. */
  ghost predicate Selects(w: nat, i: nat)
  {
    forall k: nat :: Bit(i, k) <==> (k < 10 && Bit(w, 16 + k)) || (10 <= k < 20 && Bit(w, k - 4))
  }

  lemma SelectsIsHartsel(w: nat, i: nat)
    ensures Selects(w, i) <==> DecodeCtl(w).hartsel == i
  {
    forall k: nat ensures Bit(HartselOf(w), k) <==> (k < 10 && Bit(w, 16 + k)) || (10 <= k < 20 && Bit(w, k - 4)) {
      HartselBit(w, k);
    }
    if Selects(w, i) {
      SameBits(HartselOf(w), i);
    }
  }

  /** ndmreset goes up, or down, in a write of `w`. */
  predicate NdmresetRises(r: Run, w: nat) { Bit(w, 1) && !r.ndmreset }
  predicate NdmresetFalls(r: Run, w: nat) { !Bit(w, 1) && r.ndmreset }

  /** The hartreset level goes up, or down, for hart `i` in a write of `w`. */
  ghost predicate HartresetRises(p: Params, r: Run, w: nat, i: nat)
  {
    Selects(w, i) && p.supportsHartreset && Bit(w, 29) && !r.hartresetLevel
  }
  ghost predicate HartresetFalls(p: Params, r: Run, w: nat, i: nat)
  {
    Selects(w, i) && !(p.supportsHartreset && Bit(w, 29)) && r.hartresetLevel
  }

  /** A reset of hart `i` begins in a write of `w`; one ends. */
  ghost predicate ResetBegins(p: Params, r: Run, w: nat, i: nat)
  {
    NdmresetRises(r, w) || HartresetRises(p, r, w, i)
  }
  ghost predicate ResetEnds(p: Params, r: Run, w: nat, i: nat)
  {
    NdmresetFalls(r, w) || HartresetFalls(p, r, w, i)
  }

  /** The write of `w` asks hart `i` to resume: resumereq without haltreq. */
  ghost predicate AsksResume(w: nat, i: nat) { Selects(w, i) && Bit(w, 30) && !Bit(w, 31) }

  /** Hart `i` is halted once the resets of the write have moved: as a halt is pending if the last of
      them to move ends, not if it begins. */
  ghost predicate MeetsHalted(p: Params, r: Run, w: nat, i: nat)
    requires i < |r.harts|
  {
    var h := r.harts[i];
    if HartresetRises(p, r, w, i) then false
    else if HartresetFalls(p, r, w, i) || NdmresetFalls(r, w) then h.resetHaltreq || h.haltRequest
    else !NdmresetRises(r, w) && h.halted
  }

  // ---- The four bits the module tracks, and havereset ----

  lemma EdgesSticky(p: Params, r: Run, w: nat, i: nat)
    requires RunOk(p, r) && i < p.numHarts
    ensures var h, h' := r.harts[i], AfterEdges(p, r, DecodeCtl(w), i);
            && h'.haltRequest == h.haltRequest && h'.resetHaltreq == h.resetHaltreq
            && !h'.nonexistent && !h'.Unavail()
            && (h'.havereset <==> h.havereset || NdmresetRises(r, w) || ResetEnds(p, r, w, i))
  {
    hide Bit, DecodeCtl;
    ControlFlags(w);
    SelectsIsHartsel(w, i);
    assert HartOk(p, r, i);
  }

  lemma EdgesLaw(p: Params, r: Run, w: nat, i: nat)
    requires RunOk(p, r) && i < p.numHarts
    ensures var h, h' := r.harts[i], AfterEdges(p, r, DecodeCtl(w), i);
            && h'.halted == MeetsHalted(p, r, w, i)
            && (h'.hartReset <==> HartresetRises(p, r, w, i) || (h.hartReset && !HartresetFalls(p, r, w, i)))
            && h'.resumeAck == (if ResetBegins(p, r, w, i) then p.resumeackReset else h.resumeAck)
  {
    hide Bit, DecodeCtl;
    ControlFlags(w);
    SelectsIsHartsel(w, i);
    assert HartOk(p, r, i);
  }

  lemma RequestsLaw(p: Params, c: Ctl, h: Hart, i: nat)
    requires Midway(p, i, h) && i < p.numHarts
    ensures var b := HaltStage(c, AckStage(p, c, h));
            && b.haltRequest == c.haltreq && b.hartReset == h.hartReset && b.resumeAck == h.resumeAck
            && b.resetHaltreq == (if p.hasresethaltreq && (c.clrresethaltreq || c.setresethaltreq)
                                  then !c.clrresethaltreq else h.resetHaltreq)
            && b.havereset == (h.havereset && !c.ackhavereset)
            && (!b.hartReset ==> b.halted == (h.halted || c.haltreq))
            && (!c.haltreq ==> b.halted == h.halted)
  {
  }

  lemma NamedEnd(p: Params, c: Ctl, step: bool, h: Hart, i: nat)
    requires Midway(p, i, h) && i < p.numHarts
    ensures var asked := c.resumereq && !c.haltreq;
            var a := SettleStage(c.ndmreset, ResumeStage(c, step, h));
            && a.haltRequest == h.haltRequest && a.hartReset == h.hartReset && a.resetHaltreq == h.resetHaltreq
            && a.havereset == h.havereset
            && a.resumeAck == (if asked then h.halted else h.resumeAck)
            && (a.halted <==> !c.ndmreset && !h.hartReset && h.halted && (asked ==> step))
            && a.running == !a.halted
            && !a.nonexistent && !a.Unavail()
  {
  }

  lemma OtherEnd(p: Params, c: Ctl, h: Hart, i: nat)
    requires Midway(p, i, h) && i < p.numHarts
    ensures var a := SettleStage(c.ndmreset, h);
            && a.haltRequest == h.haltRequest && a.hartReset == h.hartReset && a.resetHaltreq == h.resetHaltreq
            && a.havereset == h.havereset && a.resumeAck == h.resumeAck
            && (a.halted <==> !c.ndmreset && !h.hartReset && h.halted)
            && a.running == !a.halted
            && !a.nonexistent && !a.Unavail()
  {
  }

  /** Hart `i` of the state after an active dmcontrol write of `w`, each bit of it: it is halted if it
      met the write halted and was not resumed, or stepped, or was asked to halt, unless a reset holds
      it; its resume is acknowledged if it met it halted; havereset is set by a reset and outlives all
      but an acknowledgement. */
  ghost predicate WriteLaw(p: Params, r: Run, w: nat, step: bool, i: nat, h': Hart)
    requires i < |r.harts|
  {
    var h, met := r.harts[i], MeetsHalted(p, r, w, i);
    && (h'.havereset <==> (h.havereset || NdmresetRises(r, w) || ResetEnds(p, r, w, i))
                          && !(Selects(w, i) && Bit(w, 28)))
    && h'.resumeAck == (if AsksResume(w, i) then met
                        else if ResetBegins(p, r, w, i) then p.resumeackReset else h.resumeAck)
    && h'.haltRequest == (if Selects(w, i) then Bit(w, 31) else h.haltRequest)
    && h'.resetHaltreq == (if p.hasresethaltreq && Selects(w, i) && (Bit(w, 2) || Bit(w, 3)) then !Bit(w, 2)
                           else h.resetHaltreq)
    && (h'.hartReset <==> HartresetRises(p, r, w, i) || (h.hartReset && !HartresetFalls(p, r, w, i)))
    && (h'.halted <==> !Bit(w, 1) && !h'.hartReset
                       && if AsksResume(w, i) then met && step else met || (Selects(w, i) && Bit(w, 31)))
    && h'.running == !h'.halted
    && !h'.nonexistent && !h'.Unavail()
  }

  lemma HartWriteLaw(p: Params, r: Run, w: nat, step: bool, i: nat)
    requires RunOk(p, r) && i < p.numHarts
    ensures WriteLaw(p, r, w, step, i, HartAfter(p, r, DecodeCtl(w), step, i))
  {
    hide DecodeCtl, Selects, Bit, MeetsHalted, AfterEdges, AckStage, HaltStage, ResumeStage, SettleStage, Midway;
    var c := DecodeCtl(w);
    ControlFlags(w);
    SelectsIsHartsel(w, i);
    EdgesSticky(p, r, w, i);
    EdgesLaw(p, r, w, i);
    EdgesMidway(p, r, c, i);
    RequestsMidway(p, r, c, i);
    RequestsLaw(p, c, AfterEdges(p, r, c, i), i);
    NamedEnd(p, c, step, BeforeResume(p, r, c, i), i);
    OtherEnd(p, c, BeforeResume(p, r, c, i), i);
  }

  /** The law of every bit of every implemented hart across a dmcontrol write. */
  lemma DmcontrolLaw(s: Dm, w: nat, i: nat)
    requires Ok(s) && i < s.params.numHarts && Bit(w, 0)
    ensures WriteLaw(s.params, s.run, w, StepArmed(s.abs), i, OnWrite(s, DMCONTROL_ADDR, w).run.harts[i])
  {
    hide DecodeCtl, HartAfter, WriteLaw, StepArmed, Bit;
    ControlFlags(w);
    CtlMod32(w);
    DmcontrolStep(s, w);
    HartWriteLaw(s.params, s.run, w, StepArmed(s.abs), i);
  }

  /** A write that raises ndmreset: every implemented hart runs and is not halted, it shows havereset
      unless this write names it and acknowledges it, and its resume acknowledgement is the declared
      reset value unless this write asks it to resume: that is acknowledged only if it also ends a hartreset into a
      pending halt. */
  lemma RaiseLaw(s: Dm, w: nat, i: nat)
    requires Ok(s) && i < s.params.numHarts && Bit(w, 0) && Bit(w, 1) && !s.run.ndmreset
    ensures var h, h' := s.run.harts[i], OnWrite(s, DMCONTROL_ADDR, w).run.harts[i];
            && !h'.halted && h'.running
            && (h'.havereset <==> !(Selects(w, i) && Bit(w, 28)))
            && h'.resumeAck == (if Selects(w, i) && Bit(w, 30) && !Bit(w, 31)
                                then s.run.hartresetLevel && !Bit(w, 29) && (h.resetHaltreq || h.haltRequest)
                                else s.params.resumeackReset)
  {
    hide Bit, Selects, OnWrite;
    DmcontrolLaw(s, w, i);
  }

  /** A write without dmactive resets what the module tracks of a hart, and nothing of the hart itself. */
  lemma InactiveLaw(s: Dm, w: nat, i: nat)
    requires Ok(s) && i < s.params.numHarts && !Bit(w, 0)
    ensures var h, h' := s.run.harts[i], OnWrite(s, DMCONTROL_ADDR, w).run.harts[i];
            && h'.halted == h.halted && h'.running == h.running && h'.havereset == h.havereset
            && h'.resumeAck == s.params.resumeackReset
            && !h'.haltRequest && !h'.resetHaltreq && !h'.hartReset && !h'.nonexistent && !h'.Unavail()
  {
    hide DecodeCtl, Bit;
    ControlFlags(w);
    CtlMod32(w);
    DmcontrolStep(s, w);
  }

  /** In any state at all: a hart's unavailability is acknowledged only by name, and only once it is
      available; and a hart that is not available ignores halt and resume requests, and is neither halted
      nor running when ndmreset rises. */
  lemma UnavailableLaw(s: Dm, w: nat, i: nat)
    requires Shaped(s.abs) && i < |s.run.harts| && i < s.params.numHarts && Bit(w, 0)
    ensures i < |OnWrite(s, DMCONTROL_ADDR, w).run.harts|
    ensures var r, h, h' := s.run, s.run.harts[i], OnWrite(s, DMCONTROL_ADDR, w).run.harts[i];
            && h'.available == h.available
            && h'.unavailSticky == (h.unavailSticky && !(Selects(w, i) && Bit(w, 27) && h.available))
            && (!h.available && !Bit(w, 1) && !r.ndmreset && !h.hartReset
                && !HartresetRises(s.params, r, w, i) && !HartresetFalls(s.params, r, w, i) ==>
                  h'.halted == h.halted && h'.running == h.running && h'.resumeAck == h.resumeAck)
            && (!h.available && NdmresetRises(r, w) ==> !h'.halted && !h'.running)
  {
    hide DecodeCtl, Bit, Selects, StepArmed, HartAfter;
    ControlFlags(w);
    SelectsIsHartsel(w, i);
    CtlMod32(w);
    DmcontrolStep(s, w);
    UnavailableHart(s.params, s.run, DecodeCtl(w), StepArmed(s.abs), i);
  }

  lemma StagesUnavail(p: Params, was: bool, now: bool, h: Hart)
    ensures var a := NdmresetStage(p, was, now, h);
            a.available == h.available && a.unavailSticky == h.unavailSticky && a.nonexistent == h.nonexistent
    ensures var a := HartresetStage(p, was, now, h);
            a.available == h.available && a.unavailSticky == h.unavailSticky && a.nonexistent == h.nonexistent
    ensures was == now ==> NdmresetStage(p, was, now, h) == h && HartresetStage(p, was, now, h) == h
  {
  }

  lemma EdgesUnavail(p: Params, r: Run, c: Ctl, i: nat)
    requires i < |r.harts| && i < p.numHarts
    ensures var h, h' := r.harts[i], AfterEdges(p, r, c, i);
            && h'.available == h.available && h'.unavailSticky == h.unavailSticky && !h'.nonexistent
            && (c.ndmreset == r.ndmreset && (i == c.hartsel ==> (c.hartreset && p.supportsHartreset) == r.hartresetLevel) ==>
                  h' == h.(nonexistent := false))
  {
    hide NdmresetStage, HartresetStage;
    var h := r.harts[i].(nonexistent := false);
    var hr := c.hartreset && p.supportsHartreset;
    StagesUnavail(p, r.ndmreset, c.ndmreset, h);
    StagesUnavail(p, r.hartresetLevel, hr, NdmresetStage(p, r.ndmreset, c.ndmreset, h));
  }

  lemma RequestsUnavail(p: Params, c: Ctl, h: Hart)
    ensures var b := HaltStage(c, AckStage(p, c, h));
            && b.available == h.available && b.unavailSticky == (h.unavailSticky && !(c.ackunavail && h.available))
            && b.nonexistent == h.nonexistent && b.hartReset == h.hartReset && b.resumeAck == h.resumeAck
            && (!h.available ==> b.halted == h.halted && b.running == h.running)
  {
  }

  lemma EndUnavail(c: Ctl, step: bool, h: Hart)
    ensures var a := SettleStage(c.ndmreset, ResumeStage(c, step, h));
            && a.available == h.available && a.unavailSticky == h.unavailSticky
            && (!h.available && !c.ndmreset && !h.hartReset ==> a == h)
            && (!h.available && c.ndmreset ==> !a.halted && !a.running)
    ensures var a := SettleStage(c.ndmreset, h);
            && a.available == h.available && a.unavailSticky == h.unavailSticky
            && (!h.available && !c.ndmreset && !h.hartReset ==> a == h)
            && (!h.available && c.ndmreset ==> !a.halted && !a.running)
  {
  }

  lemma UnavailableHart(p: Params, r: Run, c: Ctl, step: bool, i: nat)
    requires i < |r.harts| && i < p.numHarts
    ensures var h, h' := r.harts[i], HartAfter(p, r, c, step, i);
            var hr := c.hartreset && p.supportsHartreset;
            && h'.available == h.available
            && h'.unavailSticky == (h.unavailSticky && !(i == c.hartsel && c.ackunavail && h.available))
            && (!h.available && !c.ndmreset && !r.ndmreset && !h.hartReset && (i == c.hartsel ==> hr == r.hartresetLevel) ==>
                  h'.halted == h.halted && h'.running == h.running && h'.resumeAck == h.resumeAck)
            && (!h.available && c.ndmreset && !r.ndmreset ==> !h'.halted && !h'.running)
  {
    hide AfterEdges, AckStage, HaltStage, ResumeStage, SettleStage;
    EdgesUnavail(p, r, c, i);
    RequestsUnavail(p, c, AfterEdges(p, r, c, i));
    EndUnavail(c, step, BeforeResume(p, r, c, i));
  }

  /** The levels after a dmcontrol write. */
  lemma LevelsLaw(s: Dm, w: nat)
    requires Ok(s)
    ensures var r, r' := s.run, OnWrite(s, DMCONTROL_ADDR, w).run;
            && r'.dmactive == Bit(w, 0) && r'.ndmreset == (Bit(w, 0) && Bit(w, 1))
            && r'.hartresetLevel == (Bit(w, 0) && Bit(w, 29) && s.params.supportsHartreset)
            && r'.hasel == (Bit(w, 0) && Bit(w, 26) && s.params.supportsHasel)
            && (if Bit(w, 0) then Selects(w, r'.hartsel) else r'.hartsel == 0)
  {
    hide DecodeCtl, Bit, Selects;
    ControlFlags(w);
    SelectsIsHartsel(w, DecodeCtl(w).hartsel);
    CtlMod32(w);
    DmcontrolStep(s, w);
  }

  // ---- dmstatus, bit by bit ----

  /** The position of each one-bit field of a decoded dmstatus word. */
  lemma StatusFlags(w: nat)
    ensures var f := DecodeStatus(w);
            && f.ndmresetpending == Bit(w, 24) && f.stickyunavail == Bit(w, 23) && f.impebreak == Bit(w, 22)
            && f.allhavereset == Bit(w, 19) && f.anyhavereset == Bit(w, 18)
            && f.allresumeack == Bit(w, 17) && f.anyresumeack == Bit(w, 16)
            && f.allnonexistent == Bit(w, 15) && f.anynonexistent == Bit(w, 14)
            && f.allunavail == Bit(w, 13) && f.anyunavail == Bit(w, 12)
            && f.allrunning == Bit(w, 11) && f.anyrunning == Bit(w, 10)
            && f.allhalted == Bit(w, 9) && f.anyhalted == Bit(w, 8)
            && f.authenticated == Bit(w, 7) && f.authbusy == Bit(w, 6)
            && f.hasresethaltreq == Bit(w, 5) && f.confstrptrvalid == Bit(w, 4)
  {
    forall k: nat ensures Flag(w, k) == Bit(w, k) {
      FlagIsBit(w, k);
    }
  }

  lemma StatusVersionBit(w: nat, k: nat)
    ensures k < 4 ==> (Bit(DecodeStatus(w).version, k) <==> Bit(w, k))
  {
    BitExtract(w, 0, 4, k);
  }

  lemma StatusElsewhere(st: Status, k: nat)
    requires k > 24 || k == 20 || k == 21
    ensures !Bit(EncodeStatus(st), k)
  {
    hide DMSTATUS, StatusValues, Encoded, Bit;
    var fields, values := DMSTATUS.fields, StatusValues(st);
    DmstatusDisjoint();
    DmstatusNames();
    StatusAligned(st);
    EncodedBit(fields, values, k);
    forall j | 0 <= j < |values| ensures !ValueSetsBit(fields, values[j], k) {
      LookupAt(fields, j);
      StatusUncovered(j, k);
    }
  }

  lemma StatusUncovered(j: nat, k: nat)
    requires j < |DMSTATUS.fields| && (k > 24 || k == 20 || k == 21)
    ensures !DMSTATUS.fields[j].Covers(k)
  {
  }

  /** The selected hart as dmstatus reports it; with none there, one that shows nothing. */
  function Shown(s: Dm): Hart
  {
    if s.run.hartsel < |s.run.harts| then s.run.harts[s.run.hartsel]
    else Hart(false, false, false, false, false, false, false, true, false, false)
  }

  /** The bits of dmstatus that speak of the selected hart. */
  lemma DmstatusHartBits(s: Dm)
    requires Shaped(s.abs)
    ensures var w, h := Predict(s, DMSTATUS_ADDR), Shown(s);
            && Bit(w, 19) == Bit(w, 18) == h.havereset && Bit(w, 17) == Bit(w, 16) == h.resumeAck
            && Bit(w, 15) == Bit(w, 14) == (s.run.hartsel >= s.params.numHarts)
            && Bit(w, 13) == Bit(w, 12) == (h.unavailSticky || !h.available)
            && Bit(w, 11) == Bit(w, 10) == h.running && Bit(w, 9) == Bit(w, 8) == h.halted
  {
    hide EncodeStatus, DecodeStatus, Bit, Haltsum, Haltsum0;
    StatusRoundTrip(SelectedStatus(s));
    StatusFlags(EncodeStatus(SelectedStatus(s)));
  }

  /** The bits of dmstatus that speak of the module; the rest read 0. */
  lemma DmstatusModuleBits(s: Dm, k: nat)
    requires Shaped(s.abs)
    ensures var w, p := Predict(s, DMSTATUS_ADDR), s.params;
            && Bit(w, 24) == (s.run.ndmreset && p.version >= 3) && Bit(w, 23) == p.stickyunavail
            && Bit(w, 22) == p.impebreak && Bit(w, 7) == p.authenticated && Bit(w, 5) == p.hasresethaltreq
            && (k < 4 ==> Bit(w, k) == Bit(p.version, k))
            && (k > 24 || k == 21 || k == 20 || k == 6 || k == 4 ==> !Bit(w, k))
  {
    hide EncodeStatus, DecodeStatus, Bit, Haltsum, Haltsum0;
    var st := SelectedStatus(s);
    StatusRoundTrip(st);
    StatusFlags(EncodeStatus(st));
    RecordVersion(st, k);
    if k > 24 || k == 20 || k == 21 {
      StatusElsewhere(st, k);
    }
  }

  lemma RecordVersion(st: Status, k: nat)
    ensures k < 4 ==> (Bit(EncodeStatus(st), k) <==> Bit(st.version, k))
  {
    hide EncodeStatus, DecodeStatus, Bit, Low, Pow2;
    StatusRoundTrip(st);
    StatusVersionBit(EncodeStatus(st), k);
    LowVersion(st.version);
    BitLow(st.version, 4, k);
  }
}
