// What the rules of src/pydebug/model/invariants.py say of arbitrary read-backs and
// arbitrary states before and after, in terms of the bits of the words and the states
// alone: for each rule exactly when it reports, and what conforming traffic passes.

module RuleMeaning {
  import opened Bits
  import opened Registers
  import opened Words
  import opened DebugModule
  import opened HartLaws
  import opened Rules

  // ---- Words read back ----

  /** The operation is a dmstatus read whose value came back; the same for dmcontrol. */
  predicate StatusReadBack(seen: Seen) { !seen.isWrite && seen.addr == 0x11 && seen.readback.Some? }
  predicate ControlReadBack(seen: Seen) { !seen.isWrite && seen.addr == 0x10 && seen.readback.Some? }

  /** The position of the upper bit of an all/any pair; the lower one is next to it. */
  function UpperBit(pair: Pair): (k: nat)
    ensures k >= 1
  {
    match pair
    case HaveresetPair => 19
    case ResumeackPair => 17
    case NonexistentPair => 15
    case UnavailPair => 13
    case RunningPair => 11
    case HaltedPair => 9
  }

  /** Whatever the state, a dmstatus read-back breaks an all/any pair exactly if the upper bit is set
      and the lower is clear. */
  lemma PairReported(prev: Option<Snapshot>, seen: Seen, post: Dm, pair: Pair)
    requires StatusReadBack(seen)
    ensures Reported(prev, seen, post, AllImpliesAny(pair)) <==>
            Bit(seen.readback.value, UpperBit(pair)) && !Bit(seen.readback.value, UpperBit(pair) - 1)
  {
    hide DecodeStatus, Bit, ExpectDmstatus;
    StatusFlags(seen.readback.value);
  }

  /** So no word is reported whose pair says of a non-empty selection whether all its harts are in a
      state and whether any is. */
  lemma GenuinePairPasses(prev: Option<Snapshot>, seen: Seen, post: Dm, pair: Pair, selected: set<nat>, inState: set<nat>)
    requires StatusReadBack(seen) && selected != {}
    requires Bit(seen.readback.value, UpperBit(pair)) <==> selected <= inState
    requires Bit(seen.readback.value, UpperBit(pair) - 1) <==> selected * inState != {}
    ensures !Reported(prev, seen, post, AllImpliesAny(pair))
  {
    hide Reported, Bit;
    PairReported(prev, seen, post, pair);
    var i :| i in selected;
    assert selected <= inState ==> i in selected * inState;
  }

  /** A dmstatus read-back of version 0 is reported while the module is active and out of ndmreset ... */
  lemma VersionReported(prev: Option<Snapshot>, seen: Seen, post: Dm)
    requires StatusReadBack(seen)
    ensures Reported(prev, seen, post, VersionNonzero) <==>
            post.run.dmactive && !post.run.ndmreset && seen.readback.value % 16 == 0
  {
    hide Bit, ExpectDmstatus;
    ExtractIsDivMod(seen.readback.value, 0, 4);
    assert Pow2(0) == 1 && Pow2(4) == 16;
  }

  /** ... and one without ndmresetpending while ndmreset is asserted, from version 1.0 on. */
  lemma PendingReported(prev: Option<Snapshot>, seen: Seen, post: Dm)
    requires StatusReadBack(seen)
    ensures Reported(prev, seen, post, NdmresetpendingClear) <==>
            post.params.version >= 3 && post.run.ndmreset && !Bit(seen.readback.value, 24)
  {
    hide DecodeStatus, Bit, ExpectDmstatus;
    StatusFlags(seen.readback.value);
  }

  /** Without a dmstatus read-back the predicted word is judged: only its version can be wrong. */
  lemma PredictionReported(prev: Option<Snapshot>, seen: Seen, post: Dm, v: Violation)
    requires !StatusReadBack(seen) && (v.AllImpliesAny? || v.VersionNonzero? || v.NdmresetpendingClear?)
    ensures Reported(prev, seen, post, v) <==>
            v.VersionNonzero? && post.run.dmactive && !post.run.ndmreset && post.params.version % 16 == 0
  {
    hide DecodeStatus, EncodeStatus, Bit;
    StatusRoundTrip(SelectedStatus(post));
  }

  /** The write-only fields of dmcontrol and where they are. */
  function WriteOnlyAt(field: Name): Option<nat>
  {
    match field
    case haltreq => Some(31)
    case resumereq => Some(30)
    case ackhavereset => Some(28)
    case ackunavail => Some(27)
    case setkeepalive => Some(5)
    case clrkeepalive => Some(4)
    case setresethaltreq => Some(3)
    case clrresethaltreq => Some(2)
    case _ => None
  }

  lemma FlagField(w: nat, k: nat)
    ensures Extract(w, k, 1) != 0 <==> Bit(w, k)
  {
    FlagIsBit(w, k);
    LowBound(Shr(w, k), 1);
    assert Pow2(1) == 2;
  }

  lemma WriteOnlyFields(field: Name, i: nat)
    requires FieldAt(field, i)
    ensures DMCONTROL.fields[i].ReadsZero() <==> WriteOnlyAt(field).Some?
    ensures WriteOnlyAt(field).Some? ==>
              DMCONTROL.fields[i].lsb == WriteOnlyAt(field).value && DMCONTROL.fields[i].width == 1
  {
  }

  lemma WriteOnlyDeclared(field: Name)
    ensures WriteOnlyAt(field).Some? ==> exists i: nat :: FieldAt(field, i)
  {
    match field
    case haltreq => assert FieldAt(field, 0);
    case resumereq => assert FieldAt(field, 1);
    case ackhavereset => assert FieldAt(field, 3);
    case ackunavail => assert FieldAt(field, 4);
    case setkeepalive => assert FieldAt(field, 8);
    case clrkeepalive => assert FieldAt(field, 9);
    case setresethaltreq => assert FieldAt(field, 10);
    case clrresethaltreq => assert FieldAt(field, 11);
    case _ =>
  }

  lemma SetWriteOnly(w: nat, field: Name)
    ensures ReadsZeroReport(w, DmcontrolReadsZero(field)) <==>
            WriteOnlyAt(field).Some? && Bit(w, WriteOnlyAt(field).value)
  {
    hide Bit, Extract, WriteOnlyAt, DMCONTROL;
    WriteOnlyDeclared(field);
    forall i: nat | FieldAt(field, i)
      ensures DMCONTROL.fields[i].ReadsZero() && DMCONTROL.fields[i].Get(w) != 0 <==>
              WriteOnlyAt(field).Some? && Bit(w, WriteOnlyAt(field).value)
    {
      WriteOnlyFields(field, i);
      if WriteOnlyAt(field).Some? {
        FlagField(w, WriteOnlyAt(field).value);
      }
    }
  }

  /** A dmcontrol read-back is reported for exactly the write-only fields it shows set. */
  lemma ReadsZeroReported(prev: Option<Snapshot>, seen: Seen, post: Dm, field: Name)
    ensures Reported(prev, seen, post, DmcontrolReadsZero(field)) <==>
            ControlReadBack(seen) && WriteOnlyAt(field).Some? && Bit(seen.readback.value, WriteOnlyAt(field).value)
  {
    hide Bit, ReadsZeroReport, WriteOnlyAt, ExpectDmstatus;
    if ControlReadBack(seen) {
      SetWriteOnly(seen.readback.value, field);
    }
  }

  // ---- The state, and what is asked ----

  /** The word of a dmcontrol write. */
  function Asked(seen: Seen): Option<nat>
  {
    if seen.isWrite && seen.addr == 0x10 then seen.data else None
  }

  lemma AskedIsRequest(seen: Seen)
    ensures Request(seen) == match Asked(seen) case None => None case Some(w) => Some(DecodeCtl(w))
  {
  }

  /** A hart both halted and running is reported, whatever the operation. */
  lemma BothReported(prev: Option<Snapshot>, seen: Seen, post: Dm, i: nat)
    ensures Reported(prev, seen, post, HaltRunMutex(i)) <==>
            i < |post.run.harts| && post.run.harts[i].halted && post.run.harts[i].running
  {
  }

  /** Under ndmreset every access but to dmcontrol and dmstatus is reported. */
  lemma UndefinedAccessReported(prev: Option<Snapshot>, seen: Seen, post: Dm, addr: nat)
    ensures Reported(prev, seen, post, StimulusDuringNdmreset(addr)) <==>
            post.run.ndmreset && addr == seen.addr && addr != 0x10 && addr != 0x11
  {
  }

  /** The bits of which one write may set at most one. */
  predicate Exclusive(k: nat) { k == 30 || k == 29 || k == 28 || k == 3 || k == 2 }

  lemma SeveralFlags(w: nat)
    ensures MutexCount(DecodeCtl(w)) > 1 <==>
            (exists j: nat, k: nat :: j != k && Exclusive(j) && Exclusive(k) && Bit(w, j) && Bit(w, k))
  {
    hide DecodeCtl, Bit;
    ControlFlags(w);
    assert Exclusive(30) && Exclusive(29) && Exclusive(28) && Exclusive(3) && Exclusive(2);
    if MutexCount(DecodeCtl(w)) > 1 {
      if Bit(w, 30) {
        assert Bit(w, 29) || Bit(w, 28) || Bit(w, 3) || Bit(w, 2);
      } else if Bit(w, 29) {
        assert Bit(w, 28) || Bit(w, 3) || Bit(w, 2);
      } else if Bit(w, 28) {
        assert Bit(w, 3) || Bit(w, 2);
      } else {
        assert Bit(w, 3) && Bit(w, 2);
      }
    }
  }

  /** A dmcontrol write is reported for two of the exclusive bits, and for no fewer. */
  lemma SeveralReported(prev: Option<Snapshot>, seen: Seen, post: Dm)
    ensures Reported(prev, seen, post, StimulusMutex) <==>
            Asked(seen).Some?
            && exists j: nat, k: nat ::
                 j != k && Exclusive(j) && Exclusive(k) && Bit(Asked(seen).value, j) && Bit(Asked(seen).value, k)
  {
    hide DecodeCtl, Bit, MutexCount;
    if Asked(seen).Some? {
      SeveralFlags(Asked(seen).value);
    }
  }

  // ---- havereset ----

  /** havereset of hart `i` before and after the operation, if both are known. */
  predicate Lost(prev: Option<Snapshot>, post: Dm, i: nat)
  {
    i < |post.run.harts| && prev.Some? && i < |prev.value| && prev.value[i].havereset && !post.run.harts[i].havereset
  }

  /** A lost havereset is reported unless the write resets the module or acknowledges that very hart. */
  lemma LostReported(prev: Option<Snapshot>, seen: Seen, post: Dm, i: nat)
    ensures Reported(prev, seen, post, HaveresetSticky(i)) <==>
            Lost(prev, post, i)
            && (Asked(seen).Some? ==> var w := Asked(seen).value; Bit(w, 0) && !(Bit(w, 28) && i == post.run.hartsel))
  {
    hide DecodeCtl, Bit;
    if Asked(seen).Some? {
      ControlFlags(Asked(seen).value);
    }
  }

  /** An acknowledgement that leaves havereset of the selected hart set is reported. */
  lemma UnclearedReported(prev: Option<Snapshot>, seen: Seen, post: Dm, i: nat)
    ensures Reported(prev, seen, post, AckhaveresetClears(i)) <==>
            Asked(seen).Some? && Bit(Asked(seen).value, 0) && Bit(Asked(seen).value, 28)
            && i == post.run.hartsel && i < |post.run.harts| && post.run.harts[i].havereset
  {
    hide DecodeCtl, Bit;
    if Asked(seen).Some? {
      ControlFlags(Asked(seen).value);
    }
  }

  // ---- The run state of the selected hart ----

  /** An active dmcontrol write under which no reset is asserted, and which finds the selected hart
      known, present and available. */
  predicate Judged(prev: Option<Snapshot>, seen: Seen, post: Dm)
  {
    var i := post.run.hartsel;
    && Asked(seen).Some? && Bit(Asked(seen).value, 0)
    && !Bit(Asked(seen).value, 1) && !post.run.ndmreset && !Bit(Asked(seen).value, 29) && !post.run.hartresetLevel
    && i < |post.run.harts| && prev.Some? && i < |prev.value| && !prev.value[i].nonexistent && !prev.value[i].unavail
  }

  lemma JudgedIsTracked(prev: Option<Snapshot>, seen: Seen, post: Dm)
    ensures Judged(prev, seen, post) <==>
            Request(seen).Some? && Acts(Request(seen).value, post) && Tracked(prev, post, post.run.hartsel)
  {
    hide DecodeCtl, Bit;
    if Asked(seen).Some? {
      ControlFlags(Asked(seen).value);
    }
  }

  lemma SelectedRules(prev: Option<Snapshot>, seen: Seen, post: Dm, v: Violation)
    requires v.ResumereqIgnoredWhenHaltreq? || v.HaltedIgnoresHaltreq? || v.ResumereqResumesHalted?
             || v.RunningIgnoresResumereq? || v.ResumereqClearsAck?
    ensures Reported(prev, seen, post, v) <==> Request(seen).Some? && SelectedReport(prev, Request(seen).value, post, v)
  {
    hide SelectedReport, Request;
  }

  /** haltreq on a halted hart: each way it can fail to stay as it was. */
  lemma HaltreqReported(prev: Option<Snapshot>, seen: Seen, post: Dm, i: nat, ackChanged: bool)
    ensures Reported(prev, seen, post, HaltedIgnoresHaltreq(i, ackChanged)) <==>
            Judged(prev, seen, post) && i == post.run.hartsel && Bit(Asked(seen).value, 31) && prev.value[i].halted
            && (var was, now := prev.value[i], post.run.harts[i];
                if ackChanged then now.resumeAck != was.resumeAck else !now.halted || now.running)
    ensures Reported(prev, seen, post, ResumereqIgnoredWhenHaltreq(i)) <==>
            Judged(prev, seen, post) && i == post.run.hartsel && Bit(Asked(seen).value, 31)
            && Bit(Asked(seen).value, 30) && prev.value[i].halted && !post.run.harts[i].halted
  {
    hide Reported, DecodeCtl, Bit, Judged, Acts;
    SelectedRules(prev, seen, post, HaltedIgnoresHaltreq(i, ackChanged));
    SelectedRules(prev, seen, post, ResumereqIgnoredWhenHaltreq(i));
    JudgedIsTracked(prev, seen, post);
    if Asked(seen).Some? {
      ControlFlags(Asked(seen).value);
    }
  }

  /** A resume of a halted hart: it did not resume, or it did and was not acknowledged. */
  lemma ResumeReported(prev: Option<Snapshot>, seen: Seen, post: Dm, i: nat, ackMissing: bool)
    ensures Reported(prev, seen, post, ResumereqResumesHalted(i, ackMissing)) <==>
            Judged(prev, seen, post) && i == post.run.hartsel && !Bit(Asked(seen).value, 31)
            && Bit(Asked(seen).value, 30) && prev.value[i].halted
            && (var now := post.run.harts[i];
                if ackMissing then !now.halted && now.running && !now.resumeAck else now.halted || !now.running)
  {
    hide Reported, DecodeCtl, Bit, Judged, Acts;
    SelectedRules(prev, seen, post, ResumereqResumesHalted(i, ackMissing));
    JudgedIsTracked(prev, seen, post);
    if Asked(seen).Some? {
      ControlFlags(Asked(seen).value);
    }
  }

  /** A resume of a running hart: it did not keep running, or it is acknowledged. */
  lemma RunningReported(prev: Option<Snapshot>, seen: Seen, post: Dm, i: nat)
    ensures var asked := Judged(prev, seen, post) && i == post.run.hartsel && !Bit(Asked(seen).value, 31)
                         && Bit(Asked(seen).value, 30) && !prev.value[i].halted && prev.value[i].running;
            && (Reported(prev, seen, post, RunningIgnoresResumereq(i)) <==>
                  asked && (post.run.harts[i].halted || !post.run.harts[i].running))
            && (Reported(prev, seen, post, ResumereqClearsAck(i)) <==> asked && post.run.harts[i].resumeAck)
  {
    hide Reported, DecodeCtl, Bit, Judged, Acts;
    SelectedRules(prev, seen, post, RunningIgnoresResumereq(i));
    SelectedRules(prev, seen, post, ResumereqClearsAck(i));
    JudgedIsTracked(prev, seen, post);
    if Asked(seen).Some? {
      ControlFlags(Asked(seen).value);
    }
  }

  /** What section 3.5 asks of the selected hart across the write of `w`: a halted hart ignores a halt
      request; a halted hart resumes and acknowledges; a running hart ignores a resume, and its
      acknowledgement is cleared. */
  predicate Conforms(w: nat, was: HartSnap, now: Hart)
  {
    if Bit(w, 31) then was.halted ==> now.halted && !now.running && now.resumeAck == was.resumeAck
    else if !Bit(w, 30) then true
    else if was.halted then !now.halted && now.running && now.resumeAck
    else was.running ==> !now.halted && now.running && !now.resumeAck
  }

  predicate OfSelected(v: Violation)
  {
    v.ResumereqIgnoredWhenHaltreq? || v.HaltedIgnoresHaltreq? || v.ResumereqResumesHalted?
    || v.RunningIgnoresResumereq? || v.ResumereqClearsAck?
  }

  /** A transition of the selected hart is reported exactly if it does not conform. */
  lemma SelectedConforms(prev: Option<Snapshot>, seen: Seen, post: Dm)
    ensures (exists v: Violation :: OfSelected(v) && Reported(prev, seen, post, v)) <==>
            Judged(prev, seen, post)
            && !Conforms(Asked(seen).value, prev.value[post.run.hartsel], post.run.harts[post.run.hartsel])
  {
    hide Reported, Bit;
    var i := post.run.hartsel;
    forall v: Violation | OfSelected(v) && Reported(prev, seen, post, v)
      ensures Judged(prev, seen, post) && !Conforms(Asked(seen).value, prev.value[i], post.run.harts[i])
    {
      EachSelected(prev, seen, post, v);
    }
    if Judged(prev, seen, post) {
      HaltreqReported(prev, seen, post, i, false);
      HaltreqReported(prev, seen, post, i, true);
      ResumeReported(prev, seen, post, i, false);
      ResumeReported(prev, seen, post, i, true);
      RunningReported(prev, seen, post, i);
      assert OfSelected(HaltedIgnoresHaltreq(i, false)) && OfSelected(HaltedIgnoresHaltreq(i, true));
      assert OfSelected(ResumereqResumesHalted(i, false)) && OfSelected(ResumereqResumesHalted(i, true));
      assert OfSelected(RunningIgnoresResumereq(i)) && OfSelected(ResumereqClearsAck(i));
    }
  }

  lemma EachSelected(prev: Option<Snapshot>, seen: Seen, post: Dm, v: Violation)
    requires OfSelected(v) && Reported(prev, seen, post, v)
    ensures Judged(prev, seen, post)
    ensures !Conforms(Asked(seen).value, prev.value[post.run.hartsel], post.run.harts[post.run.hartsel])
  {
    hide Reported, Judged, Bit;
    match v
    case HaltedIgnoresHaltreq(i, b) => HaltreqReported(prev, seen, post, i, b);
    case ResumereqIgnoredWhenHaltreq(i) => HaltreqReported(prev, seen, post, i, false);
    case ResumereqResumesHalted(i, b) => ResumeReported(prev, seen, post, i, b);
    case RunningIgnoresResumereq(i) => RunningReported(prev, seen, post, i);
    case ResumereqClearsAck(i) => RunningReported(prev, seen, post, i);
    case _ =>
  }

  // ---- Leaving reset ----

  /** Hart `i` was neither halted nor running before an active dmcontrol write, and is one of them after it. */
  predicate Released(prev: Option<Snapshot>, seen: Seen, post: Dm, i: nat)
  {
    && Asked(seen).Some? && Bit(Asked(seen).value, 0)
    && i < |post.run.harts| && prev.Some? && i < |prev.value| && !post.run.harts[i].nonexistent
    && !prev.value[i].halted && !prev.value[i].running && (post.run.harts[i].halted || post.run.harts[i].running)
  }

  /** Each wrong way out of reset: havereset not set, not halted on a request, halted on none. */
  lemma ReleaseReported(prev: Option<Snapshot>, seen: Seen, post: Dm, i: nat)
    ensures Reported(prev, seen, post, HaveresetSetOnReset(i)) <==>
            Released(prev, seen, post, i) && !post.run.harts[i].havereset
    ensures Reported(prev, seen, post, HaltOnReset(i)) <==>
            Released(prev, seen, post, i) && !post.run.harts[i].halted
            && (prev.value[i].resetHaltreq || post.run.harts[i].resetHaltreq || post.run.harts[i].haltRequest)
    ensures Reported(prev, seen, post, NoHaltWithoutRequest(i)) <==>
            Released(prev, seen, post, i) && post.run.harts[i].halted
            && !prev.value[i].resetHaltreq && !post.run.harts[i].resetHaltreq && !post.run.harts[i].haltRequest
  {
    hide DecodeCtl, Bit;
    if Asked(seen).Some? {
      ControlFlags(Asked(seen).value);
    }
  }

  // ---- Harts not selected, and the reset of the module ----

  /** set or clrresethaltreq that moves the bit of a hart not selected is reported. */
  lemma OtherHartReported(prev: Option<Snapshot>, seen: Seen, post: Dm, i: nat)
    ensures Reported(prev, seen, post, ResethaltreqPerHart(i)) <==>
            Asked(seen).Some? && Bit(Asked(seen).value, 0) && (Bit(Asked(seen).value, 3) || Bit(Asked(seen).value, 2))
            && i < |post.run.harts| && prev.Some? && i < |prev.value| && i != post.run.hartsel
            && post.run.harts[i].resetHaltreq != prev.value[i].resetHaltreq
  {
    hide DecodeCtl, Bit;
    if Asked(seen).Some? {
      ControlFlags(Asked(seen).value);
    }
  }

  /** A request bit left standing by a write of dmactive=0 is reported. */
  lemma RequestBitReported(prev: Option<Snapshot>, seen: Seen, post: Dm, i: nat)
    ensures var reset := Asked(seen).Some? && !Bit(Asked(seen).value, 0) && i < |post.run.harts|;
            && (Reported(prev, seen, post, DmResetHartBit(i, true)) <==> reset && post.run.harts[i].resetHaltreq)
            && (Reported(prev, seen, post, DmResetHartBit(i, false)) <==> reset && post.run.harts[i].haltRequest)
  {
    hide DecodeCtl, Bit;
    if Asked(seen).Some? {
      ControlFlags(Asked(seen).value);
    }
  }

  /** A dmcontrol field that a reset of the module must clear is not clear in the state. */
  predicate LeftSet(field: Name, post: Dm)
  {
    match field
    case hartreset => post.run.hartresetLevel && post.params.supportsHartreset
    case hasel => post.run.hasel
    case ndmreset => post.run.ndmreset
    case hartsello => post.run.hartsel % 1024 != 0
    case hartselhi => (post.run.hartsel / 1024) % 1024 != 0
    case _ => false
  }

  lemma LeftSetField(post: Dm, i: nat)
    requires i < |DMCONTROL.fields| && DMCONTROL.fields[i].name != Name.dmactive
    requires DMCONTROL.fields[i].reset.Some? && !DMCONTROL.fields[i].ReadsZero()
    ensures DMCONTROL.fields[i].Get(ExpectDmcontrol(post)) != DMCONTROL.fields[i].reset.value <==>
            LeftSet(DMCONTROL.fields[i].name, post)
  {
    hide ReadbackWord, Bit, Extract;
    var w := ExpectDmcontrol(post);
    match i
    case 2 => LeftSetFlag(post, 29);
    case 5 => LeftSetFlag(post, 26);
    case 6 => LeftSetIndex(post);
    case 7 => LeftSetIndex(post);
    case 12 => LeftSetFlag(post, 1);
    case _ =>
  }

  lemma LeftSetFlag(post: Dm, k: nat)
    requires k == 29 || k == 26 || k == 1
    ensures Extract(ExpectDmcontrol(post), k, 1) != 0 <==>
            LeftSet(if k == 29 then Name.hartreset else if k == 26 then Name.hasel else Name.ndmreset, post)
  {
    hide ReadbackWord, Bit, Extract;
    var r := post.run;
    FlagField(ExpectDmcontrol(post), k);
    ReadbackBit(r.dmactive, r.ndmreset, r.hasel, r.hartresetLevel && post.params.supportsHartreset, r.hartsel, k);
  }

  lemma LeftSetIndex(post: Dm)
    ensures Extract(ExpectDmcontrol(post), 16, 10) == post.run.hartsel % 1024
    ensures Extract(ExpectDmcontrol(post), 6, 10) == (post.run.hartsel / 1024) % 1024
  {
    hide ReadbackWord, Bit, Extract, Low;
    var r, w := post.run, ExpectDmcontrol(post);
    forall k: nat
      ensures Bit(Extract(w, 16, 10), k) <==> Bit(Extract(r.hartsel, 0, 10), k)
      ensures Bit(Extract(w, 6, 10), k) <==> Bit(Extract(r.hartsel, 10, 10), k)
    {
      BitExtract(w, 16, 10, k);
      BitExtract(w, 6, 10, k);
      BitExtract(r.hartsel, 0, 10, k);
      BitExtract(r.hartsel, 10, 10, k);
      if k < 10 {
        ReadbackBit(r.dmactive, r.ndmreset, r.hasel, r.hartresetLevel && post.params.supportsHartreset, r.hartsel, 16 + k);
        ReadbackBit(r.dmactive, r.ndmreset, r.hasel, r.hartresetLevel && post.params.supportsHartreset, r.hartsel, 6 + k);
      }
    }
    SameBits(Extract(w, 16, 10), Extract(r.hartsel, 0, 10));
    SameBits(Extract(w, 6, 10), Extract(r.hartsel, 10, 10));
    ExtractIsDivMod(r.hartsel, 0, 10);
    ExtractIsDivMod(r.hartsel, 10, 10);
    assert Pow2(0) == 1 && Pow2(10) == 1024;
  }

  lemma LeftSetDeclared(field: Name, post: Dm)
    ensures LeftSet(field, post) ==>
              exists i: nat :: FieldAt(field, i) && DMCONTROL.fields[i].reset.Some? && !DMCONTROL.fields[i].ReadsZero()
  {
    if LeftSet(field, post) {
      var i := if field == Name.hartreset then 2 else if field == Name.hasel then 5
               else if field == Name.hartsello then 6 else if field == Name.hartselhi then 7 else 12;
      assert FieldAt(field, i);
    }
  }

  /** After a write of dmactive=0 exactly the fields with a reset value that are left set are reported. */
  lemma ResetFieldReported(prev: Option<Snapshot>, seen: Seen, post: Dm, field: Name)
    ensures Reported(prev, seen, post, DmResetField(field)) <==>
            Asked(seen).Some? && !Bit(Asked(seen).value, 0) && LeftSet(field, post)
  {
    hide DecodeCtl, Bit, ExpectDmcontrol, ExpectDmstatus, LeftSet;
    assert field == Name.dmactive ==> !LeftSet(field, post) by { NotActive(post); }
    if Asked(seen).Some? {
      ControlFlags(Asked(seen).value);
    }
    LeftSetDeclared(field, post);
    forall i: nat | FieldAt(field, i) && DMCONTROL.fields[i].reset.Some? && !DMCONTROL.fields[i].ReadsZero()
                    && field != Name.dmactive
      ensures DMCONTROL.fields[i].Get(ExpectDmcontrol(post)) != DMCONTROL.fields[i].reset.value <==>
              LeftSet(field, post)
    {
      LeftSetField(post, i);
    }
  }

  lemma NotActive(post: Dm)
    ensures !LeftSet(Name.dmactive, post)
  {
  }
}
