// check_all of src/pydebug/model/invariants.py in its own form: rules that append
// to a shared list, in loops over the harts. It reports exactly what Rules says.

module Checker {
  import opened Bits
  import opened Registers
  import opened Words
  import opened DebugModule
  import opened Rules
  import opened Predictor

  const PAIRS: seq<Pair> := [HaveresetPair, ResumeackPair, NonexistentPair, UnavailPair, RunningPair, HaltedPair]

  method HaltedRunningMutex(s: Dm) returns (out: seq<Violation>)
    ensures forall v ::
      v in out <==> (v.HaltRunMutex? && v.hart < |s.run.harts| && s.run.harts[v.hart].halted && s.run.harts[v.hart].running)
  {
    out := [];
    for i := 0 to |s.run.harts|
      invariant forall v ::
        v in out <==> (v.HaltRunMutex? && v.hart < i && s.run.harts[v.hart].halted && s.run.harts[v.hart].running)
    {
      if s.run.harts[i].halted && s.run.harts[i].running {
        out := out + [HaltRunMutex(i)];
      }
    }
  }

  lemma EveryPair()
    ensures forall p: Pair :: p in PAIRS[..|PAIRS|]
  {
    assert PAIRS[..|PAIRS|] == PAIRS;
    forall p: Pair ensures p in PAIRS {
      match p
      case HaveresetPair => assert PAIRS[0] == p;
      case ResumeackPair => assert PAIRS[1] == p;
      case NonexistentPair => assert PAIRS[2] == p;
      case UnavailPair => assert PAIRS[3] == p;
      case RunningPair => assert PAIRS[4] == p;
      case HaltedPair => assert PAIRS[5] == p;
    }
  }

  method CheckDmstatusWord(word: nat, s: Dm) returns (out: seq<Violation>)
    ensures forall v :: v in out <==> WordReport(word, s, v)
  {
    hide DecodeStatus;
    var f := DecodeStatus(word);
    out := [];
    for n := 0 to |PAIRS|
      invariant forall v ::
        v in out <==> (v.AllImpliesAny? && v.pair in PAIRS[..n] && AllBit(f, v.pair) && !AnyBit(f, v.pair))
    {
      assert PAIRS[..n + 1] == PAIRS[..n] + [PAIRS[n]];
      if AllBit(f, PAIRS[n]) && !AnyBit(f, PAIRS[n]) {
        out := out + [AllImpliesAny(PAIRS[n])];
      }
    }
    EveryPair();
    if s.run.dmactive && !s.run.ndmreset {
      if f.version == 0 {
        out := out + [VersionNonzero];
      }
    }
    if s.params.version >= VERSION_1_0 && s.run.ndmreset && !f.ndmresetpending {
      out := out + [NdmresetpendingClear];
    }
  }

  method DmcontrolReadsZero(readback: nat) returns (out: seq<Violation>)
    ensures forall v :: v in out <==> ReadsZeroReport(readback, v)
  {
    out := [];
    var fields := DMCONTROL.fields;
    for n := 0 to |fields|
      invariant forall v ::
        v in out <==> (v.DmcontrolReadsZero? && exists i: nat ::
          i < n && FieldAt(v.field, i) && fields[i].ReadsZero() && fields[i].Get(readback) != 0)
    {
      if fields[n].ReadsZero() {
        var value := fields[n].Get(readback);
        if value != 0 {
          out := out + [Violation.DmcontrolReadsZero(fields[n].name)];
          assert FieldAt(fields[n].name, n);
        }
      }
    }
  }

  /** The rules about the selected hart's run state, each appending what it finds. */
  method SelectedHartRules(prev: Option<Snapshot>, c: Ctl, s: Dm) returns (out: seq<Violation>)
    ensures forall v :: v in out <==> SelectedReport(prev, c, s, v)
  {
    out := [];
    if !c.dmactive || IsResetWrite(c, s) {
      return;
    }
    var i := s.run.hartsel;
    if i >= |s.run.harts| || prev.None? || i >= |prev.value| || prev.value[i].nonexistent || prev.value[i].unavail {
      return;
    }
    var was, now := prev.value[i], s.run.harts[i];
    if c.haltreq && c.resumereq {
      if was.halted && !now.halted {
        out := out + [ResumereqIgnoredWhenHaltreq(i)];
      }
    }
    if c.haltreq && was.halted {
      if !now.halted || now.running {
        out := out + [HaltedIgnoresHaltreq(i, false)];
      }
      if now.resumeAck != was.resumeAck {
        out := out + [HaltedIgnoresHaltreq(i, true)];
      }
    }
    if c.resumereq && !c.haltreq {
      if was.halted {
        if now.halted || !now.running {
          out := out + [ResumereqResumesHalted(i, false)];
        } else if !now.resumeAck {
          out := out + [ResumereqResumesHalted(i, true)];
        }
      } else if was.running {
        if now.halted || !now.running {
          out := out + [RunningIgnoresResumereq(i)];
        }
        if now.resumeAck {
          out := out + [ResumereqClearsAck(i)];
        }
      }
    }
  }

  method HaveresetRules(prev: Option<Snapshot>, request: Option<Ctl>, s: Dm) returns (out: seq<Violation>)
    ensures forall v :: v in out <==> HaveresetReport(prev, request, s, v)
  {
    out := [];
    if request.Some? && !request.value.dmactive {
      return;
    }
    var acked := request.Some? && request.value.ackhavereset;
    if prev.Some? {
      for i := 0 to |s.run.harts|
        invariant forall v ::
          v in out <==> (v.HaveresetSticky? && v.hart < i && HaveresetReport(prev, request, s, v))
      {
        if i < |prev.value| && prev.value[i].havereset && !s.run.harts[i].havereset && !(acked && i == s.run.hartsel) {
          out := out + [HaveresetSticky(i)];
        }
      }
    }
    if acked && s.run.hartsel < |s.run.harts| && s.run.harts[s.run.hartsel].havereset {
      out := out + [AckhaveresetClears(s.run.hartsel)];
    }
  }

  method ResetReleaseRule(prev: Option<Snapshot>, c: Ctl, s: Dm) returns (out: seq<Violation>)
    ensures forall v :: v in out <==> ReleaseReport(prev, c, s, v)
  {
    out := [];
    if !c.dmactive || prev.None? {
      return;
    }
    for i := 0 to |s.run.harts|
      invariant forall v :: v in out <==> (ReleaseReport(prev, c, s, v) && v.hart < i)
    {
      var now := s.run.harts[i];
      if i < |prev.value| && !now.nonexistent && InReset(prev.value[i]) && !InReset(SnapHart(now)) {
        var wantsHalt := prev.value[i].resetHaltreq || now.resetHaltreq || now.haltRequest;
        if !now.havereset {
          out := out + [HaveresetSetOnReset(i)];
        }
        if wantsHalt && !now.halted {
          out := out + [HaltOnReset(i)];
        }
        if !wantsHalt && now.halted {
          out := out + [NoHaltWithoutRequest(i)];
        }
      }
    }
  }

  method ResethaltreqRule(prev: Option<Snapshot>, c: Ctl, s: Dm) returns (out: seq<Violation>)
    ensures forall v :: v in out <==> ResethaltreqReport(prev, c, s, v)
  {
    out := [];
    if !c.dmactive || !(c.setresethaltreq || c.clrresethaltreq) || prev.None? {
      return;
    }
    for i := 0 to |s.run.harts|
      invariant forall v :: v in out <==> (ResethaltreqReport(prev, c, s, v) && v.hart < i)
    {
      if i < |prev.value| && i != s.run.hartsel && s.run.harts[i].resetHaltreq != prev.value[i].resetHaltreq {
        out := out + [ResethaltreqPerHart(i)];
      }
    }
  }

  method ResetFieldRule(readback: nat) returns (out: seq<Violation>)
    ensures forall v :: v in out <==> ResetFieldReport(readback, v)
  {
    out := [];
    var fields := DMCONTROL.fields;
    for n := 0 to |fields|
      invariant forall v ::
        v in out <==> (v.DmResetField? && v.field != Name.dmactive && exists i: nat ::
          i < n && FieldAt(v.field, i) && fields[i].reset.Some? && !fields[i].ReadsZero()
          && fields[i].Get(readback) != fields[i].reset.value)
    {
      if fields[n].name != Name.dmactive && fields[n].reset.Some? && !fields[n].ReadsZero() {
        var actual := fields[n].Get(readback);
        if actual != fields[n].reset.value {
          out := out + [DmResetField(fields[n].name)];
          assert FieldAt(fields[n].name, n);
        }
      }
    }
  }

  method ResetHartBitRule(s: Dm) returns (out: seq<Violation>)
    ensures forall v :: v in out <==> ResetHartBitReport(s, v)
  {
    out := [];
    for i := 0 to |s.run.harts|
      invariant forall v :: v in out <==> (ResetHartBitReport(s, v) && v.hart < i)
    {
      if s.run.harts[i].haltRequest {
        out := out + [DmResetHartBit(i, false)];
      }
      if s.run.harts[i].resetHaltreq {
        out := out + [DmResetHartBit(i, true)];
      }
    }
  }

  method TransitionRules(prev: Option<Snapshot>, c: Ctl, s: Dm) returns (out: seq<Violation>)
    ensures forall v :: v in out <==> TransitionReport(prev, c, s, v)
  {
    hide ExpectDmcontrol;
    out := [];
    if MutexCount(c) > 1 {
      out := out + [StimulusMutex];
    }
    if !c.dmactive {
      var fields := ResetFieldRule(ExpectDmcontrol(s));
      var bits := ResetHartBitRule(s);
      out := out + fields + bits;
    }
    var selected := SelectedHartRules(prev, c, s);
    var released := ResetReleaseRule(prev, c, s);
    var perHart := ResethaltreqRule(prev, c, s);
    out := out + selected + released + perHart;
  }

  /** check_all: everything the rules report about one operation, and nothing else. */
  method CheckAll(prev: Option<Snapshot>, seen: Seen, predictor: DMPredictor) returns (out: seq<Violation>)
    requires predictor.Valid()
    ensures forall v :: v in out <==> Reported(prev, seen, predictor.State(), v)
  {
    hide DecodeCtl, ExpectDmstatus, WordReport, HaveresetReport, ReadsZeroReport, TransitionReport;
    var s := predictor.State();
    out := [];
    if s.run.ndmreset && seen.addr != DMCONTROL_ADDR && seen.addr != DMSTATUS_ADDR {
      out := out + [StimulusDuringNdmreset(seen.addr)];
    }
    var request: Option<Ctl> := None;
    if seen.isWrite && seen.addr == DMCONTROL_ADDR && seen.data.Some? {
      request := Some(DecodeCtl(seen.data.value));
    }
    var mutex := HaltedRunningMutex(s);
    var word;
    if !seen.isWrite && seen.addr == DMSTATUS_ADDR && seen.readback.Some? {
      word := seen.readback.value;
    } else {
      word := ExpectDmstatus(s);
    }
    var status := CheckDmstatusWord(word, s);
    OnlyWordRules(word, s);
    var zero := [];
    if !seen.isWrite && seen.addr == DMCONTROL_ADDR && seen.readback.Some? {
      zero := DmcontrolReadsZero(seen.readback.value);
      OnlyReadsZero(seen.readback.value);
    }
    var havereset := HaveresetRules(prev, request, s);
    OnlyHaveresetRules(prev, request, s);
    out := out + mutex + status + zero + havereset;
    if request.Some? {
      var transitions := TransitionRules(prev, request.value, s);
      out := out + transitions;
    }
  }

  lemma OnlyWordRules(word: nat, s: Dm)
    ensures forall v :: WordReport(word, s, v) ==> v.AllImpliesAny? || v.VersionNonzero? || v.NdmresetpendingClear?
  {
  }

  lemma OnlyReadsZero(readback: nat)
    ensures forall v :: ReadsZeroReport(readback, v) ==> v.DmcontrolReadsZero?
  {
  }

  lemma OnlyHaveresetRules(prev: Option<Snapshot>, request: Option<Ctl>, s: Dm)
    ensures forall v :: HaveresetReport(prev, request, s, v) ==> v.HaveresetSticky? || v.AckhaveresetClears?
  {
  }
}
