// The architectural rules of src/pydebug/model/invariants.py as predicates: which
// violations one DMI operation must report.

module Rules {
  import opened Bits
  import opened Registers
  import opened Words
  import opened DebugModule

  datatype HartSnap = HartSnap(
    halted: bool, running: bool, havereset: bool, resumeAck: bool, haltRequest: bool, resetHaltreq: bool,
    unavail: bool, nonexistent: bool)

  /** The per-hart part of predictor.snapshot(). */
  type Snapshot = seq<HartSnap>

  function SnapHart(h: Hart): HartSnap
  {
    HartSnap(h.halted, h.running, h.havereset, h.resumeAck, h.haltRequest, h.resetHaltreq, h.Unavail(), h.nonexistent)
  }

  function Snap(s: Dm): (harts: Snapshot)
    ensures |harts| == |s.run.harts|
    ensures forall i :: 0 <= i < |harts| ==> harts[i] == SnapHart(s.run.harts[i])
  {
    seq(|s.run.harts|, i requires 0 <= i < |s.run.harts| => SnapHart(s.run.harts[i]))
  }

  /** One observed DMI operation: data on writes, readback on reads. */
  datatype Seen = Seen(isWrite: bool, addr: nat, data: Option<nat>, readback: Option<nat>)

  datatype Pair = HaveresetPair | ResumeackPair | NonexistentPair | UnavailPair | RunningPair | HaltedPair

  datatype Violation =
    | HaltRunMutex(hart: nat)
    | AllImpliesAny(pair: Pair)
    | VersionNonzero
    | NdmresetpendingClear
    | DmcontrolReadsZero(field: Name)
    | StimulusMutex
    | StimulusDuringNdmreset(addr: nat)
    | ResumereqIgnoredWhenHaltreq(hart: nat)
    | HaltedIgnoresHaltreq(hart: nat, ackChanged: bool)
    | ResumereqResumesHalted(hart: nat, ackMissing: bool)
    | RunningIgnoresResumereq(hart: nat)
    | ResumereqClearsAck(hart: nat)
    | HaveresetSticky(hart: nat)
    | AckhaveresetClears(hart: nat)
    | HaveresetSetOnReset(hart: nat)
    | HaltOnReset(hart: nat)
    | NoHaltWithoutRequest(hart: nat)
    | ResethaltreqPerHart(hart: nat)
    | DmResetField(field: Name)
    | DmResetHartBit(hart: nat, resetHaltreq: bool)
  {
    /** The debugger broke the rule, not the Debug Module. */
    predicate IsStimulus() { StimulusMutex? || StimulusDuringNdmreset? }
  }

  function AllBit(f: Status, pair: Pair): bool
  {
    match pair
    case HaveresetPair => f.allhavereset
    case ResumeackPair => f.allresumeack
    case NonexistentPair => f.allnonexistent
    case UnavailPair => f.allunavail
    case RunningPair => f.allrunning
    case HaltedPair => f.allhalted
  }

  function AnyBit(f: Status, pair: Pair): bool
  {
    match pair
    case HaveresetPair => f.anyhavereset
    case ResumeackPair => f.anyresumeack
    case NonexistentPair => f.anynonexistent
    case UnavailPair => f.anyunavail
    case RunningPair => f.anyrunning
    case HaltedPair => f.anyhalted
  }

  function MutexCount(c: Ctl): nat
  {
    FromBool(c.resumereq) + FromBool(c.hartreset) + FromBool(c.ackhavereset)
    + FromBool(c.setresethaltreq) + FromBool(c.clrresethaltreq)
  }

  /** A hart in reset reports neither halted nor running. */
  predicate InReset(h: HartSnap) { !h.halted && !h.running }

  /** The write, or the state it leaves, has a reset asserted. */
  predicate IsResetWrite(c: Ctl, post: Dm)
  {
    c.ndmreset || post.run.ndmreset || c.hartreset || post.run.hartresetLevel
  }

  /** The dmcontrol request, if the operation is a dmcontrol write. */
  function Request(seen: Seen): Option<Ctl>
  {
    if seen.isWrite && seen.addr == DMCONTROL_ADDR && seen.data.Some? then Some(DecodeCtl(seen.data.value)) else None
  }

  /** The dmstatus word the rules look at: the read-back if there is one, else the prediction. */
  function StatusWord(seen: Seen, post: Dm): nat
  {
    if !seen.isWrite && seen.addr == DMSTATUS_ADDR && seen.readback.Some? then seen.readback.value
    else ExpectDmstatus(post)
  }

  /** Hart `i` before and after, when it is selected, was present and was available. */
  predicate Tracked(prev: Option<Snapshot>, post: Dm, i: nat)
  {
    i == post.run.hartsel && i < |post.run.harts| && prev.Some? && i < |prev.value|
    && !prev.value[i].nonexistent && !prev.value[i].unavail
  }

  /** The write's request bits act on run state: the DM is active and no reset moves. */
  predicate Acts(c: Ctl, post: Dm) { c.dmactive && !IsResetWrite(c, post) }

  predicate FieldAt(name: Name, i: nat) { i < |DMCONTROL.fields| && DMCONTROL.fields[i].name == name }

  /** Rules readable from one dmstatus word. */
  predicate WordReport(word: nat, post: Dm, v: Violation)
  {
    var f := DecodeStatus(word);
    match v
    case AllImpliesAny(pair) => AllBit(f, pair) && !AnyBit(f, pair)
    case VersionNonzero => post.run.dmactive && !post.run.ndmreset && f.version == 0
    case NdmresetpendingClear => post.params.version >= VERSION_1_0 && post.run.ndmreset && !f.ndmresetpending
    case _ => false
  }

  /** havereset is sticky, and ackhavereset works. */
  predicate HaveresetReport(prev: Option<Snapshot>, request: Option<Ctl>, post: Dm, v: Violation)
  {
    var harts := post.run.harts;
    var acked := request.Some? && request.value.ackhavereset;
    && !(request.Some? && !request.value.dmactive)
    && match v
       case HaveresetSticky(i) =>
         i < |harts| && prev.Some? && i < |prev.value| && prev.value[i].havereset && !harts[i].havereset
         && !(acked && i == post.run.hartsel)
       case AckhaveresetClears(i) => acked && i == post.run.hartsel && i < |harts| && harts[i].havereset
       case _ => false
  }

  ghost predicate ReadsZeroReport(readback: nat, v: Violation)
  {
    v.DmcontrolReadsZero?
    && exists i: nat :: FieldAt(v.field, i) && DMCONTROL.fields[i].ReadsZero() && DMCONTROL.fields[i].Get(readback) != 0
  }

  /** Rules checked on every operation. */
  ghost predicate StateReport(prev: Option<Snapshot>, seen: Seen, post: Dm, v: Violation)
  {
    var harts := post.run.harts;
    match v
    case HaltRunMutex(i) => i < |harts| && harts[i].halted && harts[i].running
    case AllImpliesAny(_) => WordReport(StatusWord(seen, post), post, v)
    case VersionNonzero => WordReport(StatusWord(seen, post), post, v)
    case NdmresetpendingClear => WordReport(StatusWord(seen, post), post, v)
    case DmcontrolReadsZero(_) =>
      !seen.isWrite && seen.addr == DMCONTROL_ADDR && seen.readback.Some? && ReadsZeroReport(seen.readback.value, v)
    case StimulusDuringNdmreset(addr) =>
      post.run.ndmreset && addr == seen.addr && addr != DMCONTROL_ADDR && addr != DMSTATUS_ADDR
    case HaveresetSticky(_) => HaveresetReport(prev, Request(seen), post, v)
    case AckhaveresetClears(_) => HaveresetReport(prev, Request(seen), post, v)
    case _ => false
  }

  /** Rules about the run state of the selected hart across one dmcontrol write. */
  predicate SelectedReport(prev: Option<Snapshot>, c: Ctl, post: Dm, v: Violation)
  {
    var i := post.run.hartsel;
    && Acts(c, post) && Tracked(prev, post, i)
    && var was, now := prev.value[i], post.run.harts[i];
       match v
       case ResumereqIgnoredWhenHaltreq(hart) => hart == i && c.haltreq && c.resumereq && was.halted && !now.halted
       case HaltedIgnoresHaltreq(hart, ackChanged) =>
         hart == i && c.haltreq && was.halted
         && if ackChanged then now.resumeAck != was.resumeAck else !now.halted || now.running
       case ResumereqResumesHalted(hart, ackMissing) =>
         hart == i && c.resumereq && !c.haltreq && was.halted
         && if ackMissing then !now.halted && now.running && !now.resumeAck else now.halted || !now.running
       case RunningIgnoresResumereq(hart) =>
         hart == i && c.resumereq && !c.haltreq && !was.halted && was.running && (now.halted || !now.running)
       case ResumereqClearsAck(hart) =>
         hart == i && c.resumereq && !c.haltreq && !was.halted && was.running && now.resumeAck
       case _ => false
  }

  /** Rules about harts that a dmcontrol write lets out of reset. */
  predicate ReleaseReport(prev: Option<Snapshot>, c: Ctl, post: Dm, v: Violation)
  {
    var harts := post.run.harts;
    match v
    case HaveresetSetOnReset(i) => LeftReset(prev, c, post, i) && !harts[i].havereset
    case HaltOnReset(i) => LeftReset(prev, c, post, i) && WantsHalt(prev.value[i], harts[i]) && !harts[i].halted
    case NoHaltWithoutRequest(i) => LeftReset(prev, c, post, i) && !WantsHalt(prev.value[i], harts[i]) && harts[i].halted
    case _ => false
  }

  ghost predicate ResetFieldReport(readback: nat, v: Violation)
  {
    v.DmResetField? && v.field != Name.dmactive
    && exists i: nat :: FieldAt(v.field, i) && DMCONTROL.fields[i].reset.Some? && !DMCONTROL.fields[i].ReadsZero()
         && DMCONTROL.fields[i].Get(readback) != DMCONTROL.fields[i].reset.value
  }

  predicate ResetHartBitReport(post: Dm, v: Violation)
  {
    v.DmResetHartBit? && v.hart < |post.run.harts|
    && if v.resetHaltreq then post.run.harts[v.hart].resetHaltreq else post.run.harts[v.hart].haltRequest
  }

  predicate ResethaltreqReport(prev: Option<Snapshot>, c: Ctl, post: Dm, v: Violation)
  {
    v.ResethaltreqPerHart? && c.dmactive && (c.setresethaltreq || c.clrresethaltreq) && prev.Some?
    && v.hart < |post.run.harts| && v.hart < |prev.value| && v.hart != post.run.hartsel
    && post.run.harts[v.hart].resetHaltreq != prev.value[v.hart].resetHaltreq
  }

  /** Rules only meaningful on a dmcontrol write, here one asking for `c`. */
  ghost predicate TransitionReport(prev: Option<Snapshot>, c: Ctl, post: Dm, v: Violation)
  {
    match v
    case StimulusMutex => MutexCount(c) > 1
    case DmResetField(_) => !c.dmactive && ResetFieldReport(ExpectDmcontrol(post), v)
    case DmResetHartBit(_, _) => !c.dmactive && ResetHartBitReport(post, v)
    case ResumereqIgnoredWhenHaltreq(_) => SelectedReport(prev, c, post, v)
    case HaltedIgnoresHaltreq(_, _) => SelectedReport(prev, c, post, v)
    case ResumereqResumesHalted(_, _) => SelectedReport(prev, c, post, v)
    case RunningIgnoresResumereq(_) => SelectedReport(prev, c, post, v)
    case ResumereqClearsAck(_) => SelectedReport(prev, c, post, v)
    case HaveresetSetOnReset(_) => ReleaseReport(prev, c, post, v)
    case HaltOnReset(_) => ReleaseReport(prev, c, post, v)
    case NoHaltWithoutRequest(_) => ReleaseReport(prev, c, post, v)
    case ResethaltreqPerHart(_) => ResethaltreqReport(prev, c, post, v)
    case _ => false
  }

  /** check_all reports `v` for this operation. */
  ghost predicate Reported(prev: Option<Snapshot>, seen: Seen, post: Dm, v: Violation)
  {
    StateReport(prev, seen, post, v)
    || (Request(seen).Some? && TransitionReport(prev, Request(seen).value, post, v))
  }

  /** The release-from-reset edge of hart `i` on an active dmcontrol write. */
  predicate LeftReset(prev: Option<Snapshot>, c: Ctl, post: Dm, i: nat)
  {
    c.dmactive && i < |post.run.harts| && !post.run.harts[i].nonexistent
    && prev.Some? && i < |prev.value| && InReset(prev.value[i]) && !InReset(SnapHart(post.run.harts[i]))
  }

  predicate WantsHalt(was: HartSnap, now: Hart) { was.resetHaltreq || now.resetHaltreq || now.haltRequest }
}
