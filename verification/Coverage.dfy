// What the bus observer of src/pydebug/model/coverage.py infers and counts, as
// functions on values: which bins one sample hits, and what the observer
// believes afterwards.

module Coverage {
  import opened Bits
  import opened Registers
  import opened Words
  import opened DebugModule

  /** What one dmstatus read tells about the selected hart; `Unknown` before the first one. */
  datatype HartState = Unknown | Halted | Running | InReset | Unavailable | Nonexistent

  datatype BusOp = ReadOp | WriteOp | OtherOp

  datatype Sample = Sample(op: BusOp, addr: nat, data: Option<nat>, readback: Option<nat>)

  datatype HartselBin = Zero | Nonzero | MaxImplemented | OutOfRange | HartselhiNonzero | AllOnes

  datatype AllAnyState = HaveresetState | ResumeackState | NonexistentState | UnavailState | RunningState | HaltedState

  datatype AckBin = AckWhenSet | AckWhenClear | NoackWhenSet

  datatype MutexBin = NoMutexBit | OneMutexBit | MultipleMutexBits

  datatype TriggerCsr = Tselect | Tdata1 | Tdata2 | Tdata3 | Tinfo

  datatype TriggerType = Mcontrol | Icount | Itrigger | Etrigger | Mcontrol6 | Tmexttrigger

  datatype WholeGroup = AbstractCmdGroup | SbaGroup | DebugEntryGroup | StepExternalGroup | HartModeGroup

  /** The key of a bin or an exclusion: covergroup, then bin. */
  datatype Key =
    | DmiAccess(write: bool, dmstatus: bool)
    | ControlField(name: Name, value: bool)
    | StatusField(name: Name, value: bool)
    | Hartsel(which: HartselBin)
    | Version(number: nat)
    | AllAny(state: AllAnyState, all: bool, any: bool)
    | HaltreqResumereq(haltreq: bool, resumereq: bool)
    | Transition(from: HartState, to: HartState)
    | HaveresetAck(ack: AckBin)
    | NdmresetEdge(asserted: bool, resetHaltreq: bool)
    | ResumereqPrior(prior: HartState)
    | MutexBits(mutex: MutexBin)
    | CommandDirection(write: bool)
    | CommandRegno(csr: bool)
    | AbstractcsBusy(busy: bool)
    | AbstractcsHas(progbuf: bool)
    | ProgbufWritten
    | ProgbufExecuted
    | SbcsReadonaddr(on: bool)
    | SbcsIdle
    | SbAddressWrite
    | SbDataAccess(write: bool)
    | Dmcs2Hgselect(resume: bool)
    | Dmcs2Grouptype(external: bool)
    | Dmcs2Group(grouped: bool)
    | HartinfoRead
    | Haltsum0Read(someHalted: bool)
    | Data0Access(write: bool)
    | TriggerCsrReached(reached: TriggerCsr)
    | TriggerTypeSet(configured: TriggerType)
    | Whole(covergroup: WholeGroup)

  /** The constructor's declarations about the device. */
  datatype Setup = Setup(numHarts: nat, supportsStickyunavail: bool)

  // ---- The declared population ----

  /** A one-bit field of the register is called `name`. */
  predicate OneBit(fields: seq<Field>, name: Name)
  {
    |fields| > 0 && (OneBit(fields[..|fields| - 1], name) || IsFlag(fields[|fields| - 1], name))
  }

  predicate IsFlag(f: Field, name: Name) { f.name == name && f.width == 1 }

  /** The dmstatus levels no run-control stimulus of this project reaches. */
  predicate OutOfSlice(cov: Setup, name: Name, value: bool)
  {
    if value then
      name == Name.impebreak || name == Name.authbusy || name == Name.confstrptrvalid || name == Name.allunavail
      || name == Name.anyunavail || (name == Name.stickyunavail && !cov.supportsStickyunavail)
    else name == Name.authenticated
  }

  /** Halted, running and in reset: the states a transition may join. */
  predicate Live(s: HartState) { s == Halted || s == Running || s == InReset }

  predicate IsBin(cov: Setup, k: Key)
  {
    match k
    case DmiAccess(write, dmstatus) => !(write && dmstatus)
    case ControlField(name, _) => OneBit(DMCONTROL.fields, name)
    case StatusField(name, value) => OneBit(DMSTATUS.fields, name) && !OutOfSlice(cov, name, value)
    case Version(n) => n == 2 || n == 3
    case AllAny(state, all, any) => all == any && !(all && state.UnavailState?)
    case Transition(from, to) => Live(from) && Live(to) && from != to && !(from == Halted && to == InReset)
    case ResumereqPrior(prior) => Live(prior)
    case Whole(_) => false
    case _ => true
  }

  predicate IsExclusion(cov: Setup, k: Key)
  {
    match k
    case DmiAccess(write, dmstatus) => write && dmstatus
    case StatusField(name, value) => OneBit(DMSTATUS.fields, name) && OutOfSlice(cov, name, value)
    case Version(n) => n == 0 || n == 1 || n == 15
    case AllAny(state, all, any) => all != any || (all && state.UnavailState?)
    case Transition(from, to) => from == Halted && to == InReset
    case Whole(_) => true
    case _ => false
  }

  lemma BinsAndExclusionsDisjoint(cov: Setup, k: Key)
    ensures !(IsBin(cov, k) && IsExclusion(cov, k))
  {
  }

  // ---- What the observer believes ----

  datatype Watch = Watch(
    state: HartState, stateHartsel: Option<nat>, hartsel: nat, havereset: Option<bool>,
    resetHaltreq: map<nat, bool>, ndmreset: bool, staged0: nat, staged1: nat)

  const START := Watch(Unknown, None, 0, None, map[], false, 0, 0)

  predicate Held(w: Watch, hartsel: nat) { hartsel in w.resetHaltreq && w.resetHaltreq[hartsel] }

  function OrZero(v: Option<nat>): nat { if v.Some? then v.value else 0 }

  /** One key for every one-bit field, by its value in the word. */
  function FlagHits(fields: seq<Field>, word: nat, control: bool): seq<Key>
  {
    if |fields| == 0 then []
    else
      var f := fields[|fields| - 1];
      var bit := f.Get(word) == 1;
      FlagHits(fields[..|fields| - 1], word, control)
      + (if f.width != 1 then [] else if control then [ControlField(f.name, bit)] else [StatusField(f.name, bit)])
  }

  function HartselHits(cov: Setup, hartsel: nat): seq<Key>
  {
    [Hartsel(if hartsel == 0 then Zero else Nonzero)]
    + (if hartsel + 1 == cov.numHarts then [Hartsel(MaxImplemented)] else [])
    + (if hartsel >= cov.numHarts then [Hartsel(OutOfRange)] else [])
    + (if hartsel > 0x3FF then [Hartsel(HartselhiNonzero)] else [])
    + (if hartsel == 0xF_FFFF then [Hartsel(AllOnes)] else [])
  }

  function MutexClass(c: Ctl): MutexBin
  {
    var n := FromBool(c.resumereq) + FromBool(c.hartreset) + FromBool(c.ackhavereset)
             + FromBool(c.setresethaltreq) + FromBool(c.clrresethaltreq);
    if n == 0 then NoMutexBit else if n == 1 then OneMutexBit else MultipleMutexBits
  }

  function AckHits(havereset: Option<bool>, ack: bool): seq<Key>
  {
    if havereset.None? then []
    else if ack then [HaveresetAck(if havereset.value then AckWhenSet else AckWhenClear)]
    else if havereset.value then [HaveresetAck(NoackWhenSet)]
    else []
  }

  /** The halt-on-reset shadow once the write's set and clear bits have acted. */
  function Shadowed(shadow: map<nat, bool>, c: Ctl): map<nat, bool>
  {
    if c.clrresethaltreq then shadow[c.hartsel := false]
    else if c.setresethaltreq then shadow[c.hartsel := true]
    else shadow
  }

  function EdgeHits(w: Watch, c: Ctl): seq<Key>
  {
    var shadow := Shadowed(w.resetHaltreq, c);
    if c.dmactive && c.ndmreset != w.ndmreset
    then [NdmresetEdge(c.ndmreset, c.hartsel in shadow && shadow[c.hartsel])]
    else []
  }

  /** The request bits, alone and against the last observation if the write keeps the selection. */
  function RequestHits(w: Watch, c: Ctl): seq<Key>
  {
    [HaltreqResumereq(c.haltreq, c.resumereq), MutexBits(MutexClass(c))]
    + (if c.resumereq && c.hartsel == w.hartsel && Live(w.state) then [ResumereqPrior(w.state)] else [])
    + (if c.hartsel == w.hartsel then AckHits(w.havereset, c.ackhavereset) else [])
  }

  /** anyhavereset as believed once the write's acknowledgement is taken into account. */
  function Acked(w: Watch, c: Ctl): Option<bool>
  {
    if c.hartsel == w.hartsel && w.havereset.Some? && c.ackhavereset then Some(false) else w.havereset
  }

  /** _sample_dmcontrol_write: the bins. */
  function ControlHits(cov: Setup, w: Watch, word: nat): seq<Key>
  {
    var c := DecodeCtl(word);
    FlagHits(DMCONTROL.fields, word, true) + HartselHits(cov, c.hartsel) + RequestHits(w, c) + EdgeHits(w, c)
  }

  /** _sample_dmcontrol_write: the inferred state. */
  function ControlSeen(w: Watch, word: nat): Watch
  {
    var c := DecodeCtl(word);
    if c.dmactive then
      w.(hartsel := c.hartsel, havereset := Acked(w, c), resetHaltreq := Shadowed(w.resetHaltreq, c), ndmreset := c.ndmreset)
    else w.(hartsel := c.hartsel, havereset := None, resetHaltreq := map[], ndmreset := false, state := Unknown)
  }

  /** _state_from_dmstatus */
  function StateOf(f: Status, ndmreset: bool): HartState
  {
    if f.anynonexistent then Nonexistent
    else if f.anyunavail then Unavailable
    else if f.anyhalted then Halted
    else if f.anyrunning && ndmreset then InReset
    else if f.anyrunning then Running
    else InReset
  }

  function VersionHits(version: nat): seq<Key>
  {
    if version <= 3 || version == 15 then [Version(version)] else []
  }

  function PairHits(f: Status): seq<Key>
  {
    [AllAny(HaveresetState, f.allhavereset, f.anyhavereset), AllAny(ResumeackState, f.allresumeack, f.anyresumeack),
     AllAny(NonexistentState, f.allnonexistent, f.anynonexistent), AllAny(UnavailState, f.allunavail, f.anyunavail),
     AllAny(RunningState, f.allrunning, f.anyrunning), AllAny(HaltedState, f.allhalted, f.anyhalted)]
  }

  /** A change of state of one hart: both observations name it, and neither is undefined. */
  function TransitionHits(w: Watch, now: HartState): seq<Key>
  {
    if w.stateHartsel == Some(w.hartsel) && Live(w.state) && Live(now) && w.state != now
    then [Transition(w.state, now)]
    else []
  }

  /** _sample_dmstatus_read: the bins. */
  function StatusHits(w: Watch, word: nat): seq<Key>
  {
    var f := DecodeStatus(word);
    FlagHits(DMSTATUS.fields, word, false)
    + VersionHits(f.version)
    + PairHits(f)
    + TransitionHits(w, StateOf(f, w.ndmreset))
  }

  /** _sample_dmstatus_read: the inferred state. */
  function StatusSeen(w: Watch, word: nat): Watch
  {
    var f := DecodeStatus(word);
    w.(havereset := Some(f.anyhavereset), state := StateOf(f, w.ndmreset), stateHartsel := Some(w.hartsel))
  }

  // ---- The external-debug covergroups ----

  function CsrOf(regno: nat): Option<TriggerCsr>
  {
    if regno == 0x7A0 then Some(Tselect) else if regno == 0x7A1 then Some(Tdata1)
    else if regno == 0x7A2 then Some(Tdata2) else if regno == 0x7A3 then Some(Tdata3)
    else if regno == 0x7A4 then Some(Tinfo) else None
  }

  function TypeOf(code: nat): Option<TriggerType>
  {
    if code == 2 then Some(Mcontrol) else if code == 3 then Some(Icount) else if code == 4 then Some(Itrigger)
    else if code == 5 then Some(Etrigger) else if code == 6 then Some(Mcontrol6)
    else if code == 7 then Some(Tmexttrigger) else None
  }

  /** The trigger reached by an Access Register command; tdata1.type sits in the operand just staged. */
  function TriggerHits(w: Watch, cmd: Command): seq<Key>
  {
    if CsrOf(cmd.regno).None? then []
    else
      var operand := if cmd.aarsize == 3 then w.staged1 else w.staged0;
      var configured := TypeOf(Extract(operand, 28, 4));
      [TriggerCsrReached(CsrOf(cmd.regno).value)]
      + (if cmd.regno == 0x7A1 && cmd.write && configured.Some? then [TriggerTypeSet(configured.value)] else [])
  }

  function CommandHits(w: Watch, word: nat): seq<Key>
  {
    var cmd := DecodeCommand(word);
    (if cmd.transfer then
       [CommandDirection(cmd.write)]
       + (if cmd.regno <= 0xFFF then [CommandRegno(true)]
          else if 0x1000 <= cmd.regno <= 0x101F then [CommandRegno(false)] else [])
       + TriggerHits(w, cmd)
     else [])
    + (if cmd.postexec then [ProgbufExecuted] else [])
  }

  function AbstractcsHits(word: nat): seq<Key>
  {
    [AbstractcsBusy(Flag(word, 12))]
    + (if Extract(word, 24, 5) != 0 then [AbstractcsHas(true)] else [])
    + (if Extract(word, 0, 4) != 0 then [AbstractcsHas(false)] else [])
  }

  function SbcsHits(x: Sample): seq<Key>
  {
    var readback := OrZero(x.readback);
    [SbcsReadonaddr(Flag(if x.op == WriteOp then OrZero(x.data) else readback, 20))]
    + (if x.op == ReadOp && !Flag(readback, 21) then [SbcsIdle] else [])
  }

  /** dmcs2 as the observer reads it: it takes bit 2, the low bit of `group`, for hgselect. */
  function Dmcs2Hits(word: nat): seq<Key>
  {
    [Dmcs2Hgselect(Flag(word, 2)), Dmcs2Grouptype(Flag(word, 11)), Dmcs2Group(Extract(word, 2, 5) != 0)]
  }

  function Staged(w: Watch, x: Sample): Watch
  {
    if x.op == WriteOp && x.addr == DATA0 then w.(staged0 := OrZero(x.data))
    else if x.op == WriteOp && x.addr == DATA0 + 1 then w.(staged1 := OrZero(x.data))
    else w
  }

  /** _sample_external_debug */
  function ExternalHits(w: Watch, x: Sample): seq<Key>
  {
    var word, readback := OrZero(x.data), OrZero(x.readback);
    if IsData(x.addr) && x.op != OtherOp then [Data0Access(x.op == WriteOp)]
    else if x.op == WriteOp && x.addr == COMMAND_ADDR then CommandHits(w, word)
    else if x.op == ReadOp && x.addr == ABSTRACTCS_ADDR then AbstractcsHits(readback)
    else if x.op == WriteOp && IsProgbuf(x.addr) then [ProgbufWritten]
    else if x.addr == SBCS_ADDR then SbcsHits(x)
    else if x.op == WriteOp && x.addr == SBADDRESS0 then [SbAddressWrite]
    else if x.op != OtherOp && x.addr == SBDATA0 then [SbDataAccess(x.op == WriteOp)]
    else if x.op == WriteOp && x.addr == DMCS2_ADDR then Dmcs2Hits(word)
    else if x.op == ReadOp && x.addr == HARTINFO_ADDR then [HartinfoRead]
    else if x.op == ReadOp && x.addr == HALTSUM0_ADDR then [Haltsum0Read(readback != 0)]
    else []
  }

  // ---- One sample ----

  /** The bins one sample hits, in order. */
  function Hits(cov: Setup, w: Watch, x: Sample): seq<Key>
  {
    if x.op == WriteOp && x.addr == DMCONTROL_ADDR then [DmiAccess(true, false)] + ControlHits(cov, w, OrZero(x.data))
    else if x.op == ReadOp && x.addr == DMCONTROL_ADDR then [DmiAccess(false, false)]
    else if x.op == ReadOp && x.addr == DMSTATUS_ADDR then [DmiAccess(false, true)] + StatusHits(w, OrZero(x.readback))
    else if x.op == WriteOp && x.addr == DMSTATUS_ADDR then [DmiAccess(true, true)]
    else ExternalHits(Staged(w, x), x)
  }

  function Seen(w: Watch, x: Sample): Watch
  {
    if x.op == WriteOp && x.addr == DMCONTROL_ADDR then ControlSeen(w, OrZero(x.data))
    else if x.op == ReadOp && x.addr == DMSTATUS_ADDR then StatusSeen(w, OrZero(x.readback))
    else Staged(w, x)
  }

  predicate Declared(cov: Setup, k: Key) { IsBin(cov, k) || IsExclusion(cov, k) }

  /** The keys FlagHits can name: the one-bit fields of the register, each by its value in the word. */
  lemma {:induction false} FlagHitsExact(fields: seq<Field>, word: nat, control: bool, k: Key)
    ensures k in FlagHits(fields, word, control) <==>
            (exists i :: 0 <= i < |fields| && fields[i].width == 1
                         && k == (if control then ControlField(fields[i].name, fields[i].Get(word) == 1)
                                  else StatusField(fields[i].name, fields[i].Get(word) == 1)))
  {
    if |fields| > 0 {
      var init := fields[..|fields| - 1];
      FlagHitsExact(init, word, control, k);
      if k in FlagHits(init, word, control) {
        var i :| 0 <= i < |init| && init[i].width == 1
                 && k == (if control then ControlField(init[i].name, init[i].Get(word) == 1)
                          else StatusField(init[i].name, init[i].Get(word) == 1));
        assert fields[i] == init[i];
      }
      if i :| 0 <= i < |fields| && fields[i].width == 1
              && k == (if control then ControlField(fields[i].name, fields[i].Get(word) == 1)
                       else StatusField(fields[i].name, fields[i].Get(word) == 1)) {
        assert i < |init| ==> init[i] == fields[i];
      }
    }
  }

  lemma {:induction false} FlagsAreOneBit(fields: seq<Field>, word: nat, control: bool, k: Key)
    requires k in FlagHits(fields, word, control)
    ensures if control then k.ControlField? && OneBit(fields, k.name) else k.StatusField? && OneBit(fields, k.name)
  {
    hide Extract;
    if k in FlagHits(fields[..|fields| - 1], word, control) {
      FlagsAreOneBit(fields[..|fields| - 1], word, control, k);
    }
  }

  lemma ControlHitsDeclared(cov: Setup, w: Watch, word: nat, k: Key)
    requires k in ControlHits(cov, w, word)
    ensures IsBin(cov, k)
  {
    hide DecodeCtl, FlagHits, OneBit, MutexClass, Shadowed;
    if k in FlagHits(DMCONTROL.fields, word, true) {
      FlagsAreOneBit(DMCONTROL.fields, word, true, k);
    }
  }

  lemma StatusHitsDeclared(cov: Setup, w: Watch, word: nat, k: Key)
    requires k in StatusHits(w, word)
    ensures Declared(cov, k)
  {
    hide DecodeStatus, FlagHits, OneBit, StateOf;
    if k in FlagHits(DMSTATUS.fields, word, false) {
      FlagsAreOneBit(DMSTATUS.fields, word, false, k);
    }
  }

  /** Sampling is total: whatever the state and the sample, every key hit is a declared bin
      or a declared exclusion, so the KeyError is never raised. */
  lemma SamplingTotal(cov: Setup, w: Watch, x: Sample, k: Key)
    requires k in Hits(cov, w, x)
    ensures Declared(cov, k)
  {
    hide ControlHits, StatusHits, DecodeCommand, Flag, Extract, OneBit;
    if x.op == WriteOp && x.addr == DMCONTROL_ADDR && k in ControlHits(cov, w, OrZero(x.data)) {
      ControlHitsDeclared(cov, w, OrZero(x.data), k);
    }
    if x.op == ReadOp && x.addr == DMSTATUS_ADDR && k in StatusHits(w, OrZero(x.readback)) {
      StatusHitsDeclared(cov, w, OrZero(x.readback), k);
    }
  }

  /** The hgselect bin of a dmcs2 write records whether the group number is odd, whatever hgselect says. */
  lemma HgselectBinReadsGroup(r: Dmcs2Request)
    ensures Dmcs2Hgselect(true) in Dmcs2Hits(DriverDmcs2(r)) <==> r.group % 2 == 1
    ensures Flag(DriverDmcs2(r), 0) == r.hgselect
  {
    hide Extract;
    var word, parts := DriverDmcs2(r), Dmcs2Parts(r);
    FlagIsBit(word, 2);
    FlagIsBit(word, 0);
    OrAllBit(parts, 2);
    OrAllBit(parts, 0);
    BitLow(r.group, 5, 0);
    BitFlag(r.hgselect, 2);
    BitFlag(r.hgwrite, 1);
    BitFlag(r.hgselect, 0);
    Dmcs2PartBits(r);
  }

  lemma Dmcs2PartBits(r: Dmcs2Request)
    ensures var parts := Dmcs2Parts(r);
            && PartSetsBit(parts[2], 2) == (r.group % 2 == 1) && PartSetsBit(parts[0], 0) == r.hgselect
            && (forall j :: 0 <= j < 5 && j != 2 ==> !PartSetsBit(parts[j], 2))
            && (forall j :: 0 < j < 5 ==> !PartSetsBit(parts[j], 0))
  {
    BitLow(r.group, 5, 0);
    BitFlag(r.hgselect, 2);
    BitFlag(r.hgwrite, 1);
    BitFlag(r.hgselect, 0);
  }
}
