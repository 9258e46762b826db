// When each bin of src/pydebug/model/coverage.py is hit: by the bits of the word on
// the bus, by the address and direction of the access and, where a bin crosses what
// was seen before, by what the module really held, over every run.

module BinMeaning {
  import opened Bits
  import opened Registers
  import opened Words
  import opened DebugModule
  import opened RunControl
  import opened HartLaws
  import opened Coverage
  import opened CoverageRuns
  import RuleMeaning

  // ---- Samples ----

  /** The sample is a write, or a read, of `addr`. */
  predicate Writes(x: Sample, addr: nat) { x.op == WriteOp && x.addr == addr }
  predicate Reads(x: Sample, addr: nat) { x.op == ReadOp && x.addr == addr }

  /** The word written; the word read. */
  function Written(x: Sample): nat { OrZero(x.data) }
  function Returned(x: Sample): nat { OrZero(x.readback) }

  /** A key that only a dmcontrol write can hit; one that only a dmstatus read can; one of neither. */
  predicate OfControl(k: Key)
  {
    k.ControlField? || k.Hartsel? || k.HaltreqResumereq? || k.MutexBits? || k.ResumereqPrior?
    || k.HaveresetAck? || k.NdmresetEdge?
  }
  predicate OfStatus(k: Key) { k.StatusField? || k.Version? || k.AllAny? || k.Transition? }

  lemma ExternalElsewhere(w: Watch, x: Sample, k: Key)
    requires k in ExternalHits(w, x)
    ensures !OfControl(k) && !OfStatus(k) && !k.DmiAccess?
  {
    hide ExternalHits, CommandHits, AbstractcsHits, SbcsHits, Dmcs2Hits;
    ByAddress(w, x, k);
  }

  lemma HitByControl(cov: Setup, w: Watch, x: Sample, k: Key)
    requires OfControl(k)
    ensures k in Hits(cov, w, x) <==> Writes(x, 0x10) && k in ControlHits(cov, w, Written(x))
  {
    hide ControlHits, StatusHits, ExternalHits;
    if k in ExternalHits(Staged(w, x), x) {
      ExternalElsewhere(Staged(w, x), x, k);
    }
    if k in StatusHits(w, OrZero(x.readback)) {
      StatusKeys(w, OrZero(x.readback), k);
    }
  }

  lemma HitByStatus(cov: Setup, w: Watch, x: Sample, k: Key)
    requires OfStatus(k)
    ensures k in Hits(cov, w, x) <==> Reads(x, 0x11) && k in StatusHits(w, Returned(x))
  {
    hide ControlHits, StatusHits, ExternalHits;
    if k in ExternalHits(Staged(w, x), x) {
      ExternalElsewhere(Staged(w, x), x, k);
    }
    if k in ControlHits(cov, w, OrZero(x.data)) {
      ControlKeys(cov, w, OrZero(x.data), k);
    }
  }

  lemma HitExternally(cov: Setup, w: Watch, x: Sample, k: Key)
    requires !OfControl(k) && !OfStatus(k) && !k.DmiAccess?
    ensures k in Hits(cov, w, x) <==> x.addr != 0x10 && x.addr != 0x11 && k in ExternalHits(Staged(w, x), x)
  {
    hide ControlHits, StatusHits, ExternalHits;
    if k in ControlHits(cov, w, OrZero(x.data)) {
      ControlKeys(cov, w, OrZero(x.data), k);
    }
    if k in StatusHits(w, OrZero(x.readback)) {
      StatusKeys(w, OrZero(x.readback), k);
    }
    if x.op == OtherOp && (x.addr == 0x10 || x.addr == 0x11) {
      NothingThere(w, x, k);
    }
  }

  lemma NothingThere(w: Watch, x: Sample, k: Key)
    requires x.addr == 0x10 || x.addr == 0x11
    ensures k !in ExternalHits(Staged(w, x), x)
  {
  }

  /** Which of the two registers was accessed, and how. */
  lemma AccessBin(cov: Setup, w: Watch, x: Sample, write: bool, dmstatus: bool)
    ensures DmiAccess(write, dmstatus) in Hits(cov, w, x) <==>
            x.op == (if write then WriteOp else ReadOp) && x.addr == (if dmstatus then 0x11 else 0x10)
  {
    hide ControlHits, StatusHits, ExternalHits;
    var k := DmiAccess(write, dmstatus);
    if k in ControlHits(cov, w, OrZero(x.data)) {
      ControlKeys(cov, w, OrZero(x.data), k);
    }
    if k in StatusHits(w, OrZero(x.readback)) {
      StatusKeys(w, OrZero(x.readback), k);
    }
    if k in ExternalHits(Staged(w, x), x) {
      ExternalElsewhere(Staged(w, x), x, k);
    }
  }

  // ---- dmcontrol writes ----

  /** The one-bit fields of dmcontrol and where they are. */
  function ControlAt(name: Name): Option<nat>
  {
    match name
    case haltreq => Some(31)
    case resumereq => Some(30)
    case hartreset => Some(29)
    case ackhavereset => Some(28)
    case ackunavail => Some(27)
    case hasel => Some(26)
    case setkeepalive => Some(5)
    case clrkeepalive => Some(4)
    case setresethaltreq => Some(3)
    case clrresethaltreq => Some(2)
    case ndmreset => Some(1)
    case dmactive => Some(0)
    case _ => None
  }

  lemma ControlFieldAt(i: nat)
    requires i < |DMCONTROL.fields| && DMCONTROL.fields[i].width == 1
    ensures ControlAt(DMCONTROL.fields[i].name) == Some(DMCONTROL.fields[i].lsb)
  {
  }

  function ControlIndex(name: Name): nat
  {
    match name
    case haltreq => 0
    case resumereq => 1
    case hartreset => 2
    case ackhavereset => 3
    case ackunavail => 4
    case hasel => 5
    case setkeepalive => 8
    case clrkeepalive => 9
    case setresethaltreq => 10
    case clrresethaltreq => 11
    case ndmreset => 12
    case _ => 13
  }

  lemma ControlFieldThere(name: Name)
    requires ControlAt(name).Some?
    ensures var i := ControlIndex(name);
            i < |DMCONTROL.fields| && DMCONTROL.fields[i].name == name && DMCONTROL.fields[i].width == 1
  {
  }

  lemma FlagHit(word: nat, f: Field)
    requires f.width == 1
    ensures f.Get(word) == 1 <==> Bit(word, f.lsb)
  {
    FlagIsBit(word, f.lsb);
  }

  lemma ControlFlagHit(word: nat, name: Name, value: bool)
    ensures ControlField(name, value) in FlagHits(DMCONTROL.fields, word, true) <==>
            ControlAt(name).Some? && Bit(word, ControlAt(name).value) == value
  {
    hide FlagHits, Bit, Extract, ControlAt, ControlIndex, DMCONTROL;
    var fields, k := DMCONTROL.fields, ControlField(name, value);
    FlagHitsExact(fields, word, true, k);
    if k in FlagHits(fields, word, true) {
      var i :| 0 <= i < |fields| && fields[i].width == 1 && k == ControlField(fields[i].name, fields[i].Get(word) == 1);
      ControlFieldAt(i);
      FlagHit(word, fields[i]);
    }
    if ControlAt(name).Some? && Bit(word, ControlAt(name).value) == value {
      var i := ControlIndex(name);
      ControlFieldThere(name);
      ControlFieldAt(i);
      FlagHit(word, fields[i]);
    }
  }

  lemma ControlParts(cov: Setup, w: Watch, word: nat, k: Key)
    ensures k in ControlHits(cov, w, word) <==>
            (var c := DecodeCtl(word);
             if k.ControlField? then k in FlagHits(DMCONTROL.fields, word, true)
             else if k.Hartsel? then k in HartselHits(cov, c.hartsel)
             else if k.NdmresetEdge? then k in EdgeHits(w, c)
             else k in RequestHits(w, c))
  {
    hide FlagHits, DecodeCtl, MutexClass, Shadowed;
    if k in FlagHits(DMCONTROL.fields, word, true) {
      FlagsAreOneBit(DMCONTROL.fields, word, true, k);
    }
  }

  /** A field bin of dmcontrol is hit by a write whose word holds that value in that field's bit. */
  lemma ControlFieldBin(cov: Setup, w: Watch, x: Sample, name: Name, value: bool)
    ensures ControlField(name, value) in Hits(cov, w, x) <==>
            Writes(x, 0x10) && ControlAt(name).Some? && Bit(Written(x), ControlAt(name).value) == value
  {
    hide Hits, ControlHits, FlagHits, Bit, ControlAt;
    HitByControl(cov, w, x, ControlField(name, value));
    ControlParts(cov, w, Written(x), ControlField(name, value));
    ControlFlagHit(Written(x), name, value);
  }

  predicate InBin(cov: Setup, which: HartselBin, i: nat)
  {
    match which
    case Zero => i == 0
    case Nonzero => i > 0
    case MaxImplemented => i == cov.numHarts as int - 1
    case OutOfRange => i >= cov.numHarts
    case HartselhiNonzero => i >= 1024
    case AllOnes => i == 0xF_FFFF
  }

  /** The hartsel bins are ranges of the 20-bit index. */
  lemma HartselBinHit(cov: Setup, w: Watch, x: Sample, which: HartselBin)
    ensures Hartsel(which) in Hits(cov, w, x) <==>
            Writes(x, 0x10)
            && exists i: nat :: Selects(Written(x), i) && InBin(cov, which, i)
  {
    hide Hits, ControlHits, DecodeCtl, Selects;
    var i := DecodeCtl(Written(x)).hartsel;
    HitByControl(cov, w, x, Hartsel(which));
    ControlParts(cov, w, Written(x), Hartsel(which));
    SelectsIsHartsel(Written(x), i);
    forall j: nat | Selects(Written(x), j) ensures j == i {
      SelectsIsHartsel(Written(x), j);
    }
  }

  /** The request cross is hit by bits 31 and 30 of the word. */
  lemma RequestBin(cov: Setup, w: Watch, x: Sample, halt: bool, resume: bool)
    ensures HaltreqResumereq(halt, resume) in Hits(cov, w, x) <==>
            Writes(x, 0x10) && Bit(Written(x), 31) == halt && Bit(Written(x), 30) == resume
  {
    hide Hits, ControlHits, DecodeCtl, Bit;
    HitByControl(cov, w, x, HaltreqResumereq(halt, resume));
    ControlParts(cov, w, Written(x), HaltreqResumereq(halt, resume));
    ControlFlags(Written(x));
  }

  /** Some bit of which a write may set at most one is set; two are. */
  ghost predicate SomeExclusive(w: nat) { exists k: nat :: RuleMeaning.Exclusive(k) && Bit(w, k) }
  ghost predicate TwoExclusive(w: nat)
  {
    exists j: nat, k: nat :: j != k && RuleMeaning.Exclusive(j) && RuleMeaning.Exclusive(k) && Bit(w, j) && Bit(w, k)
  }

  lemma ExclusiveCount(w: nat)
    ensures MutexClass(DecodeCtl(w)) ==
            if TwoExclusive(w) then MultipleMutexBits else if SomeExclusive(w) then OneMutexBit else NoMutexBit
  {
    hide DecodeCtl, Bit;
    ControlFlags(w);
    RuleMeaning.SeveralFlags(w);
    var c := DecodeCtl(w);
    assert RuleMeaning.Exclusive(30) && RuleMeaning.Exclusive(29) && RuleMeaning.Exclusive(28);
    assert RuleMeaning.Exclusive(3) && RuleMeaning.Exclusive(2);
    if c.resumereq || c.hartreset || c.ackhavereset || c.setresethaltreq || c.clrresethaltreq {
      assert Bit(w, 30) || Bit(w, 29) || Bit(w, 28) || Bit(w, 3) || Bit(w, 2);
    }
  }

  /** The mutex bins count the exclusive bits a write sets: none, one, more. */
  lemma MutexBinHit(cov: Setup, w: Watch, x: Sample, which: MutexBin)
    ensures MutexBits(which) in Hits(cov, w, x) <==>
            Writes(x, 0x10)
            && which == (if TwoExclusive(Written(x)) then MultipleMutexBits
                         else if SomeExclusive(Written(x)) then OneMutexBit else NoMutexBit)
  {
    hide Hits, ControlHits, DecodeCtl, Bit, MutexClass, TwoExclusive, SomeExclusive;
    HitByControl(cov, w, x, MutexBits(which));
    ControlParts(cov, w, Written(x), MutexBits(which));
    ExclusiveCount(Written(x));
  }

  lemma AckBinHit(cov: Setup, w: Watch, x: Sample, ack: AckBin)
    ensures HaveresetAck(ack) in Hits(cov, w, x) <==>
            Writes(x, 0x10) && Selects(Written(x), w.hartsel) && w.havereset.Some?
            && match ack
               case AckWhenSet => Bit(Written(x), 28) && w.havereset.value
               case AckWhenClear => Bit(Written(x), 28) && !w.havereset.value
               case NoackWhenSet => !Bit(Written(x), 28) && w.havereset.value
  {
    hide Hits, ControlHits, DecodeCtl, Bit, Selects;
    HitByControl(cov, w, x, HaveresetAck(ack));
    ControlParts(cov, w, Written(x), HaveresetAck(ack));
    ControlFlags(Written(x));
    SelectsIsHartsel(Written(x), w.hartsel);
  }

  lemma EdgeBinHit(cov: Setup, w: Watch, x: Sample, asserted: bool, resetHaltreq: bool)
    ensures NdmresetEdge(asserted, resetHaltreq) in Hits(cov, w, x) <==>
            Writes(x, 0x10) && Bit(Written(x), 0) && Bit(Written(x), 1) == asserted && asserted != w.ndmreset
            && resetHaltreq == if Bit(Written(x), 2) then false else if Bit(Written(x), 3) then true
                               else Held(w, DecodeCtl(Written(x)).hartsel)
  {
    hide Hits, ControlHits, DecodeCtl, Bit;
    HitByControl(cov, w, x, NdmresetEdge(asserted, resetHaltreq));
    ControlParts(cov, w, Written(x), NdmresetEdge(asserted, resetHaltreq));
    ControlFlags(Written(x));
  }

  // ---- dmstatus reads ----

  /** The one-bit fields of dmstatus and where they are. */
  function StatusAt(name: Name): Option<nat>
  {
    match name
    case ndmresetpending => Some(24)
    case stickyunavail => Some(23)
    case impebreak => Some(22)
    case allhavereset => Some(19)
    case anyhavereset => Some(18)
    case allresumeack => Some(17)
    case anyresumeack => Some(16)
    case allnonexistent => Some(15)
    case anynonexistent => Some(14)
    case allunavail => Some(13)
    case anyunavail => Some(12)
    case allrunning => Some(11)
    case anyrunning => Some(10)
    case allhalted => Some(9)
    case anyhalted => Some(8)
    case authenticated => Some(7)
    case authbusy => Some(6)
    case hasresethaltreq => Some(5)
    case confstrptrvalid => Some(4)
    case _ => None
  }

  lemma StatusFieldAt(i: nat)
    requires i < |DMSTATUS.fields| && DMSTATUS.fields[i].width == 1
    ensures StatusAt(DMSTATUS.fields[i].name) == Some(DMSTATUS.fields[i].lsb)
  {
    hide StatusAt;
    if i < 5 {
      ResetFieldsAt(i);
    } else if i < 9 {
      PresenceFieldsAt(i);
    } else if i < 14 {
      RunFieldsAt(i);
    } else {
      ModuleFieldsAt(i);
    }
  }

  lemma ResetFieldsAt(i: nat)
    requires 0 <= i < 5
    ensures DMSTATUS.fields[i].width == 1 && StatusAt(DMSTATUS.fields[i].name) == Some(DMSTATUS.fields[i].lsb)
  {
  }

  lemma PresenceFieldsAt(i: nat)
    requires 5 <= i < 9
    ensures DMSTATUS.fields[i].width == 1 && StatusAt(DMSTATUS.fields[i].name) == Some(DMSTATUS.fields[i].lsb)
  {
  }

  lemma RunFieldsAt(i: nat)
    requires 9 <= i < 14
    ensures DMSTATUS.fields[i].width == 1 && StatusAt(DMSTATUS.fields[i].name) == Some(DMSTATUS.fields[i].lsb)
  {
  }

  lemma ModuleFieldsAt(i: nat)
    requires 14 <= i < 19
    ensures DMSTATUS.fields[i].width == 1 && StatusAt(DMSTATUS.fields[i].name) == Some(DMSTATUS.fields[i].lsb)
  {
  }

  /** dmstatus lists its flags from bit 24 down, with a gap below impebreak. */
  function StatusIndex(at: nat): nat { if 22 <= at <= 24 then 24 - at else if at <= 19 then 22 - at else 0 }

  predicate StatusFieldIn(name: Name, i: nat)
  {
    i < |DMSTATUS.fields| && DMSTATUS.fields[i].name == name && DMSTATUS.fields[i].width == 1
  }

  lemma StatusFieldThere(name: Name)
    requires StatusAt(name).Some?
    ensures StatusFieldIn(name, StatusIndex(StatusAt(name).value))
  {
    hide StatusFieldIn;
    if StatusAt(name).value >= 16 {
      UpperFieldThere(name);
    } else if StatusAt(name).value >= 10 {
      MiddleFieldThere(name);
    } else {
      LowerFieldThere(name);
    }
  }

  lemma UpperFieldThere(name: Name)
    requires StatusAt(name).Some? && StatusAt(name).value >= 16
    ensures StatusFieldIn(name, StatusIndex(StatusAt(name).value))
  {
  }

  lemma MiddleFieldThere(name: Name)
    requires StatusAt(name).Some? && 10 <= StatusAt(name).value < 16
    ensures StatusFieldIn(name, StatusIndex(StatusAt(name).value))
  {
  }

  lemma LowerFieldThere(name: Name)
    requires StatusAt(name).Some? && StatusAt(name).value < 10
    ensures StatusFieldIn(name, StatusIndex(StatusAt(name).value))
  {
  }

  lemma StatusFlagHit(word: nat, name: Name, value: bool)
    ensures StatusField(name, value) in FlagHits(DMSTATUS.fields, word, false) <==>
            StatusAt(name).Some? && Bit(word, StatusAt(name).value) == value
  {
    hide FlagHits, Bit, Extract, StatusAt, StatusIndex, DMSTATUS;
    var fields, k := DMSTATUS.fields, StatusField(name, value);
    FlagHitsExact(fields, word, false, k);
    if k in FlagHits(fields, word, false) {
      var i :| 0 <= i < |fields| && fields[i].width == 1 && k == StatusField(fields[i].name, fields[i].Get(word) == 1);
      StatusFieldAt(i);
      FlagHit(word, fields[i]);
    }
    if StatusAt(name).Some? && Bit(word, StatusAt(name).value) == value {
      var i := StatusIndex(StatusAt(name).value);
      StatusFieldThere(name);
      StatusFieldAt(i);
      FlagHit(word, fields[i]);
    }
  }

  lemma StatusParts(w: Watch, word: nat, k: Key)
    ensures k in StatusHits(w, word) <==>
            (var f := DecodeStatus(word);
             if k.StatusField? then k in FlagHits(DMSTATUS.fields, word, false)
             else if k.Version? then k in VersionHits(f.version)
             else if k.AllAny? then k in PairHits(f)
             else k in TransitionHits(w, StateOf(f, w.ndmreset)))
  {
    hide FlagHits, DecodeStatus, StateOf;
    if k in FlagHits(DMSTATUS.fields, word, false) {
      FlagsAreOneBit(DMSTATUS.fields, word, false, k);
    }
  }

  /** A field bin of dmstatus is hit by a read that returns that value in that field's bit. */
  lemma StatusFieldBin(cov: Setup, w: Watch, x: Sample, name: Name, value: bool)
    ensures StatusField(name, value) in Hits(cov, w, x) <==>
            Reads(x, 0x11) && StatusAt(name).Some? && Bit(Returned(x), StatusAt(name).value) == value
  {
    hide Hits, StatusHits, FlagHits, Bit, StatusAt;
    HitByStatus(cov, w, x, StatusField(name, value));
    StatusParts(w, Returned(x), StatusField(name, value));
    StatusFlagHit(Returned(x), name, value);
  }

  /** The version bins name the low four bits of the word, where they are enumerated. */
  lemma VersionBin(cov: Setup, w: Watch, x: Sample, number: nat)
    ensures Version(number) in Hits(cov, w, x) <==>
            Reads(x, 0x11) && number == Returned(x) % 16 && (number <= 3 || number == 15)
  {
    hide Hits, StatusHits, Extract, Flag;
    HitByStatus(cov, w, x, Version(number));
    StatusParts(w, Returned(x), Version(number));
    SizeFields(Returned(x));
  }

  /** The upper bit of the pair a state is reported in. */
  function PairAt(state: AllAnyState): (k: nat)
    ensures k >= 1
  {
    match state
    case HaveresetState => 19
    case ResumeackState => 17
    case NonexistentState => 15
    case UnavailState => 13
    case RunningState => 11
    case HaltedState => 9
  }

  /** The all/any bins are the two bits of the pair. */
  lemma PairBin(cov: Setup, w: Watch, x: Sample, state: AllAnyState, all: bool, any: bool)
    ensures AllAny(state, all, any) in Hits(cov, w, x) <==>
            Reads(x, 0x11) && Bit(Returned(x), PairAt(state)) == all && Bit(Returned(x), PairAt(state) - 1) == any
  {
    hide Hits, StatusHits, DecodeStatus, Bit;
    HitByStatus(cov, w, x, AllAny(state, all, any));
    StatusParts(w, Returned(x), AllAny(state, all, any));
    StatusFlags(Returned(x));
  }

  /** The state any dmstatus word tells: nonexistent before unavailable before halted before running,
      which counts as in reset while ndmreset is held, as does none of them. */
  function StateByBits(w: nat, ndmreset: bool): HartState
  {
    if Bit(w, 14) then Nonexistent
    else if Bit(w, 12) then Unavailable
    else if Bit(w, 8) then Halted
    else if Bit(w, 10) && !ndmreset then Running
    else InReset
  }

  /** A transition bin is hit by a read that changes the state of the hart last read, between two of
      halted, running and in reset; and the observer then holds that state, of the hart selected. */
  lemma TransitionBin(cov: Setup, w: Watch, x: Sample, from: HartState, to: HartState)
    ensures Transition(from, to) in Hits(cov, w, x) <==>
            Reads(x, 0x11) && w.stateHartsel == Some(w.hartsel) && w.state == from
            && to == StateByBits(Returned(x), w.ndmreset) && from != to
            && from in {Halted, Running, InReset} && to in {Halted, Running, InReset}
    ensures Reads(x, 0x11) ==>
              Seen(w, x).state == StateByBits(Returned(x), w.ndmreset) && Seen(w, x).stateHartsel == Some(w.hartsel)
  {
    hide Hits, StatusHits, DecodeStatus, Bit;
    HitByStatus(cov, w, x, Transition(from, to));
    StatusParts(w, Returned(x), Transition(from, to));
    StatusFlags(Returned(x));
  }

  /** What the module holds of the selected hart, for each pair. */
  predicate Holds(s: Dm, state: AllAnyState)
  {
    match state
    case HaveresetState => Shown(s).havereset
    case ResumeackState => Shown(s).resumeAck
    case NonexistentState => s.run.hartsel >= s.params.numHarts
    case UnavailState => Shown(s).unavailSticky || !Shown(s).available
    case RunningState => Shown(s).running
    case HaltedState => Shown(s).halted
  }

  /** Over every run an all/any bin is hit exactly by a dmstatus read that finds the selected hart in, or
      not in, the state it names. */
  lemma PairBinIsReal(cov: Setup, s0: Dm, ops: seq<Op>, op: Op, state: AllAnyState, all: bool, any: bool)
    requires Shaped(s0.abs)
    ensures AllAny(state, all, any) in HitsNext(cov, s0, ops, op) <==>
            op.Read? && op.addr == 0x11 && all == any == Holds(After(s0, ops), state)
  {
    hide Hits, Bit, Predict, After, Watched, Shown;
    var s := After(s0, ops);
    DmstatusHartBits(s);
    if Sampled(s, op).Some? {
      PairBin(cov, Watched(s0, ops), Sampled(s, op).value, state, all, any);
    }
  }

  // ---- What the observer holds, over every run ----

  /** anyhavereset as a debugger knows it: what the module held for the selected hart at the last
      dmstatus read since the last dmactive=0, cleared by an acknowledgement that kept the selection. */
  ghost function KnownHavereset(s0: Dm, ops: seq<Op>): Option<bool>
    requires Shaped(s0.abs)
  {
    if |ops| == 0 then None
    else
      var init, op := ops[..|ops| - 1], ops[|ops| - 1];
      var before := KnownHavereset(s0, init);
      if op.Read? && op.addr == 0x11 then Some(Shown(After(s0, init)).havereset)
      else if op.Write? && op.addr == 0x10 then
        if !Bit(op.value, 0) then None
        else if Bit(op.value, 28) && Selects(op.value, LastHartsel(init)) && before.Some? then Some(false)
        else before
      else before
  }

  lemma ControlSeenHavereset(w: Watch, word: nat)
    ensures ControlSeen(w, word).havereset ==
            if !Bit(word, 0) then None
            else if Bit(word, 28) && Selects(word, w.hartsel) && w.havereset.Some? then Some(false)
            else w.havereset
  {
    hide DecodeCtl, Bit, Selects;
    ControlFlags(word);
    SelectsIsHartsel(word, w.hartsel);
  }

  lemma StatusSeenHavereset(s: Dm, w: Watch)
    requires Shaped(s.abs)
    ensures StatusSeen(w, Predict(s, DMSTATUS_ADDR)).havereset == Some(Shown(s).havereset)
  {
    hide DecodeStatus, Bit, Predict, StateOf, Shown;
    DmstatusHartBits(s);
    StatusFlags(Predict(s, DMSTATUS_ADDR));
  }

  lemma OtherSeenHavereset(w: Watch, x: Sample)
    requires !Writes(x, 0x10) && !Reads(x, 0x11)
    ensures Seen(w, x).havereset == w.havereset
  {
  }

  /** Over every run the observer's havereset is that. */
  lemma {:induction false} ObservedHavereset(s0: Dm, ops: seq<Op>)
    requires Ok(s0)
    ensures Watched(s0, ops).havereset == KnownHavereset(s0, ops)
  {
    hide DecodeCtl, DecodeStatus, ControlSeen, StatusSeen, Bit, Selects, Predict, Shown;
    if |ops| > 0 {
      var init, op := ops[..|ops| - 1], ops[|ops| - 1];
      ObservedHavereset(s0, init);
      SelectionTracked(s0, init);
      var s, w := After(s0, init), Watched(s0, init);
      if op.Read? && op.addr == 0x11 {
        StatusSeenHavereset(s, w);
      } else if op.Write? && op.addr == 0x10 {
        ControlSeenHavereset(w, op.value);
      } else if Sampled(s, op).Some? {
        OtherSeenHavereset(w, Sampled(s, op).value);
      }
    }
  }

  /** The acknowledgement cross, over every run: a write that keeps the selection, against what the
      debugger then knows of havereset. */
  lemma AckBinExact(cov: Setup, s0: Dm, ops: seq<Op>, op: Op, ack: AckBin)
    requires Ok(s0)
    ensures HaveresetAck(ack) in HitsNext(cov, s0, ops, op) <==>
            op.Write? && op.addr == 0x10 && Selects(op.value, LastHartsel(ops)) && KnownHavereset(s0, ops).Some?
            && (Bit(op.value, 28) <==> !ack.NoackWhenSet?)
            && (KnownHavereset(s0, ops).value <==> !ack.AckWhenClear?)
  {
    hide Hits, Bit, Selects, Predict, After, Watched, KnownHavereset, LastHartsel;
    ObservedHavereset(s0, ops);
    SelectionTracked(s0, ops);
    if Sampled(After(s0, ops), op).Some? {
      AckBinHit(cov, Watched(s0, ops), Sampled(After(s0, ops), op).value, ack);
    }
  }

  /** An acknowledgement that kept the selection followed the last dmstatus read. */
  ghost predicate AckedSinceRead(ops: seq<Op>)
  {
    |ops| > 0
    && var init, op := ops[..|ops| - 1], ops[|ops| - 1];
       !(op.Read? && op.addr == 0x11)
       && ((op.Write? && op.addr == 0x10 && Bit(op.value, 28) && Selects(op.value, LastHartsel(init)))
           || AckedSinceRead(init))
  }

  /** Whose havereset it is: that of the hart the module had selected at the last read, wherever the
      selection moved since. */
  lemma {:induction false} KnownIsRead(s0: Dm, ops: seq<Op>)
    requires Ok(s0)
    ensures KnownHavereset(s0, ops) ==
            match LastRead(s0, ops)
            case None => None
            case Some(d) => Some(Shown(d).havereset && !AckedSinceRead(ops))
  {
    hide DecodeCtl, Bit, Selects, After, Shown, LastHartsel;
    if |ops| > 0 {
      var op := ops[|ops| - 1];
      KnownIsRead(s0, ops[..|ops| - 1]);
      if op.Write? {
        ControlFlags(op.value);
      }
    }
  }

  /** So the cross can name another hart's bit: hart 0 is read with havereset set, hart 1 is selected by
      one write and acknowledged by the next, and an acknowledgement of a set bit is counted though that
      of hart 1 is clear. */
  lemma AckBinMisnamesHart(cov: Setup, s0: Dm)
    requires AtReset(s0) && s0.params.numHarts >= 2 && s0.run.harts[0].havereset && !s0.run.harts[1].havereset
    ensures var ops := [ControlWrite(IDLE), Op.Read(0x11), ControlWrite(IDLE.(hartsel := 1))];
            var s := After(s0, ops);
            && HaveresetAck(AckWhenSet) in HitsNext(cov, s0, ops, ControlWrite(IDLE.(hartsel := 1, ackhavereset := true)))
            && |s.run.harts| >= 2 && !s.run.harts[1].havereset
  {
    hide HitsNext, ControlWrite, Step, LastHartsel, After, Bit, Selects, KnownHavereset;
    var c1, c2, c3 := IDLE, IDLE.(hartsel := 1), IDLE.(hartsel := 1, ackhavereset := true);
    var ops := [ControlWrite(c1), Op.Read(0x11), ControlWrite(c2)];
    IsControlWrite(c1);
    IsControlWrite(c2);
    IsControlWrite(c3);
    WriteReadWrite(s0, c1, c2);
    KnownAfterMove(s0);
    AskedBits(c3);
    IdleKeepsHavereset(s0);
    AckBinExact(cov, s0, ops, ControlWrite(c3), AckWhenSet);
  }

  lemma AskedBits(c: Ctl)
    requires c.hartsel < 0x10_0000
    ensures var w := ControlWrite(c).value;
            Bit(w, 28) == c.ackhavereset && Bit(w, 1) == c.ndmreset && Bit(w, 0) == c.dmactive && Selects(w, c.hartsel)
  {
    hide DriverDmcontrol, DecodeCtl, Bit, Selects;
    ControlWriteDecodes(c);
    ControlFlags(ControlWrite(c).value);
    SelectsIsHartsel(ControlWrite(c).value, c.hartsel);
  }

  lemma IdleHavereset(s: Dm, sel: nat, i: nat)
    requires Ok(s) && i < s.params.numHarts && !s.run.ndmreset && !s.run.hartresetLevel && sel < 0x10_0000
    ensures var t := Step(s, ControlWrite(IDLE.(hartsel := sel)));
            && Ok(t) && t.params == s.params && !t.run.ndmreset && !t.run.hartresetLevel && t.run.hartsel == sel
            && i < |t.run.harts| && t.run.harts[i].havereset == s.run.harts[i].havereset
  {
    hide DriverDmcontrol, ControlWrite, HartAfter, Bit, Selects;
    var c := IDLE.(hartsel := sel);
    IsControlWrite(c);
    AskedBits(c);
    ControlWriteRun(s, c);
    StepOk(s, ControlWrite(c));
    DmcontrolLaw(s, ControlWrite(c).value, i);
  }

  lemma IdleKeepsHavereset(s0: Dm)
    requires AtReset(s0) && s0.params.numHarts >= 2
    ensures var s1 := Step(s0, ControlWrite(IDLE));
            var s2 := Step(s1, ControlWrite(IDLE.(hartsel := 1)));
            && |s1.run.harts| >= 2 && |s2.run.harts| >= 2 && s1.run.hartsel == 0
            && s1.run.harts[0].havereset == s0.run.harts[0].havereset
            && s2.run.harts[1].havereset == s0.run.harts[1].havereset
  {
    hide ControlWrite, Step;
    var s1 := Step(s0, ControlWrite(IDLE));
    assert IDLE == IDLE.(hartsel := 0);
    IdleHavereset(s0, 0, 0);
    IdleHavereset(s0, 0, 1);
    IdleHavereset(s1, 1, 1);
  }

  lemma KnownAfterMove(s0: Dm)
    requires AtReset(s0) && s0.params.numHarts >= 2 && s0.run.harts[0].havereset
    ensures KnownHavereset(s0, [ControlWrite(IDLE), Op.Read(0x11), ControlWrite(IDLE.(hartsel := 1))]) == Some(true)
  {
    hide ControlWrite, Step, Bit, Selects, LastHartsel;
    var w1, rd, w2 := ControlWrite(IDLE), Op.Read(0x11), ControlWrite(IDLE.(hartsel := 1));
    IsControlWrite(IDLE);
    IsControlWrite(IDLE.(hartsel := 1));
    AskedBits(IDLE.(hartsel := 1));
    IdleKeepsHavereset(s0);
    assert [w1][..0] == [] && [w1, rd][..1] == [w1] && [w1, rd, w2][..2] == [w1, rd];
    assert After(s0, [w1]) == Step(s0, w1);
    assert KnownHavereset(s0, [w1, rd]) == Some(Shown(Step(s0, w1)).havereset);
  }

  /** The halt-on-reset bit of hart `i` by the writes that named it since the last dmactive=0. */
  ghost predicate HeldByWrites(ops: seq<Op>, i: nat)
  {
    |ops| > 0
    && var init, op := ops[..|ops| - 1], ops[|ops| - 1];
       if !(op.Write? && op.addr == 0x10) then HeldByWrites(init, i)
       else if !Bit(op.value, 0) then false
       else if Selects(op.value, i) && Bit(op.value, 2) then false
       else (Selects(op.value, i) && Bit(op.value, 3)) || HeldByWrites(init, i)
  }

  lemma ControlSeenHeld(w: Watch, word: nat, i: nat)
    ensures Held(ControlSeen(w, word), i) <==>
            Bit(word, 0)
            && if Selects(word, i) && Bit(word, 2) then false
               else (Selects(word, i) && Bit(word, 3)) || Held(w, i)
  {
    hide DecodeCtl, Bit, Selects;
    ControlFlags(word);
    SelectsIsHartsel(word, i);
  }

  lemma OtherSeenHeld(w: Watch, x: Sample, i: nat)
    requires !Writes(x, 0x10)
    ensures Held(Seen(w, x), i) == Held(w, i) && Seen(w, x).ndmreset == w.ndmreset
  {
    hide DecodeStatus, StateOf;
  }

  lemma {:induction false} ObservedHeld(s0: Dm, ops: seq<Op>, i: nat)
    requires Ok(s0)
    ensures Held(Watched(s0, ops), i) <==> HeldByWrites(ops, i)
  {
    hide DecodeCtl, ControlSeen, StatusSeen, Bit, Selects, Predict, Held;
    if |ops| == 0 {
      assert !Held(START, i) by { NothingHeld(i); }
    } else {
      var init, op := ops[..|ops| - 1], ops[|ops| - 1];
      ObservedHeld(s0, init, i);
      var s, w := After(s0, init), Watched(s0, init);
      if op.Write? && op.addr == 0x10 {
        ControlSeenHeld(w, op.value, i);
      } else if Sampled(s, op).Some? {
        OtherSeenHeld(w, Sampled(s, op).value, i);
      }
    }
  }

  lemma NothingHeld(i: nat)
    ensures !Held(START, i)
  {
  }

  /** The reset-edge bins, over every run, for either edge and any hart: ndmreset really moves, and the
      name says whether the halt-on-reset bit of the hart named is set once this write has acted on it. */
  lemma EdgeBinExact(cov: Setup, s0: Dm, ops: seq<Op>, op: Op, asserted: bool, held: bool)
    requires AtReset(s0) && NoConfigure(ops)
    ensures NdmresetEdge(asserted, held) in HitsNext(cov, s0, ops, op) <==>
            op.Write? && op.addr == 0x10 && Bit(op.value, 0)
            && Bit(op.value, 1) == asserted && After(s0, ops).run.ndmreset == !asserted
            && (exists i: nat :: Selects(op.value, i) && held == HeldByWrites(ops + [op], i))
  {
    hide Hits, Bit, Selects, Predict, After, Watched, HeldByWrites, Held, DecodeCtl;
    BusOnlyReconstruction(s0, ops);
    var s := After(s0, ops);
    if op.Write? && op.addr == 0x10 {
      var i := DecodeCtl(op.value).hartsel;
      SelectsIsHartsel(op.value, i);
      EdgeBinHit(cov, Watched(s0, ops), Sampled(s, op).value, asserted, held);
      ObservedHeld(s0, ops, i);
      HeldNext(ops, op, i);
      forall j: nat | Selects(op.value, j) ensures j == i {
        SelectsIsHartsel(op.value, j);
      }
    } else if Sampled(s, op).Some? {
      EdgeBinHit(cov, Watched(s0, ops), Sampled(s, op).value, asserted, held);
    }
  }

  lemma HeldNext(ops: seq<Op>, op: Op, i: nat)
    requires op.Write? && op.addr == 0x10 && Selects(op.value, i)
    ensures HeldByWrites(ops + [op], i) <==>
            Bit(op.value, 0) && !Bit(op.value, 2) && (Bit(op.value, 3) || HeldByWrites(ops, i))
  {
    hide Bit, Selects;
    assert (ops + [op])[..|ops|] == ops;
  }

  // ---- External debug ----

  /** The value the observer takes for the operand of a command of `w`. */
  function OperandOf(watch: Watch, w: nat): nat
  {
    if (w / 0x10_0000) % 8 == 3 then watch.staged1 else watch.staged0
  }

  lemma CommandParts(watch: Watch, word: nat, k: Key)
    ensures k in CommandHits(watch, word) <==>
            match k
            case CommandDirection(write) => Bit(word, 17) && Bit(word, 16) == write
            case CommandRegno(csr) =>
              Bit(word, 17) && if csr then word % 0x1_0000 < 0x1000 else 0x1000 <= word % 0x1_0000 < 0x1020
            case TriggerCsrReached(csr) => Bit(word, 17) && CsrOf(word % 0x1_0000) == Some(csr)
            case TriggerTypeSet(t) =>
              Bit(word, 17) && Bit(word, 16) && word % 0x1_0000 == 0x7A1
              && TypeOf(Extract(OperandOf(watch, word), 28, 4)) == Some(t)
            case ProgbufExecuted => Bit(word, 18)
            case _ => false
  {
    hide Extract, Bit, CsrOf, TypeOf;
    CommandFields(word);
    CommandFlags(word);
    TselectGroup();
    var cmd := DecodeCommand(word);
    hide DecodeCommand, Flag;
    assert cmd.regno == word % 0x1_0000 && cmd.aarsize == (word / 0x10_0000) % 8;
  }

  lemma TselectGroup()
    ensures CsrOf(0x7A1) == Some(Tdata1)
  {
  }

  lemma CommandFlags(word: nat)
    ensures var cmd := DecodeCommand(word);
            cmd.postexec == Bit(word, 18) && cmd.transfer == Bit(word, 17) && cmd.write == Bit(word, 16)
  {
    FlagIsBit(word, 18);
    FlagIsBit(word, 17);
    FlagIsBit(word, 16);
  }

  predicate OfCommand(k: Key)
  {
    k.CommandDirection? || k.CommandRegno? || k.TriggerCsrReached? || k.TriggerTypeSet? || k.ProgbufExecuted?
  }

  lemma CommandKeys(w: Watch, word: nat, k: Key)
    ensures k in CommandHits(w, word) ==> OfCommand(k)
  {
    hide DecodeCommand, Extract, CsrOf, TypeOf;
  }

  lemma OtherKeys(w: Watch, x: Sample, k: Key)
    ensures k in AbstractcsHits(Returned(x)) ==> k.AbstractcsBusy? || k.AbstractcsHas?
    ensures k in SbcsHits(x) ==> k.SbcsReadonaddr? || k.SbcsIdle?
    ensures k in Dmcs2Hits(Written(x)) ==> k.Dmcs2Hgselect? || k.Dmcs2Grouptype? || k.Dmcs2Group?
  {
    hide Extract;
  }

  /** Which access can hit which of the external-debug bins. */
  lemma ByAddress(w: Watch, x: Sample, k: Key)
    ensures k in ExternalHits(w, x) <==>
            if OfCommand(k) then Writes(x, 0x17) && k in CommandHits(w, Written(x))
            else match k
                 case Data0Access(write) => 4 <= x.addr <= 15 && x.op == (if write then WriteOp else ReadOp)
                 case AbstractcsBusy(_) => Reads(x, 0x16) && k in AbstractcsHits(Returned(x))
                 case AbstractcsHas(_) => Reads(x, 0x16) && k in AbstractcsHits(Returned(x))
                 case ProgbufWritten => x.op == WriteOp && 0x20 <= x.addr <= 0x2F
                 case SbcsReadonaddr(_) => x.addr == 0x38 && k in SbcsHits(x)
                 case SbcsIdle => x.addr == 0x38 && k in SbcsHits(x)
                 case SbAddressWrite => Writes(x, 0x39)
                 case SbDataAccess(write) => x.addr == 0x3C && x.op == (if write then WriteOp else ReadOp)
                 case Dmcs2Hgselect(_) => Writes(x, 0x32) && k in Dmcs2Hits(Written(x))
                 case Dmcs2Grouptype(_) => Writes(x, 0x32) && k in Dmcs2Hits(Written(x))
                 case Dmcs2Group(_) => Writes(x, 0x32) && k in Dmcs2Hits(Written(x))
                 case HartinfoRead => Reads(x, 0x12)
                 case Haltsum0Read(some) => Reads(x, 0x40) && (Returned(x) != 0) == some
                 case _ => false
  {
    hide CommandHits, AbstractcsHits, SbcsHits, Dmcs2Hits;
    CommandKeys(w, Written(x), k);
    OtherKeys(w, x, k);
  }

  lemma HitByAddress(cov: Setup, w: Watch, x: Sample, k: Key)
    requires !OfControl(k) && !OfStatus(k) && !k.DmiAccess?
    ensures k in Hits(cov, w, x) <==> k in ExternalHits(Staged(w, x), x)
  {
    hide Hits, CommandHits, AbstractcsHits, SbcsHits, Dmcs2Hits;
    HitExternally(cov, w, x, k);
  }

  lemma HitByCommand(cov: Setup, w: Watch, x: Sample, k: Key)
    requires OfCommand(k)
    ensures k in Hits(cov, w, x) <==> Writes(x, 0x17) && k in CommandHits(w, Written(x))
  {
    hide Hits, CommandHits, ExternalHits;
    HitByAddress(cov, w, x, k);
    ByAddress(Staged(w, x), x, k);
  }

  /** The number of each trigger CSR; the type code of each trigger. */
  function CsrNumber(csr: TriggerCsr): nat
  {
    match csr
    case Tselect => 0x7A0
    case Tdata1 => 0x7A1
    case Tdata2 => 0x7A2
    case Tdata3 => 0x7A3
    case Tinfo => 0x7A4
  }

  function TypeCode(t: TriggerType): nat
  {
    match t
    case Mcontrol => 2
    case Icount => 3
    case Itrigger => 4
    case Etrigger => 5
    case Mcontrol6 => 6
    case Tmexttrigger => 7
  }

  lemma CsrNumbered(regno: nat, csr: TriggerCsr)
    ensures CsrOf(regno) == Some(csr) <==> regno == CsrNumber(csr)
  {
  }

  lemma TypeCoded(code: nat, t: TriggerType)
    ensures TypeOf(code) == Some(t) <==> code == TypeCode(t)
  {
  }

  /** The direction, register and program buffer bins of a command word, by its bits. */
  lemma CommandBins(cov: Setup, w: Watch, x: Sample, b: bool, csr: TriggerCsr)
    ensures CommandDirection(b) in Hits(cov, w, x) <==>
            Writes(x, 0x17) && Bit(Written(x), 17) && Bit(Written(x), 16) == b
    ensures CommandRegno(b) in Hits(cov, w, x) <==>
            Writes(x, 0x17) && Bit(Written(x), 17)
            && if b then Written(x) % 0x1_0000 < 0x1000 else 0x1000 <= Written(x) % 0x1_0000 < 0x1020
    ensures TriggerCsrReached(csr) in Hits(cov, w, x) <==>
            Writes(x, 0x17) && Bit(Written(x), 17) && Written(x) % 0x1_0000 == CsrNumber(csr)
    ensures ProgbufExecuted in Hits(cov, w, x) <==> Writes(x, 0x17) && Bit(Written(x), 18)
  {
    hide Hits, CommandHits, CsrOf, CsrNumber, Bit;
    HitByCommand(cov, w, x, CommandDirection(b));
    HitByCommand(cov, w, x, CommandRegno(b));
    HitByCommand(cov, w, x, TriggerCsrReached(csr));
    HitByCommand(cov, w, x, ProgbufExecuted);
    CommandParts(w, Written(x), CommandDirection(b));
    CommandParts(w, Written(x), CommandRegno(b));
    CommandParts(w, Written(x), TriggerCsrReached(csr));
    CommandParts(w, Written(x), ProgbufExecuted);
    CsrNumbered(Written(x) % 0x1_0000, csr);
  }

  /** The last word written to data register `addr`, 0 before the first. */
  function LastWritten(ops: seq<Op>, addr: nat): nat
  {
    if |ops| == 0 then 0
    else if ops[|ops| - 1].Write? && ops[|ops| - 1].addr == addr then ops[|ops| - 1].value
    else LastWritten(ops[..|ops| - 1], addr)
  }

  lemma SeenStaged(w: Watch, x: Sample)
    ensures Seen(w, x).staged0 == if Writes(x, 4) then Written(x) else w.staged0
    ensures Seen(w, x).staged1 == if Writes(x, 5) then Written(x) else w.staged1
  {
    hide DecodeCtl, DecodeStatus, StateOf, Shadowed;
  }

  lemma {:induction false} ObservedStaged(s0: Dm, ops: seq<Op>)
    requires Shaped(s0.abs)
    ensures Watched(s0, ops).staged0 == LastWritten(ops, 4) && Watched(s0, ops).staged1 == LastWritten(ops, 5)
  {
    hide Seen, Predict;
    if |ops| > 0 {
      var init, op := ops[..|ops| - 1], ops[|ops| - 1];
      ObservedStaged(s0, init);
      if Sampled(After(s0, init), op).Some? {
        SeenStaged(Watched(s0, init), Sampled(After(s0, init), op).value);
      }
    }
  }

  /** Over every run a trigger type is counted by a command that writes tdata1, and the type is the upper
      four bits of the word last written to data0, or to data1 if the transfer is of 64 bits. */
  lemma TriggerTypeExact(cov: Setup, s0: Dm, ops: seq<Op>, op: Op, t: TriggerType)
    requires Shaped(s0.abs)
    ensures TriggerTypeSet(t) in HitsNext(cov, s0, ops, op) <==>
            op.Write? && op.addr == 0x17 && Bit(op.value, 17) && Bit(op.value, 16) && op.value % 0x1_0000 == 0x7A1
            && (LastWritten(ops, if (op.value / 0x10_0000) % 8 == 3 then 5 else 4) / 0x1000_0000) % 16 == TypeCode(t)
  {
    hide Hits, CommandHits, Bit, TypeOf, TypeCode, Predict, After, Watched, LastWritten, Extract;
    ObservedStaged(s0, ops);
    var w, s := Watched(s0, ops), After(s0, ops);
    if Sampled(s, op).Some? {
      var x := Sampled(s, op).value;
      HitByCommand(cov, w, x, TriggerTypeSet(t));
      CommandParts(w, Written(x), TriggerTypeSet(t));
      UpperNibble(OperandOf(w, Written(x)));
      TypeCoded(Extract(OperandOf(w, Written(x)), 28, 4), t);
    }
  }

  lemma UpperNibble(w: nat)
    ensures Extract(w, 28, 4) == (w / 0x1000_0000) % 16
  {
    hide Extract;
    ExtractIsDivMod(w, 28, 4);
    assert Pow2(4) == 16 && Pow2(14) == 16384 && Pow2(28) == 0x1000_0000;
  }

  /** What a read of abstractcs counts. */
  lemma AbstractcsBins(cov: Setup, w: Watch, x: Sample, b: bool)
    ensures AbstractcsBusy(b) in Hits(cov, w, x) <==> Reads(x, 0x16) && Bit(Returned(x), 12) == b
    ensures AbstractcsHas(b) in Hits(cov, w, x) <==>
            Reads(x, 0x16) && if b then (Returned(x) / 0x100_0000) % 32 != 0 else Returned(x) % 16 != 0
  {
    hide Hits, ExternalHits, Extract, Bit;
    HitByAddress(cov, w, x, AbstractcsBusy(b));
    HitByAddress(cov, w, x, AbstractcsHas(b));
    ByAddress(Staged(w, x), x, AbstractcsBusy(b));
    ByAddress(Staged(w, x), x, AbstractcsHas(b));
    FlagIsBit(Returned(x), 12);
    SizeFields(Returned(x));
  }

  lemma SizeFields(word: nat)
    ensures Extract(word, 24, 5) == (word / 0x100_0000) % 32 && Extract(word, 0, 4) == word % 16
  {
    hide Extract;
    ExtractIsDivMod(word, 24, 5);
    ExtractIsDivMod(word, 0, 4);
    assert Pow2(0) == 1 && Pow2(4) == 16 && Pow2(5) == 32 && Pow2(12) == 4096 && Pow2(24) == 0x100_0000;
  }

  /** What an access to the system bus registers counts. */
  lemma SystemBusBins(cov: Setup, w: Watch, x: Sample, b: bool)
    ensures SbcsReadonaddr(b) in Hits(cov, w, x) <==>
            x.addr == 0x38 && Bit(if x.op == WriteOp then Written(x) else Returned(x), 20) == b
    ensures SbcsIdle in Hits(cov, w, x) <==> Reads(x, 0x38) && !Bit(Returned(x), 21)
    ensures SbAddressWrite in Hits(cov, w, x) <==> Writes(x, 0x39)
    ensures SbDataAccess(b) in Hits(cov, w, x) <==> if b then Writes(x, 0x3C) else Reads(x, 0x3C)
  {
    hide Hits, ExternalHits, Extract, Bit;
    HitByAddress(cov, w, x, SbcsReadonaddr(b));
    HitByAddress(cov, w, x, SbcsIdle);
    HitByAddress(cov, w, x, SbAddressWrite);
    HitByAddress(cov, w, x, SbDataAccess(b));
    ByAddress(Staged(w, x), x, SbcsReadonaddr(b));
    ByAddress(Staged(w, x), x, SbcsIdle);
    ByAddress(Staged(w, x), x, SbAddressWrite);
    ByAddress(Staged(w, x), x, SbDataAccess(b));
    FlagIsBit(Written(x), 20);
    FlagIsBit(Returned(x), 20);
    FlagIsBit(Returned(x), 21);
  }

  /** What a write of dmcs2 counts: bit 2 for hgselect, bit 11 for grouptype, bits 6 to 2 for the group. */
  lemma Dmcs2Bins(cov: Setup, w: Watch, x: Sample, b: bool)
    ensures Dmcs2Hgselect(b) in Hits(cov, w, x) <==> Writes(x, 0x32) && Bit(Written(x), 2) == b
    ensures Dmcs2Grouptype(b) in Hits(cov, w, x) <==> Writes(x, 0x32) && Bit(Written(x), 11) == b
    ensures Dmcs2Group(b) in Hits(cov, w, x) <==> Writes(x, 0x32) && ((Written(x) / 4) % 32 != 0) == b
  {
    hide Hits, ExternalHits, Extract, Bit;
    HitByAddress(cov, w, x, Dmcs2Hgselect(b));
    HitByAddress(cov, w, x, Dmcs2Grouptype(b));
    HitByAddress(cov, w, x, Dmcs2Group(b));
    ByAddress(Staged(w, x), x, Dmcs2Hgselect(b));
    ByAddress(Staged(w, x), x, Dmcs2Grouptype(b));
    ByAddress(Staged(w, x), x, Dmcs2Group(b));
    FlagIsBit(Written(x), 2);
    FlagIsBit(Written(x), 11);
    ExtractIsDivMod(Written(x), 2, 5);
    assert Pow2(2) == 4 && Pow2(5) == 32;
  }

  /** What the accesses counted by address and direction alone hit. */
  lemma AddressBins(cov: Setup, w: Watch, x: Sample, b: bool)
    ensures Data0Access(b) in Hits(cov, w, x) <==> 4 <= x.addr <= 15 && x.op == (if b then WriteOp else ReadOp)
    ensures ProgbufWritten in Hits(cov, w, x) <==> x.op == WriteOp && 0x20 <= x.addr <= 0x2F
    ensures HartinfoRead in Hits(cov, w, x) <==> Reads(x, 0x12)
    ensures Haltsum0Read(b) in Hits(cov, w, x) <==> Reads(x, 0x40) && (Returned(x) != 0) == b
  {
    hide Hits, ExternalHits;
    HitByAddress(cov, w, x, Data0Access(b));
    HitByAddress(cov, w, x, ProgbufWritten);
    HitByAddress(cov, w, x, HartinfoRead);
    HitByAddress(cov, w, x, Haltsum0Read(b));
    ByAddress(Staged(w, x), x, Data0Access(b));
    ByAddress(Staged(w, x), x, ProgbufWritten);
    ByAddress(Staged(w, x), x, HartinfoRead);
    ByAddress(Staged(w, x), x, Haltsum0Read(b));
  }
}
