// Which bins src/pydebug/model/coverage.py declares, against which samples can hit:
// every declared key but the wholly excluded groups can be hit, nothing else can, and
// no sample counts a key twice.

module BinPopulation {
  import opened Bits
  import opened Registers
  import opened Words
  import opened DebugModule
  import opened RunControl
  import opened HartLaws
  import opened Coverage
  import opened CoverageRuns
  import opened BinMeaning
  import RuleMeaning

  /** The exclusions, one by one. */
  lemma ExclusionsListed(cov: Setup, k: Key)
    ensures IsExclusion(cov, k) <==>
            k == DmiAccess(true, true)
            || (k.StatusField? && LevelExcluded(cov, k.name, k.value))
            || k == Version(0) || k == Version(1) || k == Version(15)
            || k == AllAny(UnavailState, true, true)
            || (k.AllAny? && (k == AllAny(k.state, true, false) || k == AllAny(k.state, false, true)))
            || k == Transition(Halted, InReset) || k.Whole?
  {
    hide OneBit, OutOfSlice, LevelExcluded;
    if k.StatusField? {
      LevelsListed(cov, k.name, k.value);
    }
  }

  /** The dmstatus levels out of the slice: bits that would have to read 1 and, of authenticated, 0. */
  predicate LevelExcluded(cov: Setup, name: Name, value: bool)
  {
    (value && (name == Name.impebreak || name == Name.authbusy || name == Name.confstrptrvalid
               || name == Name.allunavail || name == Name.anyunavail))
    || (!value && name == Name.authenticated)
    || (value && name == Name.stickyunavail && !cov.supportsStickyunavail)
  }

  lemma LevelsListed(cov: Setup, name: Name, value: bool)
    ensures OneBit(DMSTATUS.fields, name) && OutOfSlice(cov, name, value) <==> LevelExcluded(cov, name, value)
  {
    hide OneBit, StatusAt;
    LevelDeclared(name);
    LevelsAreFlags();
  }

  lemma LevelsAreFlags()
    ensures StatusAt(Name.impebreak).Some? && StatusAt(Name.authbusy).Some? && StatusAt(Name.confstrptrvalid).Some?
    ensures StatusAt(Name.allunavail).Some? && StatusAt(Name.anyunavail).Some? && StatusAt(Name.authenticated).Some?
    ensures StatusAt(Name.stickyunavail).Some?
  {
  }

  predicate Holds(fields: seq<Field>, name: Name, i: nat) { i < |fields| && IsFlag(fields[i], name) }

  lemma {:induction false} OneBitAt(fields: seq<Field>, name: Name)
    ensures OneBit(fields, name) <==> exists i: nat :: Holds(fields, name, i)
  {
    hide IsFlag;
    if |fields| > 0 {
      var n := |fields| - 1;
      OneBitAt(fields[..n], name);
      if OneBit(fields[..n], name) {
        var i: nat :| Holds(fields[..n], name, i);
        assert Holds(fields, name, i);
      } else if IsFlag(fields[n], name) {
        assert Holds(fields, name, n);
      }
      if exists i: nat :: Holds(fields, name, i) {
        var i: nat :| Holds(fields, name, i);
        assert i < n ==> Holds(fields[..n], name, i);
      }
    }
  }

  /** The one-bit fields the observer counts are those of the two registers. */
  lemma LevelDeclared(name: Name)
    ensures OneBit(DMSTATUS.fields, name) <==> StatusAt(name).Some?
    ensures OneBit(DMCONTROL.fields, name) <==> ControlAt(name).Some?
  {
    hide OneBit, StatusAt, ControlAt, DMSTATUS, DMCONTROL, StatusIndex, ControlIndex;
    OneBitAt(DMSTATUS.fields, name);
    OneBitAt(DMCONTROL.fields, name);
    if StatusAt(name).Some? {
      StatusFieldThere(name);
      assert Holds(DMSTATUS.fields, name, StatusIndex(StatusAt(name).value));
    }
    if ControlAt(name).Some? {
      ControlFieldThere(name);
      assert Holds(DMCONTROL.fields, name, ControlIndex(name));
    }
    forall i: nat | Holds(DMSTATUS.fields, name, i) ensures StatusAt(name).Some? {
      StatusFieldAt(i);
    }
    forall i: nat | Holds(DMCONTROL.fields, name, i) ensures ControlAt(name).Some? {
      ControlFieldAt(i);
    }
  }

  // ---- Every key can be hit ----

  /** Some sample hits the key, whatever the observer saw before. */
  ghost predicate Hittable(cov: Setup, k: Key)
  {
    exists w: Watch, x: Sample :: k in Hits(cov, w, x)
  }

  function WriteOf(addr: nat, word: nat): Sample { Sample(WriteOp, addr, Some(word), None) }
  function ReadOf(addr: nat, word: nat): Sample { Sample(ReadOp, addr, None, Some(word)) }

  /** The word with one bit, or none. */
  function Single(b: bool, at: nat): nat { Shl(FromBool(b), at) }

  lemma SingleBit(b: bool, at: nat, k: nat)
    ensures Bit(Single(b, at), k) <==> b && k == at
  {
    BitShl(FromBool(b), at, k);
    if k >= at {
      BitFlag(b, k - at);
    }
  }

  /** A dmcontrol word that asks for `c`. */
  function Asks(c: Ctl): Sample { WriteOf(0x10, DriverDmcontrol(c)) }

  lemma AsksBits(c: Ctl)
    requires c.hartsel < 0x10_0000
    ensures var w := Written(Asks(c));
            && Bit(w, 31) == c.haltreq && Bit(w, 30) == c.resumereq && Bit(w, 29) == c.hartreset
            && Bit(w, 28) == c.ackhavereset && Bit(w, 3) == c.setresethaltreq && Bit(w, 2) == c.clrresethaltreq
            && Bit(w, 1) == c.ndmreset && Bit(w, 0) == c.dmactive && Selects(w, c.hartsel) && DecodeCtl(w) == c
  {
    hide DriverDmcontrol, DecodeCtl, Bit, Selects;
    ControlWriteDecodes(c);
    ControlFlags(DriverDmcontrol(c));
    SelectsIsHartsel(DriverDmcontrol(c), c.hartsel);
  }

  lemma FieldsHittable(cov: Setup, name: Name, value: bool)
    ensures ControlAt(name).Some? ==> Hittable(cov, ControlField(name, value))
    ensures StatusAt(name).Some? ==> Hittable(cov, StatusField(name, value))
  {
    hide Hits, Bit, StatusAt, ControlAt, Single;
    if ControlAt(name).Some? {
      var x := WriteOf(0x10, Single(value, ControlAt(name).value));
      SingleBit(value, ControlAt(name).value, ControlAt(name).value);
      ControlFieldBin(cov, START, x, name, value);
    }
    if StatusAt(name).Some? {
      var x := ReadOf(0x11, Single(value, StatusAt(name).value));
      SingleBit(value, StatusAt(name).value, StatusAt(name).value);
      StatusFieldBin(cov, START, x, name, value);
    }
  }

  lemma PairHittable(cov: Setup, state: AllAnyState, all: bool, any: bool)
    ensures Hittable(cov, AllAny(state, all, any))
  {
    hide Hits, Bit, Single, PairAt;
    var at := PairAt(state);
    var upper, lower := Single(all, at), Single(any, at - 1);
    var x := ReadOf(0x11, Or(upper, lower));
    BitOr(upper, lower, at);
    BitOr(upper, lower, at - 1);
    SingleBit(all, at, at);
    SingleBit(all, at, at - 1);
    SingleBit(any, at - 1, at);
    SingleBit(any, at - 1, at - 1);
    PairBin(cov, START, x, state, all, any);
  }

  lemma VersionHittable(cov: Setup, number: nat)
    requires number <= 3 || number == 15
    ensures Hittable(cov, Version(number))
  {
    hide Hits;
    VersionBin(cov, START, ReadOf(0x11, number), number);
  }

  lemma RequestsHittable(cov: Setup, halt: bool, resume: bool, i: nat, which: HartselBin)
    ensures Hittable(cov, HaltreqResumereq(halt, resume))
    ensures i < 0x10_0000 && InBin(cov, which, i) ==> Hittable(cov, Hartsel(which))
  {
    hide Hits, Bit, Selects, Asks;
    var c := IDLE.(haltreq := halt, resumereq := resume);
    AsksBits(c);
    IsWrite(c);
    RequestBin(cov, START, Asks(c), halt, resume);
    if i < 0x10_0000 && InBin(cov, which, i) {
      var d := IDLE.(hartsel := i);
      AsksBits(d);
      IsWrite(d);
      HartselBinHit(cov, START, Asks(d), which);
    }
  }

  lemma IsWrite(c: Ctl)
    ensures Writes(Asks(c), 0x10)
  {
  }

  lemma MutexHittable(cov: Setup, which: MutexBin)
    ensures Hittable(cov, MutexBits(which))
  {
    hide Hits, Bit, Selects, Asks;
    var one := which != NoMutexBit;
    var c := IDLE.(resumereq := one, ackhavereset := which == MultipleMutexBits);
    AsksBits(c);
    IsWrite(c);
    var w := Written(Asks(c));
    ExclusiveCount(w);
    assert DecodeCtl(w) == c;
    MutexBinHit(cov, START, Asks(c), which);
  }

  lemma CrossesHittable(cov: Setup, ack: AckBin, asserted: bool, held: bool, prior: HartState)
    ensures Hittable(cov, HaveresetAck(ack)) && Hittable(cov, NdmresetEdge(asserted, held))
    ensures Live(prior) ==> Hittable(cov, ResumereqPrior(prior))
  {
    hide Hits, Bit, Selects, Asks, ControlHits, DecodeCtl;
    var c := IDLE.(ackhavereset := ack != NoackWhenSet);
    AsksBits(c);
    IsWrite(c);
    AckBinHit(cov, START.(havereset := Some(ack != AckWhenClear)), Asks(c), ack);
    var d := IDLE.(ndmreset := asserted, setresethaltreq := held);
    AsksBits(d);
    IsWrite(d);
    EdgeBinHit(cov, START.(ndmreset := !asserted), Asks(d), asserted, held);
    assert Held(START.(ndmreset := !asserted), 0) == false;
    var e := IDLE.(resumereq := true);
    AsksBits(e);
    IsWrite(e);
    HitByControl(cov, START.(state := prior), Asks(e), ResumereqPrior(prior));
    ControlOnly(cov, START.(state := prior), Written(Asks(e)), ResumereqPrior(prior));
  }

  /** A move between two of the three states, read off one bit each. */
  lemma TransitionHittable(cov: Setup, from: HartState, to: HartState)
    requires Live(from) && Live(to) && from != to
    ensures Hittable(cov, Transition(from, to))
  {
    hide Hits, Bit, Single, DecodeStatus, StatusHits;
    var at := if to == Halted then 8 else 10;
    var word := Single(to != InReset, at);
    var w := START.(state := from, stateHartsel := Some(0));
    var k := Transition(from, to);
    StatusFlags(word);
    SingleBit(to != InReset, at, 14);
    SingleBit(to != InReset, at, 12);
    SingleBit(to != InReset, at, 8);
    SingleBit(to != InReset, at, 10);
    HitByStatus(cov, w, ReadOf(0x11, word), k);
    StatusParts(w, word, k);
  }

  lemma DivBit(w: nat, k: nat)
    ensures Bit(w, k) <==> (w / Pow2(k)) % 2 == 1
  {
    FlagIsBit(w, k);
    ExtractIsDivMod(w, k, 1);
    assert Pow2(1) == 2;
  }

  lemma Powers()
    ensures Pow2(2) == 4 && Pow2(11) == 2048 && Pow2(12) == 4096 && Pow2(16) == 0x1_0000
    ensures Pow2(17) == 0x2_0000 && Pow2(18) == 0x4_0000 && Pow2(20) == 0x10_0000 && Pow2(21) == 0x20_0000
  {
    assert Pow2(8) == 256;
  }

  lemma CommandHittable(cov: Setup, b: bool, csr: TriggerCsr)
    ensures Hittable(cov, CommandDirection(b)) && Hittable(cov, CommandRegno(b))
    ensures Hittable(cov, TriggerCsrReached(csr)) && Hittable(cov, ProgbufExecuted)
  {
    hide Hits, Bit, Pow2;
    Powers();
    var direction := 0x2_1000 + (if b then 0x1_0000 else 0);
    DivBit(direction, 17);
    DivBit(direction, 16);
    CommandBins(cov, START, WriteOf(0x17, direction), b, csr);
    var regno := 0x2_0000 + (if b then 0 else 0x1000);
    DivBit(regno, 17);
    CommandBins(cov, START, WriteOf(0x17, regno), b, csr);
    var trigger := 0x2_0000 + CsrNumber(csr);
    DivBit(trigger, 17);
    CommandBins(cov, START, WriteOf(0x17, trigger), b, csr);
    DivBit(0x4_0000, 18);
    CommandBins(cov, START, WriteOf(0x17, 0x4_0000), b, csr);
  }

  lemma TypeHittable(cov: Setup, t: TriggerType)
    ensures Hittable(cov, TriggerTypeSet(t))
  {
    hide Hits, Bit, Pow2, CommandHits, Extract, TypeOf;
    Powers();
    var word, operand := 0x23_07A1, 0x1000_0000 * TypeCode(t);
    var w, k := START.(staged0 := operand), TriggerTypeSet(t);
    DivBit(word, 17);
    DivBit(word, 16);
    UpperNibble(operand);
    TypeCoded(TypeCode(t), t);
    HitByCommand(cov, w, WriteOf(0x17, word), k);
    CommandParts(w, word, k);
  }

  lemma ReadsHittable(cov: Setup, b: bool)
    ensures Hittable(cov, AbstractcsBusy(b)) && Hittable(cov, AbstractcsHas(b)) && Hittable(cov, Haltsum0Read(b))
    ensures Hittable(cov, HartinfoRead) && Hittable(cov, ProgbufWritten) && Hittable(cov, Data0Access(b))
  {
    hide Hits, Bit, Pow2;
    Powers();
    var busy := if b then 4096 else 0;
    DivBit(busy, 12);
    AbstractcsBins(cov, START, ReadOf(0x16, busy), b);
    AbstractcsBins(cov, START, ReadOf(0x16, if b then 0x100_0000 else 1), b);
    AddressBins(cov, START, ReadOf(0x40, if b then 1 else 0), b);
    AddressBins(cov, START, ReadOf(0x12, 0), b);
    AddressBins(cov, START, WriteOf(0x20, 0), b);
    AddressBins(cov, START, if b then WriteOf(4, 0) else ReadOf(4, 0), b);
  }

  lemma BusHittable(cov: Setup, b: bool)
    ensures Hittable(cov, SbcsReadonaddr(b)) && Hittable(cov, SbcsIdle) && Hittable(cov, SbAddressWrite)
    ensures Hittable(cov, SbDataAccess(b))
    ensures Hittable(cov, Dmcs2Hgselect(b)) && Hittable(cov, Dmcs2Grouptype(b)) && Hittable(cov, Dmcs2Group(b))
  {
    hide Hits, Bit, Pow2;
    Powers();
    var sbcs := if b then 0x10_0000 else 0;
    DivBit(sbcs, 20);
    DivBit(0, 21);
    SystemBusBins(cov, START, WriteOf(0x38, sbcs), b);
    SystemBusBins(cov, START, ReadOf(0x38, 0), b);
    SystemBusBins(cov, START, WriteOf(0x39, 0), b);
    SystemBusBins(cov, START, if b then WriteOf(0x3C, 0) else ReadOf(0x3C, 0), b);
    var low, high := if b then 4 else 0, if b then 2048 else 0;
    DivBit(low, 2);
    DivBit(high, 11);
    Dmcs2Bins(cov, START, WriteOf(0x32, low), b);
    Dmcs2Bins(cov, START, WriteOf(0x32, high), b);
  }

  lemma AccessHittable(cov: Setup, write: bool, dmstatus: bool)
    ensures Hittable(cov, DmiAccess(write, dmstatus))
  {
    hide Hits;
    var addr := if dmstatus then 0x11 else 0x10;
    AccessBin(cov, START, if write then WriteOf(addr, 0) else ReadOf(addr, 0), write, dmstatus);
  }

  /** What can be hit is exactly what is declared, but for the five wholly excluded groups; the index bins
      need a number of harts that 20 bits of hartsel can pass. */
  lemma PopulationExact(cov: Setup, k: Key)
    requires 1 <= cov.numHarts <= 0xF_FFFF
    ensures Hittable(cov, k) <==> Declared(cov, k) && !k.Whole?
  {
    hide Hits, OneBit;
    if Hittable(cov, k) {
      var w: Watch, x: Sample :| k in Hits(cov, w, x);
      SamplingTotal(cov, w, x, k);
      assert !k.Whole? by { NeverWhole(cov, w, x, k); }
    }
    if Declared(cov, k) && !k.Whole? {
      DeclaredHittable(cov, k);
    }
  }

  lemma NeverWhole(cov: Setup, w: Watch, x: Sample, k: Key)
    requires k in Hits(cov, w, x)
    ensures !k.Whole?
  {
    hide Hits, ExternalHits;
    if k.Whole? {
      HitByAddress(cov, w, x, k);
      ByAddress(Staged(w, x), x, k);
    }
  }

  lemma DeclaredHittable(cov: Setup, k: Key)
    requires 1 <= cov.numHarts <= 0xF_FFFF && Declared(cov, k) && !k.Whole?
    ensures Hittable(cov, k)
  {
    hide Hittable, OneBit, StatusAt, ControlAt;
    match k
    case DmiAccess(write, dmstatus) => AccessHittable(cov, write, dmstatus);
    case ControlField(name, value) =>
      LevelDeclared(name);
      FieldsHittable(cov, name, value);
    case StatusField(name, value) =>
      LevelDeclared(name);
      FieldsHittable(cov, name, value);
    case Hartsel(which) =>
      var i := if which == Zero then 0 else if which == MaxImplemented then cov.numHarts - 1 else 0xF_FFFF;
      RequestsHittable(cov, false, false, i, which);
    case Version(number) => VersionHittable(cov, number);
    case AllAny(state, all, any) => PairHittable(cov, state, all, any);
    case HaltreqResumereq(halt, resume) => RequestsHittable(cov, halt, resume, 0, Zero);
    case Transition(from, to) => TransitionHittable(cov, from, to);
    case HaveresetAck(ack) => CrossesHittable(cov, ack, false, false, Unknown);
    case NdmresetEdge(asserted, held) => CrossesHittable(cov, AckWhenSet, asserted, held, Unknown);
    case ResumereqPrior(prior) => CrossesHittable(cov, AckWhenSet, false, false, prior);
    case MutexBits(which) => MutexHittable(cov, which);
    case CommandDirection(b) => CommandHittable(cov, b, Tinfo);
    case CommandRegno(b) => CommandHittable(cov, b, Tinfo);
    case TriggerCsrReached(csr) => CommandHittable(cov, false, csr);
    case ProgbufExecuted => CommandHittable(cov, false, Tinfo);
    case TriggerTypeSet(t) => TypeHittable(cov, t);
    case AbstractcsBusy(b) => ReadsHittable(cov, b);
    case AbstractcsHas(b) => ReadsHittable(cov, b);
    case Haltsum0Read(b) => ReadsHittable(cov, b);
    case HartinfoRead => ReadsHittable(cov, false);
    case ProgbufWritten => ReadsHittable(cov, false);
    case Data0Access(b) => ReadsHittable(cov, b);
    case SbcsReadonaddr(b) => BusHittable(cov, b);
    case SbcsIdle => BusHittable(cov, false);
    case SbAddressWrite => BusHittable(cov, false);
    case SbDataAccess(b) => BusHittable(cov, b);
    case Dmcs2Hgselect(b) => BusHittable(cov, b);
    case Dmcs2Grouptype(b) => BusHittable(cov, b);
    case Dmcs2Group(b) => BusHittable(cov, b);
  }

  // ---- One sample, one count ----

  ghost predicate Once(keys: seq<Key>) { forall i, j :: 0 <= i < j < |keys| ==> keys[i] != keys[j] }

  ghost predicate Apart(a: seq<Key>, b: seq<Key>) { forall k :: !(k in a && k in b) }

  lemma OnceJoined(a: seq<Key>, b: seq<Key>)
    requires Once(a) && Once(b) && Apart(a, b)
    ensures Once(a + b)
  {
    var s := a + b;
    forall i, j | 0 <= i < j < |s| ensures s[i] != s[j] {
      if i < |a| <= j {
        assert s[i] in a && s[j] in b;
      }
    }
  }

  lemma {:induction false} FlagsOnce(fields: seq<Field>, word: nat, control: bool)
    requires DistinctNames(fields)
    ensures Once(FlagHits(fields, word, control))
  {
    if |fields| > 0 {
      var n := |fields| - 1;
      var init := fields[..n];
      FlagsOnce(init, word, control);
      var bit := fields[n].Get(word) == 1;
      var k := if control then ControlField(fields[n].name, bit) else StatusField(fields[n].name, bit);
      FlagHitsExact(init, word, control, k);
      assert k !in FlagHits(init, word, control);
      OnceJoined(FlagHits(init, word, control), if fields[n].width == 1 then [k] else []);
    }
  }

  lemma HartselOnce(cov: Setup, i: nat)
    ensures Once(HartselHits(cov, i))
    ensures forall k :: k in HartselHits(cov, i) ==> k.Hartsel?
  {
  }

  lemma RequestOnce(w: Watch, c: Ctl)
    ensures Once(RequestHits(w, c))
    ensures forall k :: k in RequestHits(w, c) ==> !k.Hartsel? && !k.ControlField? && !k.NdmresetEdge?
  {
    hide MutexClass;
  }

  lemma EdgeOnce(w: Watch, c: Ctl)
    ensures Once(EdgeHits(w, c))
    ensures forall k :: k in EdgeHits(w, c) ==> k.NdmresetEdge?
  {
    hide Shadowed;
  }

  lemma ControlOnce(cov: Setup, w: Watch, word: nat)
    ensures Once(ControlHits(cov, w, word))
  {
    hide FlagHits, DecodeCtl, HartselHits, RequestHits, EdgeHits, Once, DMCONTROL;
    var c := DecodeCtl(word);
    var a, b, d, e := FlagHits(DMCONTROL.fields, word, true), HartselHits(cov, c.hartsel), RequestHits(w, c), EdgeHits(w, c);
    DmcontrolNames();
    FlagsOnce(DMCONTROL.fields, word, true);
    forall k | k in a ensures k.ControlField? {
      FlagsAreOneBit(DMCONTROL.fields, word, true, k);
    }
    HartselOnce(cov, c.hartsel);
    RequestOnce(w, c);
    EdgeOnce(w, c);
    OnceJoined(a, b);
    OnceJoined(a + b, d);
    OnceJoined(a + b + d, e);
  }

  lemma StatusOnce(w: Watch, word: nat)
    ensures Once(StatusHits(w, word))
  {
    hide FlagHits, DecodeStatus, StateOf, DMSTATUS;
    var f := DecodeStatus(word);
    var a, b, d, e := FlagHits(DMSTATUS.fields, word, false), VersionHits(f.version), PairHits(f),
                      TransitionHits(w, StateOf(f, w.ndmreset));
    DmstatusNames();
    FlagsOnce(DMSTATUS.fields, word, false);
    forall k | k in a ensures k.StatusField? {
      FlagsAreOneBit(DMSTATUS.fields, word, false, k);
    }
    assert Once(b) && Once(d) && Once(e);
    OnceJoined(a, b);
    OnceJoined(a + b, d);
    OnceJoined(a + b + d, e);
  }

  lemma CommandOnce(w: Watch, word: nat)
    ensures Once(CommandHits(w, word))
  {
    hide DecodeCommand, Extract, CsrOf, TypeOf;
    var cmd := DecodeCommand(word);
    var triggers := TriggerHits(w, cmd);
    TriggersOnce(w, cmd);
    if cmd.transfer {
      hide TriggerHits, Once;
      var head := [CommandDirection(cmd.write)];
      var middle := if cmd.regno <= 0xFFF then [CommandRegno(true)]
                    else if 0x1000 <= cmd.regno <= 0x101F then [CommandRegno(false)] else [];
      FewOnce(CommandDirection(cmd.write), CommandRegno(cmd.regno <= 0xFFF));
      OnceJoined(head, middle);
      OnceJoined(head + middle, triggers);
      OnceJoined(head + middle + triggers, if cmd.postexec then [ProgbufExecuted] else []);
    }
  }

  lemma FewOnce(k: Key, m: Key)
    ensures Once([]) && Once([k]) && Once([m]) && Once([ProgbufExecuted])
  {
  }

  lemma TriggersOnce(w: Watch, cmd: Command)
    ensures Once(TriggerHits(w, cmd))
    ensures forall k :: k in TriggerHits(w, cmd) ==> k.TriggerCsrReached? || k.TriggerTypeSet?
  {
    hide Extract, CsrOf, TypeOf;
  }

  lemma WordsOnce(x: Sample, word: nat)
    ensures Once(AbstractcsHits(word)) && Once(SbcsHits(x)) && Once(Dmcs2Hits(word))
  {
    hide Extract;
  }

  lemma ExternalOnce(w: Watch, x: Sample)
    ensures Once(ExternalHits(w, x))
  {
    hide CommandHits, AbstractcsHits, SbcsHits, Dmcs2Hits;
    CommandOnce(w, OrZero(x.data));
    WordsOnce(x, OrZero(x.data));
    WordsOnce(x, OrZero(x.readback));
  }

  /** One sample counts no key twice. */
  lemma CountedOnce(cov: Setup, w: Watch, x: Sample)
    ensures Once(Hits(cov, w, x))
  {
    hide ControlHits, StatusHits, ExternalHits;
    ControlOnce(cov, w, OrZero(x.data));
    StatusOnce(w, OrZero(x.readback));
    ExternalOnce(Staged(w, x), x);
    forall k ensures k in ControlHits(cov, w, OrZero(x.data)) ==> !k.DmiAccess? {
      if k in ControlHits(cov, w, OrZero(x.data)) {
        ControlKeys(cov, w, OrZero(x.data), k);
      }
    }
    forall k ensures k in StatusHits(w, OrZero(x.readback)) ==> !k.DmiAccess? {
      if k in StatusHits(w, OrZero(x.readback)) {
        StatusKeys(w, OrZero(x.readback), k);
      }
    }
    OnceJoined([DmiAccess(true, false)], ControlHits(cov, w, OrZero(x.data)));
    OnceJoined([DmiAccess(false, true)], StatusHits(w, OrZero(x.readback)));
  }
}
