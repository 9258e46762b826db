// src/pydebug/model/coverage.py in its own form: an object that counts bins in
// two dictionaries and keeps what it infers in fields. It is proved against the
// value-level account of Coverage.

module Observer {
  import opened Bits
  import opened Registers
  import opened Words
  import opened DebugModule
  import opened Coverage

  const ALL_ANY_STATES: seq<AllAnyState> :=
    [HaveresetState, ResumeackState, NonexistentState, UnavailState, RunningState, HaltedState]

  const ACCESS_BINS := [DmiAccess(false, false), DmiAccess(true, false), DmiAccess(false, true)]

  const HARTSEL_BINS := [Hartsel(Zero), Hartsel(Nonzero), Hartsel(MaxImplemented), Hartsel(OutOfRange),
                         Hartsel(HartselhiNonzero), Hartsel(AllOnes)]

  const REQUEST_BINS := [
    HaltreqResumereq(false, false), HaltreqResumereq(true, false), HaltreqResumereq(false, true),
    HaltreqResumereq(true, true), HaveresetAck(AckWhenSet), HaveresetAck(AckWhenClear), HaveresetAck(NoackWhenSet),
    NdmresetEdge(true, false), NdmresetEdge(true, true), NdmresetEdge(false, false), NdmresetEdge(false, true),
    MutexBits(NoMutexBit), MutexBits(OneMutexBit), MutexBits(MultipleMutexBits)]

  const STATE_BINS := [
    Transition(Running, Halted), Transition(Halted, Running), Transition(Running, InReset),
    Transition(InReset, Running), Transition(InReset, Halted),
    ResumereqPrior(Halted), ResumereqPrior(Running), ResumereqPrior(InReset)]

  const COMMAND_BINS := [
    CommandDirection(false), CommandDirection(true), CommandRegno(false), CommandRegno(true),
    AbstractcsBusy(false), AbstractcsBusy(true), AbstractcsHas(true), AbstractcsHas(false),
    ProgbufWritten, ProgbufExecuted, Data0Access(false), Data0Access(true)]

  const BUS_BINS := [
    SbcsReadonaddr(false), SbcsReadonaddr(true), SbcsIdle, SbAddressWrite, SbDataAccess(true), SbDataAccess(false),
    Dmcs2Hgselect(false), Dmcs2Hgselect(true), Dmcs2Grouptype(false), Dmcs2Grouptype(true),
    Dmcs2Group(false), Dmcs2Group(true), HartinfoRead, Haltsum0Read(false), Haltsum0Read(true)]

  const TRIGGER_BINS := [
    TriggerCsrReached(Tselect), TriggerCsrReached(Tdata1), TriggerCsrReached(Tdata2), TriggerCsrReached(Tdata3),
    TriggerCsrReached(Tinfo), TriggerTypeSet(Mcontrol), TriggerTypeSet(Icount), TriggerTypeSet(Itrigger),
    TriggerTypeSet(Etrigger), TriggerTypeSet(Mcontrol6), TriggerTypeSet(Tmexttrigger)]

  const WHOLE_GROUPS := [Whole(AbstractCmdGroup), Whole(SbaGroup), Whole(DebugEntryGroup), Whole(StepExternalGroup),
                         Whole(HartModeGroup)]

  lemma AccessBins(cov: Setup, k: Key)
    ensures k in ACCESS_BINS <==> k.DmiAccess? && IsBin(cov, k)
  {
  }

  lemma HartselBins(k: Key)
    ensures k in HARTSEL_BINS <==> k.Hartsel?
  {
    match k
    case Hartsel(Zero) => assert k == HARTSEL_BINS[0];
    case Hartsel(Nonzero) => assert k == HARTSEL_BINS[1];
    case Hartsel(MaxImplemented) => assert k == HARTSEL_BINS[2];
    case Hartsel(OutOfRange) => assert k == HARTSEL_BINS[3];
    case Hartsel(HartselhiNonzero) => assert k == HARTSEL_BINS[4];
    case Hartsel(AllOnes) => assert k == HARTSEL_BINS[5];
    case _ =>
  }

  lemma RequestBins(k: Key)
    ensures k in REQUEST_BINS <==> k.HaltreqResumereq? || k.HaveresetAck? || k.NdmresetEdge? || k.MutexBits?
  {
    match k
    case HaveresetAck(AckWhenSet) => assert k == REQUEST_BINS[4];
    case HaveresetAck(AckWhenClear) => assert k == REQUEST_BINS[5];
    case HaveresetAck(NoackWhenSet) => assert k == REQUEST_BINS[6];
    case MutexBits(NoMutexBit) => assert k == REQUEST_BINS[11];
    case MutexBits(OneMutexBit) => assert k == REQUEST_BINS[12];
    case MutexBits(MultipleMutexBits) => assert k == REQUEST_BINS[13];
    case _ =>
  }

  lemma StateBins(cov: Setup, k: Key)
    ensures k in STATE_BINS <==> (k.Transition? || k.ResumereqPrior?) && IsBin(cov, k)
  {
  }

  predicate CommandKey(k: Key)
  {
    k.CommandDirection? || k.CommandRegno? || k.AbstractcsBusy? || k.AbstractcsHas? || k.ProgbufWritten?
    || k.ProgbufExecuted? || k.Data0Access?
  }

  predicate BusKey(k: Key)
  {
    k.SbcsReadonaddr? || k.SbcsIdle? || k.SbAddressWrite? || k.SbDataAccess? || k.Dmcs2Hgselect?
    || k.Dmcs2Grouptype? || k.Dmcs2Group? || k.HartinfoRead? || k.Haltsum0Read?
  }

  lemma CommandBins(k: Key)
    ensures k in COMMAND_BINS <==> CommandKey(k)
  {
  }

  lemma BusBins(k: Key)
    ensures k in BUS_BINS <==> BusKey(k)
  {
  }

  lemma TriggerBins(k: Key)
    ensures k in TRIGGER_BINS <==> k.TriggerCsrReached? || k.TriggerTypeSet?
  {
    match k
    case TriggerCsrReached(Tselect) => assert k == TRIGGER_BINS[0];
    case TriggerCsrReached(Tdata1) => assert k == TRIGGER_BINS[1];
    case TriggerCsrReached(Tdata2) => assert k == TRIGGER_BINS[2];
    case TriggerCsrReached(Tdata3) => assert k == TRIGGER_BINS[3];
    case TriggerCsrReached(Tinfo) => assert k == TRIGGER_BINS[4];
    case TriggerTypeSet(Mcontrol) => assert k == TRIGGER_BINS[5];
    case TriggerTypeSet(Icount) => assert k == TRIGGER_BINS[6];
    case TriggerTypeSet(Itrigger) => assert k == TRIGGER_BINS[7];
    case TriggerTypeSet(Etrigger) => assert k == TRIGGER_BINS[8];
    case TriggerTypeSet(Mcontrol6) => assert k == TRIGGER_BINS[9];
    case TriggerTypeSet(Tmexttrigger) => assert k == TRIGGER_BINS[10];
    case _ =>
  }

  lemma WholeGroups(k: Key)
    ensures k in WHOLE_GROUPS <==> k.Whole?
  {
    match k
    case Whole(AbstractCmdGroup) => assert k == WHOLE_GROUPS[0];
    case Whole(SbaGroup) => assert k == WHOLE_GROUPS[1];
    case Whole(DebugEntryGroup) => assert k == WHOLE_GROUPS[2];
    case Whole(StepExternalGroup) => assert k == WHOLE_GROUPS[3];
    case Whole(HartModeGroup) => assert k == WHOLE_GROUPS[4];
    case _ =>
  }

  ghost predicate AnyUndeclared(cov: Setup, log: seq<Key>)
  {
    exists k :: k in log && !Declared(cov, k)
  }

  lemma DeclaredAppend(cov: Setup, log: seq<Key>, more: seq<Key>)
    requires forall k :: k in more ==> Declared(cov, k)
    ensures AnyUndeclared(cov, log + more) == AnyUndeclared(cov, log)
  {
    if AnyUndeclared(cov, log) {
      var k :| k in log && !Declared(cov, k);
      assert k in log + more;
    }
  }

  class DebugCoverageModel {
    const setup: Setup
    var counts: map<Key, nat>
    var excludedHits: map<Key, nat>
    /** A key was hit that is neither a bin nor an exclusion: the KeyError of the original. */
    var undeclared: bool

    var state: HartState
    var stateHartsel: Option<nat>
    var hartsel: nat
    var havereset: Option<bool>
    var resetHaltreq: map<nat, bool>
    var ndmreset: bool
    var staged0: nat
    var staged1: nat

    /** Every key hit so far, in order. */
    ghost var log: seq<Key>

    function View(): Watch
      reads `state, `stateHartsel, `hartsel, `havereset, `resetHaltreq, `ndmreset, `staged0, `staged1
    {
      Watch(state, stateHartsel, hartsel, havereset, resetHaltreq, ndmreset, staged0, staged1)
    }

    ghost predicate Valid()
      reads `counts, `excludedHits, `undeclared, `log
    {
      && (forall k :: k in counts <==> IsBin(setup, k))
      && (forall k :: k in excludedHits <==> IsExclusion(setup, k))
      && (forall k :: k in counts ==> counts[k] == multiset(log)[k])
      && (forall k :: k in excludedHits ==> excludedHits[k] == multiset(log)[k])
      && (undeclared <==> AnyUndeclared(setup, log))
    }

    // ---- Building the bins ----

    constructor (cov: Setup)
      ensures Valid() && setup == cov && !undeclared && View() == START && log == []
    {
      setup := cov;
      counts, excludedHits, undeclared, log := map[], map[], false, [];
      state, stateHartsel, hartsel, havereset := Unknown, None, 0, None;
      resetHaltreq, ndmreset, staged0, staged1 := map[], false, 0, 0;
      new;
      hide IsBin, IsExclusion, IsAccess, IsStatus, IsCross, IsExternal;
      BuildAccessAndHartselBins();
      BuildDmcontrolFieldBins();
      BuildDmstatusFieldBins();
      BuildAllAnyBins();
      BuildCrossBins();
      BuildExternalDebugBins();
      assert multiset(log) == multiset{};
      forall k ensures IsAccess(k) || k.ControlField? || IsStatus(k) || k.AllAny? || IsCross(k) || IsExternal(k) {
        KindsCover(k);
      }
      forall k: Key | k.ControlField? ensures !IsExclusion(setup, k) {
        KindsCover(k);
      }
    }

    ghost predicate Zeroed()
      reads this
    {
      (forall k :: k in counts ==> counts[k] == 0) && (forall k :: k in excludedHits ==> excludedHits[k] == 0)
    }

    method Add(keys: seq<Key>)
      requires Zeroed()
      modifies `counts
      ensures Zeroed() && forall k :: k in counts <==> k in old(counts) || k in keys
    {
      for i := 0 to |keys|
        invariant Zeroed() && forall k :: k in counts <==> k in old(counts) || k in keys[..i]
      {
        assert keys[..i + 1] == keys[..i] + [keys[i]];
        counts := counts[keys[i] := 0];
      }
      assert keys[..|keys|] == keys;
    }

    method Exclude(keys: seq<Key>)
      requires Zeroed()
      modifies `excludedHits
      ensures Zeroed() && forall k :: k in excludedHits <==> k in old(excludedHits) || k in keys
    {
      for i := 0 to |keys|
        invariant Zeroed() && forall k :: k in excludedHits <==> k in old(excludedHits) || k in keys[..i]
      {
        assert keys[..i + 1] == keys[..i] + [keys[i]];
        excludedHits := excludedHits[keys[i] := 0];
      }
      assert keys[..|keys|] == keys;
    }

    predicate IsAccess(k: Key) { k.DmiAccess? || k.Hartsel? }

    method BuildAccessAndHartselBins()
      requires Zeroed()
      modifies `counts, `excludedHits
      ensures Zeroed()
      ensures forall k :: k in counts <==> k in old(counts) || (IsAccess(k) && IsBin(setup, k))
      ensures forall k :: k in excludedHits <==> k in old(excludedHits) || (IsAccess(k) && IsExclusion(setup, k))
    {
      hide OneBit;
      Add(ACCESS_BINS);
      Exclude([DmiAccess(true, true)]);
      Add(HARTSEL_BINS);
      forall k ensures k in ACCESS_BINS || k in HARTSEL_BINS <==> (k.DmiAccess? || k.Hartsel?) && IsBin(setup, k) {
        AccessBins(setup, k);
        HartselBins(k);
      }
    }

    /** Both values of every one-bit dmcontrol field. */
    method BuildDmcontrolFieldBins()
      requires Zeroed()
      modifies `counts
      ensures Zeroed()
      ensures forall k :: k in counts <==> k in old(counts) || (k.ControlField? && IsBin(setup, k))
    {
      hide DMCONTROL;
      var fields := DMCONTROL.fields;
      for i := 0 to |fields|
        invariant Zeroed()
        invariant forall k :: k in counts <==> k in old(counts) || (k.ControlField? && OneBit(fields[..i], k.name))
      {
        forall name ensures OneBit(fields[..i + 1], name) <==>
                            OneBit(fields[..i], name) || IsFlag(fields[i], name) {
          OneBitStep(fields, i, name);
        }
        if fields[i].width == 1 {
          Add([ControlField(fields[i].name, false), ControlField(fields[i].name, true)]);
        }
      }
      assert fields[..|fields|] == fields;
    }

    static lemma OneBitStep(fields: seq<Field>, i: nat, name: Name)
      requires i < |fields|
      ensures OneBit(fields[..i + 1], name) <==>
              OneBit(fields[..i], name) || IsFlag(fields[i], name)
    {
      assert fields[..i + 1][..i] == fields[..i];
    }

    method AddOrExclude(name: Name, value: bool)
      requires Zeroed()
      modifies `counts, `excludedHits
      ensures Zeroed()
      ensures forall k :: k in counts <==>
                          k in old(counts) || (k == StatusField(name, value) && !OutOfSlice(setup, name, value))
      ensures forall k :: k in excludedHits <==>
                          k in old(excludedHits) || (k == StatusField(name, value) && OutOfSlice(setup, name, value))
    {
      hide OutOfSlice;
      if OutOfSlice(setup, name, value) {
        Exclude([StatusField(name, value)]);
      } else {
        Add([StatusField(name, value)]);
      }
    }

    predicate IsStatus(k: Key) { k.StatusField? || k.Version? }

    /** Both values of every one-bit dmstatus field, and the version enumeration. */
    method BuildDmstatusFieldBins()
      requires Zeroed()
      modifies `counts, `excludedHits
      ensures Zeroed()
      ensures forall k :: k in counts <==> k in old(counts) || (IsStatus(k) && IsBin(setup, k))
      ensures forall k :: k in excludedHits <==> k in old(excludedHits) || (IsStatus(k) && IsExclusion(setup, k))
    {
      hide DMSTATUS, OutOfSlice, IsFlag;
      var fields := DMSTATUS.fields;
      for i := 0 to |fields|
        invariant Zeroed()
        invariant forall k :: k in counts <==>
                            (k in old(counts) || (k.StatusField? && OneBit(fields[..i], k.name) && !OutOfSlice(setup, k.name, k.value)))
        invariant forall k :: k in excludedHits <==>
                            (k in old(excludedHits) || (k.StatusField? && OneBit(fields[..i], k.name) && OutOfSlice(setup, k.name, k.value)))
      {
        forall name ensures OneBit(fields[..i + 1], name) <==>
                            OneBit(fields[..i], name) || IsFlag(fields[i], name) {
          OneBitStep(fields, i, name);
        }
        FlagNamed(fields[i]);
        hide OneBit;
        if fields[i].width == 1 {
          AddOrExclude(fields[i].name, false);
          AddOrExclude(fields[i].name, true);
        }
      }
      assert fields[..|fields|] == fields;
      Exclude([Version(0)]);
      Add([Version(2), Version(3)]);
      Exclude([Version(1), Version(15)]);
    }

    static lemma FlagNamed(f: Field)
      ensures forall name :: IsFlag(f, name) <==> f.width == 1 && name == f.name
    {
    }

    static lemma EveryState(state: AllAnyState)
      ensures state in ALL_ANY_STATES
    {
      match state
      case HaveresetState => assert ALL_ANY_STATES[0] == state;
      case ResumeackState => assert ALL_ANY_STATES[1] == state;
      case NonexistentState => assert ALL_ANY_STATES[2] == state;
      case UnavailState => assert ALL_ANY_STATES[3] == state;
      case RunningState => assert ALL_ANY_STATES[4] == state;
      case HaltedState => assert ALL_ANY_STATES[5] == state;
    }

    method BuildPair(state: AllAnyState)
      requires Zeroed()
      modifies `counts, `excludedHits
      ensures Zeroed()
      ensures forall k :: k in counts <==> k in old(counts) || (k.AllAny? && k.state == state && IsBin(setup, k))
      ensures forall k :: k in excludedHits <==>
                          k in old(excludedHits) || (k.AllAny? && k.state == state && IsExclusion(setup, k))
    {
      hide OneBit, OutOfSlice;
      Add([AllAny(state, false, false)]);
      if state == UnavailState {
        Exclude([AllAny(state, true, true)]);
      } else {
        Add([AllAny(state, true, true)]);
      }
      Exclude([AllAny(state, false, true)]);
      Exclude([AllAny(state, true, false)]);
    }

    /** The four combinations of every all/any pair. */
    method BuildAllAnyBins()
      requires Zeroed()
      modifies `counts, `excludedHits
      ensures Zeroed()
      ensures forall k :: k in counts <==> k in old(counts) || (k.AllAny? && IsBin(setup, k))
      ensures forall k :: k in excludedHits <==> k in old(excludedHits) || (k.AllAny? && IsExclusion(setup, k))
    {
      hide IsBin, IsExclusion;
      for i := 0 to |ALL_ANY_STATES|
        invariant Zeroed()
        invariant forall k :: k in counts <==>
                            (k in old(counts) || (k.AllAny? && k.state in ALL_ANY_STATES[..i] && IsBin(setup, k)))
        invariant forall k :: k in excludedHits <==>
                            (k in old(excludedHits) || (k.AllAny? && k.state in ALL_ANY_STATES[..i] && IsExclusion(setup, k)))
      {
        var state := ALL_ANY_STATES[i];
        assert ALL_ANY_STATES[..i + 1] == ALL_ANY_STATES[..i] + [state];
        BuildPair(state);
      }
      assert ALL_ANY_STATES[..|ALL_ANY_STATES|] == ALL_ANY_STATES;
      forall state ensures state in ALL_ANY_STATES {
        EveryState(state);
      }
    }

    predicate IsCross(k: Key)
    {
      k.HaltreqResumereq? || k.HaveresetAck? || k.NdmresetEdge? || k.MutexBits? || k.Transition? || k.ResumereqPrior?
    }

    method BuildCrossBins()
      requires Zeroed()
      modifies `counts, `excludedHits
      ensures Zeroed()
      ensures forall k :: k in counts <==> k in old(counts) || (IsCross(k) && IsBin(setup, k))
      ensures forall k :: k in excludedHits <==> k in old(excludedHits) || (IsCross(k) && IsExclusion(setup, k))
    {
      Add(REQUEST_BINS);
      Add(STATE_BINS);
      Exclude([Transition(Halted, InReset)]);
      forall k ensures k in REQUEST_BINS || k in STATE_BINS <==> IsCross(k) && IsBin(setup, k) {
        RequestBins(k);
        StateBins(setup, k);
      }
    }

    predicate IsExternal(k: Key)
    {
      CommandKey(k) || BusKey(k) || k.TriggerCsrReached? || k.TriggerTypeSet? || k.Whole?
    }

    lemma ExternalKinds(k: Key)
      ensures IsExternal(k) && IsBin(setup, k) <==>
              CommandKey(k) || BusKey(k) || k.TriggerCsrReached? || k.TriggerTypeSet?
      ensures IsExternal(k) && IsExclusion(setup, k) <==> k.Whole?
    {
    }

    lemma KindsCover(k: Key)
      ensures IsAccess(k) || k.ControlField? || IsStatus(k) || k.AllAny? || IsCross(k) || IsExternal(k)
      ensures k.ControlField? ==> !IsExclusion(setup, k)
    {
    }

    method BuildExternalDebugBins()
      requires Zeroed()
      modifies `counts, `excludedHits
      ensures Zeroed()
      ensures forall k :: k in counts <==> k in old(counts) || (IsExternal(k) && IsBin(setup, k))
      ensures forall k :: k in excludedHits <==> k in old(excludedHits) || (IsExternal(k) && IsExclusion(setup, k))
    {
      Add(COMMAND_BINS);
      Add(BUS_BINS);
      Add(TRIGGER_BINS);
      Exclude(WHOLE_GROUPS);
      forall k ensures k in COMMAND_BINS || k in BUS_BINS || k in TRIGGER_BINS <==> IsExternal(k) && IsBin(setup, k) {
        CommandBins(k);
        BusBins(k);
        TriggerBins(k);
        ExternalKinds(k);
      }
      forall k ensures k in WHOLE_GROUPS <==> IsExternal(k) && IsExclusion(setup, k) {
        WholeGroups(k);
        ExternalKinds(k);
      }
    }

    // ---- Sampling ----

    /** _hit */
    method Hit(k: Key)
      requires Valid()
      modifies `counts, `excludedHits, `undeclared, `log
      ensures Valid() && log == old(log) + [k]
      ensures undeclared == (old(undeclared) || !Declared(setup, k))
    {
      hide IsBin, IsExclusion;
      BinsAndExclusionsDisjoint(setup, k);
      assert multiset(log + [k]) == multiset(log) + multiset{k};
      assert AnyUndeclared(setup, log + [k]) <==> AnyUndeclared(setup, log) || !Declared(setup, k);
      if k in counts {
        counts := counts[k := counts[k] + 1];
      } else if k in excludedHits {
        excludedHits := excludedHits[k := excludedHits[k] + 1];
      } else {
        undeclared := true;
      }
      log := log + [k];
    }

    /** One hit for every one-bit field of a register, by its value in the word. */
    method HitFlags(fields: seq<Field>, word: nat, control: bool)
      requires Valid()
      modifies `counts, `excludedHits, `undeclared, `log
      ensures Valid() && log == old(log) + FlagHits(fields, word, control)
    {
      hide Valid;
      for i := 0 to |fields|
        invariant Valid() && log == old(log) + FlagHits(fields[..i], word, control)
      {
        assert fields[..i + 1][..i] == fields[..i];
        if fields[i].width == 1 {
          var bit := fields[i].Get(word) == 1;
          Hit(if control then ControlField(fields[i].name, bit) else StatusField(fields[i].name, bit));
        }
      }
      assert fields[..|fields|] == fields;
    }

    method HitHartsel(sel: nat)
      requires Valid()
      modifies `counts, `excludedHits, `undeclared, `log
      ensures Valid() && log == old(log) + HartselHits(setup, sel)
    {
      hide IsBin, IsExclusion, Valid;
      if sel == 0 {
        Hit(Hartsel(Zero));
      } else {
        Hit(Hartsel(Nonzero));
      }
      if sel + 1 == setup.numHarts {
        Hit(Hartsel(MaxImplemented));
      }
      if sel >= setup.numHarts {
        Hit(Hartsel(OutOfRange));
      }
      if sel > 0x3FF {
        Hit(Hartsel(HartselhiNonzero));
      }
      if sel == 0xF_FFFF {
        Hit(Hartsel(AllOnes));
      }
    }

    method HitMutex(c: Ctl)
      requires Valid()
      modifies `counts, `excludedHits, `undeclared, `log
      ensures Valid() && log == old(log) + [MutexBits(MutexClass(c))]
    {
      hide Valid;
      var n := 0;
      if c.resumereq { n := n + 1; }
      if c.hartreset { n := n + 1; }
      if c.ackhavereset { n := n + 1; }
      if c.setresethaltreq { n := n + 1; }
      if c.clrresethaltreq { n := n + 1; }
      Hit(MutexBits(if n == 0 then NoMutexBit else if n == 1 then OneMutexBit else MultipleMutexBits));
    }

    method HitHavereset(ack: bool)
      requires Valid()
      modifies `counts, `excludedHits, `undeclared, `log, `havereset
      ensures Valid() && log == old(log) + AckHits(old(havereset), ack)
      ensures havereset == if old(havereset).Some? && ack then Some(false) else old(havereset)
    {
      hide Valid;
      if havereset.Some? {
        if ack {
          Hit(HaveresetAck(if havereset.value then AckWhenSet else AckWhenClear));
        } else if havereset.value {
          Hit(HaveresetAck(NoackWhenSet));
        }
        if ack {
          havereset := Some(false);
        }
      }
    }

    /** The halt-on-reset shadow, the module reset, and the ndmreset edge. */
    method HitResetEdge(c: Ctl)
      requires Valid()
      modifies `counts, `excludedHits, `undeclared, `log, `hartsel, `resetHaltreq, `ndmreset, `state, `havereset
      ensures Valid() && log == old(log) + EdgeHits(old(View()), c)
      ensures View() == (if c.dmactive then
                           old(View()).(hartsel := c.hartsel, resetHaltreq := Shadowed(old(resetHaltreq), c), ndmreset := c.ndmreset)
                         else old(View()).(hartsel := c.hartsel, resetHaltreq := map[], ndmreset := false,
                                           state := Unknown, havereset := None))
    {
      hide Valid;
      hartsel := c.hartsel;
      if c.clrresethaltreq {
        resetHaltreq := resetHaltreq[c.hartsel := false];
      } else if c.setresethaltreq {
        resetHaltreq := resetHaltreq[c.hartsel := true];
      }
      if !c.dmactive {
        resetHaltreq, ndmreset, state, havereset := map[], false, Unknown, None;
        return;
      }
      var rhr := c.hartsel in resetHaltreq && resetHaltreq[c.hartsel];
      if c.ndmreset && !ndmreset {
        Hit(NdmresetEdge(true, rhr));
      } else if !c.ndmreset && ndmreset {
        Hit(NdmresetEdge(false, rhr));
      }
      ndmreset := c.ndmreset;
    }

    /** The crosses of the request bits with what was last observed. */
    method HitRequests(c: Ctl)
      requires Valid()
      modifies `counts, `excludedHits, `undeclared, `log, `havereset
      ensures Valid() && log == old(log) + RequestHits(old(View()), c)
      ensures havereset == Acked(old(View()), c)
    {
      hide Valid, MutexClass, AckHits;
      Hit(HaltreqResumereq(c.haltreq, c.resumereq));
      HitMutex(c);
      var selectionChanged := c.hartsel != hartsel;
      if c.resumereq && !selectionChanged {
        if state == Halted {
          Hit(ResumereqPrior(Halted));
        } else if state == Running {
          Hit(ResumereqPrior(Running));
        } else if state == InReset {
          Hit(ResumereqPrior(InReset));
        }
      }
      if !selectionChanged {
        HitHavereset(c.ackhavereset);
      }
    }

    method SampleDmcontrolWrite(word: nat)
      requires Valid()
      modifies `counts, `excludedHits, `undeclared, `log, `hartsel, `resetHaltreq, `ndmreset, `state, `havereset
      ensures Valid() && log == old(log) + ControlHits(setup, old(View()), word)
      ensures View() == ControlSeen(old(View()), word)
    {
      hide Valid, DecodeCtl, FlagHits, HartselHits, RequestHits, Shadowed;
      HitFlags(DMCONTROL.fields, word, true);
      var c := DecodeCtl(word);
      HitHartsel(c.hartsel);
      HitRequests(c);
      HitResetEdge(c);
    }

    method HitVersion(version: nat)
      requires Valid()
      modifies `counts, `excludedHits, `undeclared, `log
      ensures Valid() && log == old(log) + VersionHits(version)
    {
      hide Valid;
      if version == 0 || version == 1 || version == 2 || version == 3 || version == 15 {
        Hit(Version(version));
      }
    }

    method HitPairs(f: Status)
      requires Valid()
      modifies `counts, `excludedHits, `undeclared, `log
      ensures Valid() && log == old(log) + PairHits(f)
    {
      hide Valid;
      Hit(AllAny(HaveresetState, f.allhavereset, f.anyhavereset));
      Hit(AllAny(ResumeackState, f.allresumeack, f.anyresumeack));
      Hit(AllAny(NonexistentState, f.allnonexistent, f.anynonexistent));
      Hit(AllAny(UnavailState, f.allunavail, f.anyunavail));
      Hit(AllAny(RunningState, f.allrunning, f.anyrunning));
      Hit(AllAny(HaltedState, f.allhalted, f.anyhalted));
    }

    /** The state just observed, and the transition into it. */
    method HitTransition(now: HartState)
      requires Valid()
      modifies `counts, `excludedHits, `undeclared, `log, `state, `stateHartsel
      ensures Valid() && log == old(log) + TransitionHits(old(View()), now)
      ensures state == now && stateHartsel == Some(hartsel)
    {
      hide Valid;
      var prev, prevHartsel := state, stateHartsel;
      state, stateHartsel := now, Some(hartsel);
      if prevHartsel != Some(hartsel) {
        return;
      }
      if prev == Unknown || prev == Unavailable || prev == Nonexistent
         || now == Unknown || now == Unavailable || now == Nonexistent {
        return;
      }
      if prev != now {
        Hit(Transition(prev, now));
      }
    }

    method SampleDmstatusRead(word: nat)
      requires Valid()
      modifies `counts, `excludedHits, `undeclared, `log, `havereset, `state, `stateHartsel
      ensures Valid() && log == old(log) + StatusHits(old(View()), word)
      ensures View() == StatusSeen(old(View()), word)
    {
      hide Valid, DecodeStatus, FlagHits, VersionHits, PairHits, StateOf;
      HitFlags(DMSTATUS.fields, word, false);
      var f := DecodeStatus(word);
      HitVersion(f.version);
      HitPairs(f);
      havereset := Some(f.anyhavereset);
      HitTransition(StateOf(f, ndmreset));
    }

    method SampleCommand(word: nat)
      requires Valid()
      modifies `counts, `excludedHits, `undeclared, `log
      ensures Valid() && log == old(log) + CommandHits(View(), word)
    {
      hide Valid, DecodeCommand, CsrOf, TypeOf, Extract;
      var cmd := DecodeCommand(word);
      if cmd.transfer {
        Hit(CommandDirection(cmd.write));
        if cmd.regno <= 0xFFF {
          Hit(CommandRegno(true));
        } else if 0x1000 <= cmd.regno <= 0x101F {
          Hit(CommandRegno(false));
        }
        HitTrigger(cmd);
      }
      if cmd.postexec {
        Hit(ProgbufExecuted);
      }
    }

    method HitTrigger(cmd: Command)
      requires Valid()
      modifies `counts, `excludedHits, `undeclared, `log
      ensures Valid() && log == old(log) + TriggerHits(View(), cmd)
    {
      hide Valid, TypeOf, Extract;
      var csr := CsrOf(cmd.regno);
      if csr.Some? {
        Hit(TriggerCsrReached(csr.value));
        if cmd.regno == 0x7A1 && cmd.write {
          var operand := if cmd.aarsize == 3 then staged1 else staged0;
          var configured := TypeOf(Extract(operand, 28, 4));
          if configured.Some? {
            Hit(TriggerTypeSet(configured.value));
          }
        }
      }
    }

    method SampleExternalDebug(x: Sample)
      requires Valid()
      modifies `counts, `excludedHits, `undeclared, `log, `staged0, `staged1
      ensures Valid() && View() == Staged(old(View()), x)
      ensures log == old(log) + ExternalHits(View(), x)
    {
      hide Valid, CommandHits, Flag, Extract;
      var word, readback := OrZero(x.data), OrZero(x.readback);
      if x.op == WriteOp && x.addr == DATA0 {
        staged0 := word;
      } else if x.op == WriteOp && x.addr == DATA0 + 1 {
        staged1 := word;
      }
      if DATA0 <= x.addr <= DATA11 && (x.op == ReadOp || x.op == WriteOp) {
        Hit(Data0Access(x.op == WriteOp));
      } else if x.op == WriteOp && x.addr == COMMAND_ADDR {
        SampleCommand(word);
      } else if x.op == ReadOp && x.addr == ABSTRACTCS_ADDR {
        Hit(AbstractcsBusy(Flag(readback, 12)));
        if Extract(readback, 24, 5) != 0 {
          Hit(AbstractcsHas(true));
        }
        if Extract(readback, 0, 4) != 0 {
          Hit(AbstractcsHas(false));
        }
      } else if x.op == WriteOp && PROGBUF0 <= x.addr <= PROGBUF15 {
        Hit(ProgbufWritten);
      } else if x.addr == SBCS_ADDR {
        var seen := if x.op == WriteOp then word else readback;
        Hit(SbcsReadonaddr(Flag(seen, 20)));
        if x.op == ReadOp && !Flag(readback, 21) {
          Hit(SbcsIdle);
        }
      } else if x.addr == SBADDRESS0 && x.op == WriteOp {
        Hit(SbAddressWrite);
      } else if x.addr == SBDATA0 && (x.op == ReadOp || x.op == WriteOp) {
        Hit(SbDataAccess(x.op == WriteOp));
      } else if x.op == WriteOp && x.addr == DMCS2_ADDR {
        Hit(Dmcs2Hgselect(Flag(word, 2)));
        Hit(Dmcs2Grouptype(Flag(word, 11)));
        Hit(Dmcs2Group(Extract(word, 2, 5) != 0));
      } else if x.op == ReadOp && x.addr == HARTINFO_ADDR {
        Hit(HartinfoRead);
      } else if x.op == ReadOp && x.addr == HALTSUM0_ADDR {
        Hit(Haltsum0Read(readback != 0));
      }
    }

    method Dispatch(x: Sample)
      requires Valid()
      modifies this
      ensures Valid() && View() == Seen(old(View()), x) && log == old(log) + Hits(setup, old(View()), x)
    {
      hide Valid, ControlHits, ControlSeen, StatusHits, StatusSeen, ExternalHits;
      if x.op == WriteOp && x.addr == DMCONTROL_ADDR {
        Hit(DmiAccess(true, false));
        SampleDmcontrolWrite(OrZero(x.data));
      } else if x.op == ReadOp && x.addr == DMCONTROL_ADDR {
        Hit(DmiAccess(false, false));
      } else if x.op == ReadOp && x.addr == DMSTATUS_ADDR {
        Hit(DmiAccess(false, true));
        SampleDmstatusRead(OrZero(x.readback));
      } else if x.op == WriteOp && x.addr == DMSTATUS_ADDR {
        Hit(DmiAccess(true, true));
      } else {
        SampleExternalDebug(x);
      }
    }

    /** sample: the observer callback. No KeyError is ever raised. */
    method Sample(x: Sample)
      requires Valid()
      modifies this
      ensures Valid() && undeclared == old(undeclared)
      ensures View() == Seen(old(View()), x) && log == old(log) + Hits(setup, old(View()), x)
    {
      hide Seen, Hits, Declared, AnyUndeclared;
      Dispatch(x);
      forall k | k in Hits(setup, old(View()), x) ensures Declared(setup, k) {
        SamplingTotal(setup, old(View()), x, k);
      }
      DeclaredAppend(setup, old(log), Hits(setup, old(View()), x));
    }

    /** assert_slice_complete: every bin was hit and no exclusion was. */
    method SliceComplete() returns (unhit: set<Key>, contradicted: set<Key>)
      requires Valid()
      ensures forall k :: k in unhit <==> IsBin(setup, k) && k !in log
      ensures forall k :: k in contradicted <==> IsExclusion(setup, k) && k in log
    {
      hide IsBin, IsExclusion;
      unhit := set k | k in counts && counts[k] == 0;
      contradicted := set k | k in excludedHits && excludedHits[k] > 0;
      forall k ensures k in log <==> multiset(log)[k] > 0 {
      }
    }
  }
}
