// Every register of the Debug Module by address and bit (src/pydebug/model/predictor.py):
// what it reads in any state, what a write leaves in it, which reads are claimed, what a
// busy module refuses, what a reset leaves, and what autoexec replays.

module RegisterLaws {
  import opened Bits
  import opened Registers
  import opened Words
  import opened DebugModule
  import opened HartLaws
  import opened ReadBack
  import opened RunControl

  // ---- The words read out of the declared configuration ----

  lemma FourParts(parts: seq<(nat, nat)>, k: nat)
    requires |parts| == 4
    ensures Bit(OrAll(parts), k) <==>
            PartSetsBit(parts[0], k) || PartSetsBit(parts[1], k) || PartSetsBit(parts[2], k) || PartSetsBit(parts[3], k)
  {
    hide PartSetsBit, OrAll, Bit;
    OrAllBit(parts, k);
  }

  lemma ThreeParts(parts: seq<(nat, nat)>, k: nat)
    requires |parts| == 3
    ensures Bit(OrAll(parts), k) <==> PartSetsBit(parts[0], k) || PartSetsBit(parts[1], k) || PartSetsBit(parts[2], k)
  {
    hide PartSetsBit, OrAll, Bit;
    OrAllBit(parts, k);
  }

  /** hartinfo: nscratch in bits 23:20, dataaccess in 16, datasize in 15:12, dataaddr in 11:0. */
  lemma HartinfoBits(s: Dm, k: nat)
    requires Shaped(s.abs)
    ensures Bit(Predict(s, 0x12), k) <==>
            (20 <= k < 24 && Bit(s.cfg.nscratch, k - 20)) || (k == 16 && s.cfg.dataaccess)
            || (12 <= k < 16 && Bit(s.cfg.datasize, k - 12)) || (k < 12 && Bit(s.cfg.dataaddr, k))
  {
    hide Bit, OrAll, Low, PartSetsBit, Haltsum, Haltsum0;
    var c := s.cfg;
    FourParts([(Low(c.nscratch, 4), 20), (FromBool(c.dataaccess), 16), (Low(c.datasize, 4), 12), (Low(c.dataaddr, 12), 0)], k);
    FieldPart(c.nscratch, 4, 20, k);
    FlagPart(c.dataaccess, 16, k);
    FieldPart(c.datasize, 4, 12, k);
    FieldPart(c.dataaddr, 12, 0, k);
  }

  /** abstractcs: progbufsize in bits 28:24, relaxedpriv in 11, datacount in 3:0. */
  lemma AbstractcsBits(s: Dm, k: nat)
    requires Shaped(s.abs)
    ensures Bit(Predict(s, 0x16), k) <==>
            (24 <= k < 29 && Bit(s.cfg.progbufsize, k - 24)) || (k == 11 && s.misc.relaxedpriv)
            || (k < 4 && Bit(s.cfg.datacount, k))
  {
    hide Bit, OrAll, Low, PartSetsBit, Haltsum, Haltsum0;
    var c := s.cfg;
    ThreeParts([(Low(c.progbufsize, 5), 24), (FromBool(s.misc.relaxedpriv), 11), (Low(c.datacount, 4), 0)], k);
    FieldPart(c.progbufsize, 5, 24, k);
    FlagPart(s.misc.relaxedpriv, 11, k);
    FieldPart(c.datacount, 4, 0, k);
  }

  /** sbcs, its settings and its declared fields; 0 where there is no system bus. */
  lemma SbcsBits(s: Dm, k: nat)
    requires Shaped(s.abs)
    ensures var c := s.cfg;
            Bit(Predict(s, 0x38), k) <==>
            c.sbaEnable
            && ((29 <= k < 32 && Bit(c.sbversion, k - 29)) || (k == 20 && s.sba.readonaddr)
                || (17 <= k < 20 && Bit(s.sba.access, k - 17)) || (k == 16 && s.sba.autoincrement)
                || (k == 15 && s.sba.readondata) || (5 <= k < 12 && Bit(c.sbasize, k - 5))
                || (k == 4 && c.sbaccess128) || (k == 3 && c.sbaccess64) || (k == 2 && c.sbaccess32)
                || (k == 1 && c.sbaccess16) || (k == 0 && c.sbaccess8))
  {
    hide Bit, OrAll, Low, Haltsum, Haltsum0, SbcsWord;
    assert Predict(s, 0x38) == SbcsWord(s);
    if s.cfg.sbaEnable {
      SbcsBit(s, k);
    } else {
      NoSbcs(s);
      BitZero(k);
    }
  }

  lemma NoSbcs(s: Dm)
    requires !s.cfg.sbaEnable
    ensures SbcsWord(s) == 0
  {
  }

  /** The command register, and the addresses no register of the model has. */
  predicate Unimplemented(addr: nat)
  {
    !(4 <= addr <= 0x16 || addr == 0x18 || addr == 0x1D || 0x20 <= addr <= 0x2F || 0x34 <= addr <= 0x35
      || 0x38 <= addr <= 0x3A || 0x3C <= addr <= 0x3D || addr == 0x40)
  }

  /** What the device does not declare reads 0: the system bus, the hart array, the upper haltsum
      registers, abstractauto, and a program buffer that cannot be read. */
  lemma AbsentReadsZero(s: Dm, addr: nat)
    requires Shaped(s.abs)
    ensures !s.cfg.sbaEnable && 0x37 <= addr <= 0x3F ==> Predict(s, addr) == 0
    ensures !s.cfg.hartarrayEnable && (addr == 0x14 || addr == 0x15) ==> Predict(s, addr) == 0
    ensures !s.cfg.haltsumGroupsPresent && (addr == 0x13 || addr == 0x34 || addr == 0x35) ==> Predict(s, addr) == 0
    ensures !s.cfg.abstractautoEnable && addr == 0x18 ==> Predict(s, addr) == 0
    ensures !s.cfg.progbufReadable && 0x20 <= addr <= 0x2F ==> Predict(s, addr) == 0
  {
  }

  // ---- haltsum ----

  /** A hart that exists and is halted. */
  predicate HaltedHart(s: Dm, h: nat) { h < s.params.numHarts && h < |s.run.harts| && s.run.harts[h].halted }

  lemma BlockOf(s: Dm, level: nat, h: nat, j: nat)
    requires h < |s.run.harts|
    ensures InSlot(s.params.numHarts, s.run, level, j, h) <==>
            HaltedHart(s, h)
            && (level < 3 ==> h / Pow2(5 * level + 5) == s.run.hartsel / Pow2(5 * level + 5))
            && (h / Pow2(5 * level)) % 32 == j
  {
    hide Shr, Low, Pow2;
    ShrIsDiv(h, 5 * level + 5);
    ShrIsDiv(s.run.hartsel, 5 * level + 5);
    ShrIsDiv(h, 5 * level);
    LowIsMod(Shr(h, 5 * level), 5);
    PowerOfFive();
  }

  lemma PowerOfFive()
    ensures Pow2(5) == 32 && Pow2(10) == 1024 && Pow2(15) == 0x8000 && Pow2(20) == 0x10_0000
  {
  }

  lemma HaltsumBitIs(s: Dm, level: nat, j: nat)
    requires 1 <= level <= 3
    ensures Bit(Haltsum(s, level), j) <==>
            s.cfg.haltsumGroupsPresent && j < 32
            && exists h: nat :: h < |s.run.harts| && HaltedHart(s, h)
                 && (level < 3 ==> h / Pow2(5 * level + 5) == s.run.hartsel / Pow2(5 * level + 5))
                 && (h / Pow2(5 * level)) % 32 == j
  {
    hide Bit, Pow2, InSlot;
    BitZero(j);
    BitsWordBit((k: nat) => SlotHalted(s.params.numHarts, s.run, level, k), 32, j);
    forall h: nat | h < |s.run.harts|
      ensures InSlot(s.params.numHarts, s.run, level, j, h) <==>
              HaltedHart(s, h)
              && (level < 3 ==> h / Pow2(5 * level + 5) == s.run.hartsel / Pow2(5 * level + 5))
              && (h / Pow2(5 * level)) % 32 == j
    {
      BlockOf(s, level, h, j);
    }
  }

  /** haltsum0 to haltsum3 by address: harts 0 to 31; of the 1024 and of the 32768 harts around the
      selected one, 32 and 1024 to a bit; and all, 32768 to a bit. */
  lemma HaltsumReads(s: Dm, j: nat)
    requires Shaped(s.abs)
    ensures Bit(Predict(s, 0x40), j) <==> j < 32 && HaltedHart(s, j)
    ensures Bit(Predict(s, 0x13), j) <==>
            s.cfg.haltsumGroupsPresent && j < 32
            && exists h: nat :: h < |s.run.harts| && HaltedHart(s, h)
                                && h / 1024 == s.run.hartsel / 1024 && (h / 32) % 32 == j
    ensures Bit(Predict(s, 0x34), j) <==>
            s.cfg.haltsumGroupsPresent && j < 32
            && exists h: nat :: h < |s.run.harts| && HaltedHart(s, h)
                                && h / 0x8000 == s.run.hartsel / 0x8000 && (h / 1024) % 32 == j
    ensures Bit(Predict(s, 0x35), j) <==>
            s.cfg.haltsumGroupsPresent && j < 32
            && exists h: nat :: h < |s.run.harts| && HaltedHart(s, h) && (h / 0x8000) % 32 == j
  {
    hide Bit, Pow2, Haltsum;
    PowerOfFive();
    HaltsumBitIs(s, 1, j);
    HaltsumBitIs(s, 2, j);
    HaltsumBitIs(s, 3, j);
    BitsWordBit((k: nat) => k < s.params.numHarts && k < |s.run.harts| && s.run.harts[k].halted, 32, j);
  }

  // ---- The declared tables read the predicted words ----

  lemma FieldIs(w: nat, lsb: nat, width: nat, v: nat)
    requires forall k: nat :: k < width ==> (Bit(w, lsb + k) <==> Bit(v, k))
    ensures Extract(w, lsb, width) == Low(v, width)
  {
    hide Bit;
    forall k: nat ensures Bit(Extract(w, lsb, width), k) <==> Bit(Low(v, width), k) {
      BitExtract(w, lsb, width, k);
      BitLow(v, width, k);
    }
    SameBits(Extract(w, lsb, width), Low(v, width));
  }

  lemma HartinfoFields(s: Dm)
    requires Shaped(s.abs)
    ensures var w, c := Predict(s, 0x12), s.cfg;
            && Extract(w, 20, 4) == Low(c.nscratch, 4) && Extract(w, 16, 1) == Low(FromBool(c.dataaccess), 1)
            && Extract(w, 12, 4) == Low(c.datasize, 4) && Extract(w, 0, 12) == Low(c.dataaddr, 12)
  {
    hide Bit, Low, Extract, Predict, FromBool;
    var c, w := s.cfg, Predict(s, 0x12);
    forall k: nat | k < 12
      ensures (k < 4 ==> Bit(w, 20 + k) == Bit(c.nscratch, k)) && (k < 1 ==> Bit(w, 16 + k) == Bit(FromBool(c.dataaccess), k))
      ensures (k < 4 ==> Bit(w, 12 + k) == Bit(c.datasize, k)) && Bit(w, k) == Bit(c.dataaddr, k)
    {
      HartinfoBits(s, 20 + k);
      HartinfoBits(s, 16 + k);
      HartinfoBits(s, 12 + k);
      HartinfoBits(s, k);
      BitFlag(c.dataaccess, k);
    }
    FieldIs(w, 20, 4, c.nscratch);
    FieldIs(w, 16, 1, FromBool(c.dataaccess));
    FieldIs(w, 12, 4, c.datasize);
    FieldIs(w, 0, 12, c.dataaddr);
  }

  /** The hartinfo table decodes the predicted word to the declared device. */
  lemma TableDecodesHartinfo(s: Dm)
    requires Shaped(s.abs)
    ensures var w, t, c := Predict(s, 0x12), HARTINFO.fields, s.cfg;
            && t[0].name == Name.nscratch && t[0].Get(w) == Low(c.nscratch, 4)
            && t[1].name == Name.dataaccess && t[1].Get(w) == FromBool(c.dataaccess)
            && t[2].name == Name.datasize && t[2].Get(w) == Low(c.datasize, 4)
            && t[3].name == Name.dataaddr && t[3].Get(w) == Low(c.dataaddr, 12)
  {
    hide Bit, Low, Extract, Predict;
    HartinfoFields(s);
    LowFlag(s.cfg.dataaccess);
  }

  /** The access-register table and the model read a command word alike ... */
  lemma TablesDecodeCommands(w: nat)
    ensures var t, cmd := ACCESS_REGISTER.fields, DecodeCommand(w);
            && t[0].name == Name.aarsize && t[0].Get(w) == cmd.aarsize
            && t[2].name == Name.postexec && (t[2].Get(w) == 1) == cmd.postexec
            && t[3].name == Name.transfer && (t[3].Get(w) == 1) == cmd.transfer
            && t[4].name == Name.write && (t[4].Get(w) == 1) == cmd.write
            && t[5].name == Name.regno && t[5].Get(w) == cmd.regno
  {
    hide Extract;
  }

  lemma TableDecodesType(w: nat)
    ensures COMMAND.fields[0].name == Name.cmdtype && COMMAND.fields[0].Get(w) == DecodeCommand(w).cmdtype
  {
    hide Extract;
  }

  /** ... and dcsr.step is where its table has it. */
  lemma StepIsDcsrs(a: Abs)
    ensures DCSR.fields[13].name == Name.step && DCSR.fields[13].lsb == 2 && DCSR.fields[13].width == 1
    ensures StepArmed(a) <==> 0x7B0 in a.shadowRegs && Bit(a.shadowRegs[0x7B0], 2)
  {
    hide Extract, Bit;
    if 0x7B0 in a.shadowRegs {
      FlagIsBit(a.shadowRegs[0x7B0], 2);
    }
  }

  /** nextdm reads as declared, and what is not implemented reads 0. */
  lemma ConstantReads(s: Dm, addr: nat)
    requires Shaped(s.abs)
    ensures Predict(s, 0x1D) == s.cfg.nextdm % TWO32
    ensures Unimplemented(addr) ==> Predict(s, addr) == 0
  {
    hide Haltsum, Haltsum0;
  }

  // ---- What a write leaves ----

  lemma Truncated(v: nat)
    ensures Low(v % TWO32, 15) == v % 0x8000
  {
    hide Low;
    LowIsMod(v % TWO32, 15);
    assert Pow2(15) == 0x8000;
    assert v == (v / TWO32) * TWO32 + v % TWO32;
    var q, r := (v % TWO32) / 0x8000, (v % TWO32) % 0x8000;
    assert v == ((v / TWO32) * 0x2_0000 + q) * 0x8000 + r;
    ModUnique(v, 0x8000, (v / TWO32) * 0x2_0000 + q, r);
  }

  lemma {:induction false} LowTwice(v: nat, n: nat)
    ensures Low(Low(v, n), n) == Low(v, n)
  {
    if n > 0 {
      LowTwice(v / 2, n - 1);
    }
  }

  /** hawindowsel keeps its 15 bits where there is a hart array. */
  lemma HawindowselReadsBack(s: Dm, v: nat)
    requires Shaped(s.abs)
    ensures Predict(Step(s, Op.Write(0x14, v)), 0x14) == if s.cfg.hartarrayEnable then v % 0x8000 else 0
  {
    hide Haltsum, Haltsum0, Low;
    Truncated(v);
    LowTwice(v % TWO32, 15);
  }

  /** relaxedpriv is the one bit of abstractcs a write moves, and only from version 1.0 on. */
  lemma RelaxedprivReadsBack(s: Dm, v: nat, k: nat)
    requires Shaped(s.abs) && !s.busy
    ensures Bit(Predict(Step(s, Op.Write(0x16, v)), 0x16), k) <==>
            if k == 11 && s.params.version >= 3 then Bit(v, 11) else Bit(Predict(s, 0x16), k)
  {
    hide Haltsum, Haltsum0, Bit, Low, AbstractcsWord;
    var t := Step(s, Op.Write(0x16, v));
    FlagIsBit(v % TWO32, 11);
    Mod32Bit(v, 11);
    assert t.cfg == s.cfg && t.misc.relaxedpriv == if s.params.version >= 3 then Bit(v, 11) else s.misc.relaxedpriv;
    AbstractcsBits(s, k);
    AbstractcsBits(t, k);
  }

  /** The upper address and data words of the system bus keep what is written, on a bus that has them. */
  lemma UpperWordsReadBack(s: Dm, v: nat)
    requires Shaped(s.abs)
    ensures Predict(Step(s, Op.Write(0x3A, v)), 0x3A) == if s.cfg.sbaEnable && s.cfg.sbasize > 32 then v % TWO32 else 0
    ensures Predict(Step(s, Op.Write(0x3D, v)), 0x3D) ==
            if s.cfg.sbaEnable && (s.cfg.sbaccess64 || s.cfg.sbaccess128) then v % TWO32 else 0
    ensures s.cfgValid && s.run.dmactive ==> HasModel(Step(s, Op.Write(0x3D, v)), 0x3D)
  {
    hide Haltsum, Haltsum0;
  }

  /** A data word that is there reads back as written and is claimed, unless the access replays a command;
      one that is not there reads 0 and changes nothing. */
  lemma DataReadsBack(s: Dm, i: nat, v: nat)
    requires Shaped(s.abs) && !s.busy && i < 12
    ensures var t := Step(s, Op.Write(4 + i, v));
            && (i < s.cfg.datacount && !(s.cfg.abstractautoEnable && Bit(s.abs.abstractauto, i)) ==>
                  && Predict(t, 4 + i) == v % TWO32 && (s.cfgValid && s.run.dmactive ==> HasModel(t, 4 + i))
                  && t.abs.staged0 == (if i == 0 then v % TWO32 else s.abs.staged0)
                  && t.abs.staged1 == (if i == 1 then v % TWO32 else s.abs.staged1))
            && (i >= s.cfg.datacount ==> t == s && Predict(t, 4 + i) == 0)
  {
    hide Haltsum, Haltsum0, ExecuteCommand, Bit;
  }

  /** What an access to sbdata0 or sbaddress0 leaves: `start` with the word at `from` fetched, if the
      access fetches, and the address moved on, if it does and autoincrement is on. */
  predicate Fetched(start: Sba, from: nat, b: Sba)
  {
    && (from in start.mem ==> b.data0Valid && b.data0 == start.mem[from])
    && (from !in start.mem ==> !b.data0Valid)
    && !b.data1Known && b.mem == start.mem
  }

  /** A write of sbaddress0 takes the word; with sbreadonaddr it fetches what is there and makes no claim
      about sbdata1, and otherwise changes nothing else. */
  lemma Sbaddress0Law(s: Dm, v: nat)
    requires Shaped(s.abs)
    ensures var b, b' := s.sba, Step(s, Op.Write(0x39, v)).sba;
            && (b.armed ==> Fetched(b, v % TWO32, b'))
            && (b.armed && !b.autoincrement ==> b'.address0 == v % TWO32 && b'.address1 == b.address1)
            && (!b.armed ==> b' == b.(address0 := v % TWO32))
    ensures !(s.sba.armed && s.sba.autoincrement) && s.cfg.sbaEnable ==>
              Predict(Step(s, Op.Write(0x39, v)), 0x39) == v % TWO32
  {
    hide Haltsum, Haltsum0;
  }

  /** A read of sbdata0 fetches with sbreadondata, from the address it then moves on from, and makes no
      claim about sbdata1; without it nothing changes. */
  lemma Sbdata0Law(s: Dm)
    requires Shaped(s.abs)
    ensures var b, b' := s.sba, Step(s, Op.Read(0x3C)).sba;
            && (b.readondata ==> Fetched(b, b.address0, b'))
            && (b.readondata && !b.autoincrement ==> b'.address0 == b.address0 && b'.address1 == b.address1)
            && (!b.readondata ==> b' == b)
  {
  }

  /** A write of sbdata0 stores at the address it then moves on from. */
  lemma Sbdata0WriteLaw(s: Dm, v: nat)
    requires Shaped(s.abs)
    ensures var b, b' := s.sba, Step(s, Op.Write(0x3C, v)).sba;
            && b'.mem == b.mem[b.address0 := v % TWO32]
            && b'.data0 == b.data0 && b'.data0Valid == b.data0Valid && b'.data1 == b.data1 && b'.data1Known == b.data1Known
            && (!b.autoincrement ==> b'.address0 == b.address0 && b'.address1 == b.address1)
  {
    hide Pow2;
    assert OnWrite(s, 0x3C, v).sba == WriteSbdata0(s.sba, s.cfg.sbasize, v % TWO32);
  }

  // ---- What is claimed ----

  /** The optional system bus, authentication and group registers of a device that declares the feature:
      the model keeps no value for them. */
  predicate Unsimulated(c: Config, addr: nat)
  {
    ((addr == 0x3E || addr == 0x3F) && c.sbaEnable && c.sbaccess128)
    || (addr == 0x3B && c.sbaEnable && c.sbasize > 64) || (addr == 0x37 && c.sbaEnable && c.sbasize > 96)
    || (addr == 0x30 && c.authenticationEnable) || (addr == 0x32 && c.haltgroupsEnable)
  }

  /** The words whose value a command, the hart or the bus may have replaced. */
  predicate Lost(s: Dm, addr: nat)
    requires Shaped(s.abs)
  {
    (addr == 4 && !s.abs.data0Valid) || (5 <= addr <= 15 && addr - 4 < s.cfg.datacount && !s.abs.known[addr - 4])
    || (addr == 0x3C && s.cfg.sbaEnable && !s.sba.data0Valid)
    || (addr == 0x3D && s.cfg.sbaEnable && (s.cfg.sbaccess64 || s.cfg.sbaccess128) && !s.sba.data1Known)
  }

  /** A read is claimed for dmcontrol and dmstatus always, and for every other address of a declared,
      active module but the values it lost and the registers it does not simulate. */
  lemma ClaimedExactly(s: Dm, addr: nat)
    requires Shaped(s.abs)
    ensures HasModel(s, addr) <==>
            addr == 0x10 || addr == 0x11
            || (s.cfgValid && s.run.dmactive && !Lost(s, addr) && !Unsimulated(s.cfg, addr))
  {
  }

  // ---- Busy, and addresses without effect ----

  /** The registers a busy module refuses to have written. */
  predicate Refusing(addr: nat)
  {
    addr == 0x16 || addr == 0x17 || addr == 0x18 || 4 <= addr <= 15 || 0x20 <= addr <= 0x2F
  }

  /** While busy a write to those changes nothing, and a write to any other acts as when idle. */
  lemma BusyRefuses(s: Dm, addr: nat, v: nat)
    requires Shaped(s.abs) && s.busy
    ensures Refusing(addr) ==> Step(s, Op.Write(addr, v)) == s
    ensures !Refusing(addr) ==> Step(s, Op.Write(addr, v)) == Step(s.(busy := false), Op.Write(addr, v)).(busy := true)
  {
    hide DecodeCtl, HartAfter, StepArmed;
  }

  /** The registers a write can reach at all. */
  predicate Writable(addr: nat)
  {
    4 <= addr <= 0x10 || 0x14 <= addr <= 0x18 || 0x20 <= addr <= 0x2F || 0x38 <= addr <= 0x3A || addr == 0x3C || addr == 0x3D
  }

  lemma OthersIgnored(s: Dm, addr: nat, v: nat)
    requires Shaped(s.abs)
    ensures !Writable(addr) ==> Step(s, Op.Write(addr, v)) == s
    ensures addr == 0x15 && !s.cfg.hartarrayEnable ==> Step(s, Op.Write(addr, v)) == s
    ensures addr == 0x16 && s.params.version < 3 ==> Step(s, Op.Write(addr, v)) == s
    ensures 0x20 <= addr <= 0x2F && addr - 0x20 >= s.cfg.progbufsize ==> Step(s, Op.Write(addr, v)) == s
  {
    hide WriteDmcontrol;
  }

  // ---- Reset ----

  /** Every register that is neither a shadow of the hart or of memory nor a signal of the hart, at reset. */
  predicate AtResetValues(s: Dm)
    requires Shaped(s.abs)
  {
    var a, b := s.abs, s.sba;
    && !s.run.dmactive && !s.run.ndmreset && !s.run.hasel && !s.run.hartresetLevel && s.run.hartsel == 0
    && a.data0 == 0 && a.data0Valid && (forall i :: 0 <= i < 12 ==> a.data[i] == 0 && a.known[i])
    && (forall i :: 0 <= i < 16 ==> a.progbuf[i] == 0)
    && a.staged0 == 0 && a.staged1 == 0 && a.lastCommand == 0 && a.abstractauto == 0
    && b.address0 == 0 && b.address1 == 0 && b.data0 == 0 && b.data0Valid && b.data1 == 0 && b.data1Known
    && !b.readonaddr && b.access == s.cfg.sbaccessReset && !b.autoincrement && !b.readondata
    && s.misc.hawindowsel == 0 && s.misc.hawindow == map[] && s.misc.authdata == 0
    && s.misc.relaxedpriv == s.cfg.relaxedprivReset
  }

  /** dmactive=0 puts every register at its reset value and keeps the shadows, the armed bit, the busy bit
      and the declared device. */
  lemma ResetValues(s: Dm, w: nat)
    requires Shaped(s.abs) && !Bit(w, 0)
    ensures var t := Step(s, Op.Write(0x10, w));
            && AtResetValues(t)
            && t.abs.shadowRegs == s.abs.shadowRegs && t.abs.shadowHi == s.abs.shadowHi
            && t.sba.mem == s.sba.mem && t.sba.armed == s.sba.armed && t.busy == s.busy
            && t.params == s.params && t.cfg == s.cfg && t.cfgValid == s.cfgValid
  {
    hide DecodeCtl, Bit;
    ControlFlags(w);
    CtlMod32(w);
    DmcontrolStep(s, w);
  }

  /** So do power-on and set_config, with empty shadows at power-on and a declared device after set_config. */
  lemma PowerOnValues(p: Params, s: Dm, cfg: Config)
    requires Shaped(s.abs)
    ensures AtResetValues(Init(p)) && AtResetValues(SetConfig(s, cfg))
    ensures var t := Init(p);
            && t.params == p && !t.cfgValid && !t.busy && !t.sba.armed
            && t.abs.shadowRegs == map[] && t.abs.shadowHi == map[] && t.sba.mem == map[]
    ensures var t := SetConfig(s, cfg);
            && t.params == cfg.params && t.cfg == cfg && t.cfgValid && t.busy == s.busy && t.sba.armed == s.sba.armed
            && t.abs.shadowRegs == s.abs.shadowRegs && t.abs.shadowHi == s.abs.shadowHi && t.sba.mem == s.sba.mem
  {
  }

  // ---- Autoexec ----

  /** abstractauto asks for the last command on an access to `addr`: data words in bits 11:0, program
      buffer words from bit 16 up. */
  predicate Replays(s: Dm, addr: nat)
  {
    s.cfg.abstractautoEnable && !s.busy
    && ((4 <= addr <= 15 && addr - 4 < s.cfg.datacount && Bit(s.abs.abstractauto, addr - 4))
        || (0x20 <= addr <= 0x2F && addr - 0x20 < s.cfg.progbufsize && Bit(s.abs.abstractauto, addr - 0x10)))
  }

  /** The state with autoexec off. */
  function Quieted(s: Dm): Dm { s.(cfg := s.cfg.(abstractautoEnable := false)) }

  function Unquieted(s: Dm, enabled: bool): Dm { s.(cfg := s.cfg.(abstractautoEnable := enabled)) }

  lemma BufferAccess(s: Dm, addr: nat, v: nat)
    requires Shaped(s.abs) && (IsData(addr) || IsProgbuf(addr)) && Implemented(s, addr) && !s.busy
    ensures Step(Quieted(s), Op.Write(addr, v)) == Quieted(s).(abs := StoreBuffer(s.abs, addr, v % TWO32))
    ensures Step(s, Op.Write(addr, v)).abs ==
            (var a := StoreBuffer(s.abs, addr, v % TWO32);
             if Replays(s, addr) then ExecuteCommand(a, a.lastCommand) else a)
    ensures Step(s, Op.Read(addr)).abs ==
            if Replays(s, addr) then ExecuteCommand(s.abs, s.abs.lastCommand) else s.abs
  {
    hide ExecuteCommand, Bit;
  }

  lemma CommandAccess(s: Dm, v: nat)
    requires Shaped(s.abs) && !s.busy
    ensures Step(s, Op.Write(0x17, v)).abs == ExecuteCommand(s.abs.(lastCommand := v % TWO32), v % TWO32)
  {
    hide ExecuteCommand;
  }

  lemma SmallWord(v: nat)
    requires v < TWO32
    ensures v % TWO32 == v
  {
  }

  /** The command register of every reachable state holds a 32-bit word. */
  lemma {:induction false} LastCommandIsWord(p: Params, ops: seq<Op>)
    ensures After(Init(p), ops).abs.lastCommand < TWO32
  {
    hide Step;
    if |ops| > 0 {
      LastCommandIsWord(p, ops[..|ops| - 1]);
      CommandStaysWord(After(Init(p), ops[..|ops| - 1]), ops[|ops| - 1]);
    }
  }

  lemma ExecuteKeepsCommand(a: Abs, word: nat)
    requires Shaped(a)
    ensures ExecuteCommand(a, word).lastCommand == a.lastCommand
  {
    hide DecodeCommand;
  }

  lemma BufferKeepsCommand(s: Dm, addr: nat, v: nat)
    requires Shaped(s.abs) && (IsData(addr) || IsProgbuf(addr))
    ensures WriteBuffer(s, addr, v).abs.lastCommand == Autoexec(s, addr).abs.lastCommand == s.abs.lastCommand
  {
    hide ExecuteCommand;
    ExecuteKeepsCommand(s.abs, s.abs.lastCommand);
    ExecuteKeepsCommand(StoreBuffer(s.abs, addr, v), s.abs.lastCommand);
  }

  lemma ControlKeepsCommand(s: Dm, v: nat)
    ensures WriteDmcontrol(s, v).abs.lastCommand == s.abs.lastCommand || WriteDmcontrol(s, v).abs.lastCommand == 0
  {
    hide DecodeCtl, ControlRun, Resumes;
  }

  lemma CommandStaysWord(s: Dm, op: Op)
    requires Shaped(s.abs) && s.abs.lastCommand < TWO32
    ensures Step(s, op).abs.lastCommand < TWO32
  {
    hide ExecuteCommand, WriteBuffer, WriteDmcontrol, Autoexec;
    if op.Write? {
      var v := op.value % TWO32;
      ExecuteKeepsCommand(s.abs.(lastCommand := v), v);
      ControlKeepsCommand(s, v);
    }
    if (op.Write? || op.Read?) && (IsData(op.addr) || IsProgbuf(op.addr)) {
      BufferKeepsCommand(s, op.addr, if op.Write? then op.value % TWO32 else 0);
    }
  }

  /** A write to an armed word is the plain write followed by the last command written again; a read of
      one is that command written again. An access that is not armed is the plain one. */
  lemma AutoexecReplays(s: Dm, addr: nat, v: nat)
    requires Shaped(s.abs) && s.abs.lastCommand < TWO32
    requires (IsData(addr) || IsProgbuf(addr)) && Implemented(s, addr) && !s.busy
    ensures var plain := Step(Quieted(s), Op.Write(addr, v));
            Step(s, Op.Write(addr, v)).abs ==
            if Replays(s, addr) then Step(plain, Op.Write(0x17, s.abs.lastCommand)).abs else plain.abs
    ensures Step(s, Op.Read(addr)).abs ==
            if Replays(s, addr) then Step(s, Op.Write(0x17, s.abs.lastCommand)).abs else s.abs
  {
    hide ExecuteCommand, Replays, OnWrite, OnRead, Step;
    BufferAccess(s, addr, v);
    var plain := Step(Quieted(s), Op.Write(addr, v));
    SmallWord(s.abs.lastCommand);
    CommandAccess(s, s.abs.lastCommand);
    CommandAccess(plain, s.abs.lastCommand);
    assert plain.abs.lastCommand == s.abs.lastCommand;
    assert plain.abs.(lastCommand := s.abs.lastCommand) == plain.abs;
    assert s.abs.(lastCommand := s.abs.lastCommand) == s.abs;
  }
}
