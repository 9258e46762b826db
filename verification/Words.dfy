// The two run-control words as records: dmcontrol as the action a write asks
// for, dmstatus as the facts a read reports, each tied to its register table.
// The hand-written encoders of src/pydebug/api/riscv_dm.py are proved equal to
// the table-driven ones.

module Words {
  import opened Bits
  import opened Registers

  /** What one dmcontrol write says (section 3.14.2 of the RISC-V Debug Specification). */
  datatype Ctl = Ctl(
    haltreq: bool, resumereq: bool, hartreset: bool, ackhavereset: bool, ackunavail: bool,
    hasel: bool, hartsel: nat, setkeepalive: bool, clrkeepalive: bool, setresethaltreq: bool,
    clrresethaltreq: bool, ndmreset: bool, dmactive: bool)

  /** What one dmstatus read reports (section 3.14.1). */
  datatype Status = Status(
    ndmresetpending: bool, stickyunavail: bool, impebreak: bool, allhavereset: bool, anyhavereset: bool,
    allresumeack: bool, anyresumeack: bool, allnonexistent: bool, anynonexistent: bool, allunavail: bool,
    anyunavail: bool, allrunning: bool, anyrunning: bool, allhalted: bool, anyhalted: bool,
    authenticated: bool, authbusy: bool, hasresethaltreq: bool, confstrptrvalid: bool, version: nat)

  predicate Flag(word: nat, lsb: nat) { Extract(word, lsb, 1) == 1 }

  /** hartsel assembled from hartselhi and hartsello. */
  function HartselOf(word: nat): nat
  {
    Cat(Extract(word, 6, 10), Extract(word, 16, 10), 10)
  }

  function WithHartsel(word: nat, hartsel: nat): nat
  {
    Insert(Insert(word, 16, 10, Low(hartsel, 10)), 6, 10, Low(Shr(hartsel, 10), 10))
  }

  function DecodeCtl(word: nat): Ctl
  {
    Ctl(Flag(word, 31), Flag(word, 30), Flag(word, 29), Flag(word, 28), Flag(word, 27), Flag(word, 26),
        HartselOf(word), Flag(word, 5), Flag(word, 4), Flag(word, 3), Flag(word, 2), Flag(word, 1), Flag(word, 0))
  }

  function DecodeStatus(word: nat): Status
  {
    Status(Flag(word, 24), Flag(word, 23), Flag(word, 22), Flag(word, 19), Flag(word, 18), Flag(word, 17),
           Flag(word, 16), Flag(word, 15), Flag(word, 14), Flag(word, 13), Flag(word, 12), Flag(word, 11),
           Flag(word, 10), Flag(word, 9), Flag(word, 8), Flag(word, 7), Flag(word, 6), Flag(word, 5),
           Flag(word, 4), Extract(word, 0, 4))
  }

  function StatusValues(st: Status): seq<(Name, nat)>
  {
    [(Name.ndmresetpending, FromBool(st.ndmresetpending)), (Name.stickyunavail, FromBool(st.stickyunavail)),
     (Name.impebreak, FromBool(st.impebreak)), (Name.allhavereset, FromBool(st.allhavereset)),
     (Name.anyhavereset, FromBool(st.anyhavereset)), (Name.allresumeack, FromBool(st.allresumeack)),
     (Name.anyresumeack, FromBool(st.anyresumeack)), (Name.allnonexistent, FromBool(st.allnonexistent)),
     (Name.anynonexistent, FromBool(st.anynonexistent)), (Name.allunavail, FromBool(st.allunavail)),
     (Name.anyunavail, FromBool(st.anyunavail)), (Name.allrunning, FromBool(st.allrunning)),
     (Name.anyrunning, FromBool(st.anyrunning)), (Name.allhalted, FromBool(st.allhalted)),
     (Name.anyhalted, FromBool(st.anyhalted)), (Name.authenticated, FromBool(st.authenticated)),
     (Name.authbusy, FromBool(st.authbusy)), (Name.hasresethaltreq, FromBool(st.hasresethaltreq)),
     (Name.confstrptrvalid, FromBool(st.confstrptrvalid)), (Name.version, st.version)]
  }

  /** Each value names the field at its own position. */
  ghost predicate Aligned(fields: seq<Field>, values: seq<(Name, nat)>)
  {
    |values| == |fields| && forall j :: 0 <= j < |fields| ==> values[j].0 == fields[j].name
  }

  lemma AlignedEncode(fields: seq<Field>, values: seq<(Name, nat)>)
    requires Disjoint(fields) && DistinctNames(fields) && Aligned(fields, values)
    ensures Known(fields, values)
    ensures forall j :: 0 <= j < |fields| ==>
              fields[j].Get(Encoded(fields, values)) == Low(values[j].1, fields[j].width)
  {
    forall j | 0 <= j < |fields| ensures Lookup(fields, values[j].0) == j {
      LookupAt(fields, j);
    }
    forall j | 0 <= j < |fields|
      ensures fields[j].Get(Encoded(fields, values)) == Low(values[j].1, fields[j].width)
    {
      EncodeThenGet(fields, values, j);
    }
  }

  lemma StatusAligned(st: Status)
    ensures Aligned(DMSTATUS.fields, StatusValues(st))
    ensures Known(DMSTATUS.fields, StatusValues(st))
  {
    DmstatusDisjoint();
    DmstatusNames();
    AlignedEncode(DMSTATUS.fields, StatusValues(st));
  }

  /** DMSTATUS.encode of a full set of values. */
  function EncodeStatus(st: Status): nat
  {
    StatusAligned(st);
    Encoded(DMSTATUS.fields, StatusValues(st))
  }

  lemma StatusGets(st: Status)
    ensures Gets(DMSTATUS.fields, EncodeStatus(st), StatusValues(st))
  {
    DmstatusDisjoint();
    DmstatusNames();
    StatusAligned(st);
    AlignedEncode(DMSTATUS.fields, StatusValues(st));
  }

  lemma LowFlag(b: bool)
    ensures Low(FromBool(b), 1) == FromBool(b)
  {
  }

  lemma LowOne(v: nat)
    requires v <= 1
    ensures Low(v, 1) == v
  {
  }

  lemma LowVersion(v: nat)
    ensures Low(v, 4) == v % 16
  {
    LowIsMod(v, 4);
    assert Pow2(4) == 16;
  }

  /** A predicted dmstatus word decodes to exactly what was encoded, version modulo 16. */
  lemma StatusRoundTrip(st: Status)
    ensures DecodeStatus(EncodeStatus(st)) == st.(version := st.version % 16)
  {
    StatusGets(st);
    StatusFieldsHigh(EncodeStatus(st), StatusValues(st));
    StatusFieldsLow(EncodeStatus(st), StatusValues(st));
    LowFlag(true);
    LowFlag(false);
    LowVersion(st.version);
  }

  ghost predicate Gets(fields: seq<Field>, w: nat, values: seq<(Name, nat)>)
  {
    |values| == |fields| && forall j :: 0 <= j < |fields| ==> fields[j].Get(w) == Low(values[j].1, fields[j].width)
  }

  lemma StatusFieldsHigh(w: nat, values: seq<(Name, nat)>)
    requires Gets(DMSTATUS.fields, w, values)
    ensures Extract(w, 24, 1) == Low(values[0].1, 1) && Extract(w, 23, 1) == Low(values[1].1, 1)
    ensures Extract(w, 22, 1) == Low(values[2].1, 1) && Extract(w, 19, 1) == Low(values[3].1, 1)
    ensures Extract(w, 18, 1) == Low(values[4].1, 1) && Extract(w, 17, 1) == Low(values[5].1, 1)
    ensures Extract(w, 16, 1) == Low(values[6].1, 1) && Extract(w, 15, 1) == Low(values[7].1, 1)
    ensures Extract(w, 14, 1) == Low(values[8].1, 1) && Extract(w, 13, 1) == Low(values[9].1, 1)
  {
  }

  lemma StatusFieldsLow(w: nat, values: seq<(Name, nat)>)
    requires Gets(DMSTATUS.fields, w, values)
    ensures Extract(w, 12, 1) == Low(values[10].1, 1) && Extract(w, 11, 1) == Low(values[11].1, 1)
    ensures Extract(w, 10, 1) == Low(values[12].1, 1) && Extract(w, 9, 1) == Low(values[13].1, 1)
    ensures Extract(w, 8, 1) == Low(values[14].1, 1) && Extract(w, 7, 1) == Low(values[15].1, 1)
    ensures Extract(w, 6, 1) == Low(values[16].1, 1) && Extract(w, 5, 1) == Low(values[17].1, 1)
    ensures Extract(w, 4, 1) == Low(values[18].1, 1) && Extract(w, 0, 4) == Low(values[19].1, 4)
  {
  }

  // ---- hartsel ----

  lemma HartselBit(word: nat, k: nat)
    ensures Bit(HartselOf(word), k) <==>
            (k < 10 && Bit(word, 16 + k)) || (10 <= k < 20 && Bit(word, k - 4))
  {
    BitCat(Extract(word, 6, 10), Extract(word, 16, 10), 10, k);
    BitExtract(word, 16, 10, k);
    if k >= 10 {
      BitExtract(word, 6, 10, k - 10);
    }
  }

  lemma WithHartselBit(word: nat, hartsel: nat, k: nat)
    ensures Bit(WithHartsel(word, hartsel), k) <==>
            if 16 <= k < 26 then Bit(hartsel, k - 16)
            else if 6 <= k < 16 then Bit(hartsel, k + 4)
            else Bit(word, k)
  {
    var lo, hi := Low(hartsel, 10), Low(Shr(hartsel, 10), 10);
    BitInsert(Insert(word, 16, 10, lo), 6, 10, hi, k);
    BitInsert(word, 16, 10, lo, k);
    if 16 <= k < 26 {
      BitLow(hartsel, 10, k - 16);
    } else if 6 <= k < 16 {
      BitLow(Shr(hartsel, 10), 10, k - 6);
      BitShr(hartsel, 10, k - 6);
    }
  }

  /** The split index round-trips modulo 2^20, and no other bit of the word moves. */
  lemma HartselRoundTrip(word: nat, hartsel: nat)
    ensures HartselOf(WithHartsel(word, hartsel)) == hartsel % 0x10_0000
    ensures forall k :: !(6 <= k < 26) && k >= 0 ==> (Bit(WithHartsel(word, hartsel), k) <==> Bit(word, k))
  {
    LowIsMod(hartsel, 20);
    assert Pow2(10) == 1024 && Pow2(20) == 0x10_0000;
    var w := WithHartsel(word, hartsel);
    forall k: nat ensures Bit(HartselOf(w), k) <==> Bit(Low(hartsel, 20), k) {
      HartselBit(w, k);
      BitLow(hartsel, 20, k);
      if k < 10 {
        WithHartselBit(word, hartsel, 16 + k);
      } else if k < 20 {
        WithHartselBit(word, hartsel, k - 4);
      }
    }
    SameBits(HartselOf(w), Low(hartsel, 20));
    forall k | !(6 <= k < 26) && k >= 0 ensures Bit(w, k) <==> Bit(word, k) {
      WithHartselBit(word, hartsel, k);
    }
  }

  lemma HartselBound(word: nat)
    ensures HartselOf(word) < 0x10_0000
  {
    assert Pow2(10) == 1024 && Pow2(20) == 0x10_0000;
    forall k: nat ensures Bit(HartselOf(word), k) <==> Bit(Low(HartselOf(word), 20), k) {
      HartselBit(word, k);
      BitLow(HartselOf(word), 20, k);
    }
    SameBits(HartselOf(word), Low(HartselOf(word), 20));
    LowBound(HartselOf(word), 20);
  }

  /** Only the low 32 bits of a written word matter: `value &= MASK32` loses nothing. */
  lemma CtlMod32(word: nat)
    ensures DecodeCtl(word % TWO32) == DecodeCtl(word)
  {
    ExtractMod32(word, 6, 10);
    ExtractMod32(word, 16, 10);
    forall lsb: nat | lsb < 32 ensures Flag(word % TWO32, lsb) == Flag(word, lsb) {
      ExtractMod32(word, lsb, 1);
    }
  }

  lemma FlagIsBit(word: nat, lsb: nat)
    ensures Flag(word, lsb) <==> Bit(word, lsb)
  {
    BitExtract(word, lsb, 1, 0);
    assert Low(Shr(word, lsb), 1) == Shr(word, lsb) % 2;
  }

  // ---- The encoders of riscv_dm.py: `v |= part << shift`, least significant first ----

  function OrAll(parts: seq<(nat, nat)>): nat
  {
    if |parts| == 0 then 0
    else
      var last := |parts| - 1;
      Or(OrAll(parts[..last]), Shl(parts[last].0, parts[last].1))
  }

  ghost predicate PartSetsBit(part: (nat, nat), k: nat)
  {
    k >= part.1 && Bit(part.0, k - part.1)
  }

  lemma {:induction false} OrAllBit(parts: seq<(nat, nat)>, k: nat)
    ensures Bit(OrAll(parts), k) <==> exists j :: 0 <= j < |parts| && PartSetsBit(parts[j], k)
  {
    if |parts| == 0 {
      BitZero(k);
    } else {
      var last := |parts| - 1;
      var init := parts[..last];
      OrAllBit(init, k);
      BitOr(OrAll(init), Shl(parts[last].0, parts[last].1), k);
      BitShl(parts[last].0, parts[last].1, k);
      if exists j :: 0 <= j < |init| && PartSetsBit(init[j], k) {
        var j :| 0 <= j < |init| && PartSetsBit(init[j], k);
        assert parts[j] == init[j];
      }
      if exists j :: 0 <= j < |parts| && PartSetsBit(parts[j], k) {
        var j :| 0 <= j < |parts| && PartSetsBit(parts[j], k);
        assert j < last ==> init[j] == parts[j];
      }
    }
  }

  /** The parts are the table's fields from the bottom up, each masked to its width. */
  ghost predicate PartsOf(fields: seq<Field>, values: seq<(Name, nat)>, parts: seq<(nat, nat)>)
    requires |values| == |fields|
  {
    |parts| == |fields|
    && forall j :: 0 <= j < |fields| ==>
         parts[|fields| - 1 - j] == (Low(values[j].1, fields[j].width), fields[j].lsb)
  }

  lemma PartIsValue(fields: seq<Field>, values: seq<(Name, nat)>, parts: seq<(nat, nat)>, j: nat, k: nat)
    requires DistinctNames(fields) && Aligned(fields, values) && Known(fields, values) && PartsOf(fields, values, parts)
    requires j < |fields|
    ensures PartSetsBit(parts[|fields| - 1 - j], k) <==> ValueSetsBit(fields, values[j], k)
  {
    LookupAt(fields, j);
    if k >= fields[j].lsb {
      BitLow(values[j].1, fields[j].width, k - fields[j].lsb);
    }
  }

  /** An or-chain of shifted, masked parts is the table-driven encoding of the same values. */
  lemma OrChainEncodes(fields: seq<Field>, values: seq<(Name, nat)>, parts: seq<(nat, nat)>)
    requires Disjoint(fields) && DistinctNames(fields) && Aligned(fields, values)
    requires Known(fields, values) && PartsOf(fields, values, parts)
    ensures OrAll(parts) == Encoded(fields, values)
  {
    forall k: nat ensures Bit(OrAll(parts), k) <==> Bit(Encoded(fields, values), k) {
      OrAllBit(parts, k);
      EncodedBit(fields, values, k);
      if exists i :: 0 <= i < |parts| && PartSetsBit(parts[i], k) {
        var i :| 0 <= i < |parts| && PartSetsBit(parts[i], k);
        PartIsValue(fields, values, parts, |fields| - 1 - i, k);
      }
      if SetsBit(fields, values, k) {
        var j :| 0 <= j < |values| && ValueSetsBit(fields, values[j], k);
        PartIsValue(fields, values, parts, j, k);
      }
    }
    SameBits(OrAll(parts), Encoded(fields, values));
  }

  function DmcontrolParts(c: Ctl): seq<(nat, nat)>
  {
    [(FromBool(c.dmactive), 0), (FromBool(c.ndmreset), 1), (FromBool(c.clrresethaltreq), 2),
     (FromBool(c.setresethaltreq), 3), (FromBool(c.clrkeepalive), 4), (FromBool(c.setkeepalive), 5),
     (Low(Shr(c.hartsel, 10), 10), 6), (Low(c.hartsel, 10), 16), (FromBool(c.hasel), 26),
     (FromBool(c.ackunavail), 27), (FromBool(c.ackhavereset), 28), (FromBool(c.hartreset), 29),
     (FromBool(c.resumereq), 30), (FromBool(c.haltreq), 31)]
  }

  /** riscv_dm.dmcontrol */
  function DriverDmcontrol(c: Ctl): nat { OrAll(DmcontrolParts(c)) }

  /** DMCONTROL.encode's arguments for the same request, hartsel split over its two fields. */
  function CtlValues(c: Ctl): seq<(Name, nat)>
  {
    [(Name.haltreq, FromBool(c.haltreq)), (Name.resumereq, FromBool(c.resumereq)),
     (Name.hartreset, FromBool(c.hartreset)), (Name.ackhavereset, FromBool(c.ackhavereset)),
     (Name.ackunavail, FromBool(c.ackunavail)), (Name.hasel, FromBool(c.hasel)),
     (Name.hartsello, c.hartsel), (Name.hartselhi, Shr(c.hartsel, 10)),
     (Name.setkeepalive, FromBool(c.setkeepalive)), (Name.clrkeepalive, FromBool(c.clrkeepalive)),
     (Name.setresethaltreq, FromBool(c.setresethaltreq)), (Name.clrresethaltreq, FromBool(c.clrresethaltreq)),
     (Name.ndmreset, FromBool(c.ndmreset)), (Name.dmactive, FromBool(c.dmactive))]
  }

  lemma CtlAligned(c: Ctl)
    ensures Aligned(DMCONTROL.fields, CtlValues(c))
  {
  }

  lemma CtlFlagPart(c: Ctl, j: nat)
    requires j < 14 && j != 6 && j != 7
    ensures DMCONTROL.fields[j].width == 1
    ensures DmcontrolParts(c)[13 - j].0 == CtlValues(c)[j].1 <= 1
  {
  }

  lemma CtlHartselParts(c: Ctl)
    ensures DmcontrolParts(c)[7].0 == Low(CtlValues(c)[6].1, DMCONTROL.fields[6].width)
    ensures DmcontrolParts(c)[6].0 == Low(CtlValues(c)[7].1, DMCONTROL.fields[7].width)
  {
  }

  lemma CtlShifts(c: Ctl, j: nat)
    requires j < 14
    ensures DmcontrolParts(c)[13 - j].1 == DMCONTROL.fields[j].lsb
  {
  }

  lemma CtlParts(c: Ctl)
    ensures PartsOf(DMCONTROL.fields, CtlValues(c), DmcontrolParts(c))
  {
    CtlHartselParts(c);
    var fields, values, parts := DMCONTROL.fields, CtlValues(c), DmcontrolParts(c);
    forall j | 0 <= j < 14 ensures parts[13 - j] == (Low(values[j].1, fields[j].width), fields[j].lsb) {
      CtlShifts(c, j);
      if j != 6 && j != 7 {
        CtlFlagPart(c, j);
        LowOne(values[j].1);
      }
    }
  }

  /** The table-driven and the hand-written dmcontrol encoders agree for all flags and every hartsel. */
  lemma DmcontrolEncodersAgree(c: Ctl)
    ensures Known(DMCONTROL.fields, CtlValues(c))
    ensures Encoded(DMCONTROL.fields, CtlValues(c)) == DriverDmcontrol(c)
  {
    DmcontrolDisjoint();
    DmcontrolNames();
    CtlAligned(c);
    CtlParts(c);
    AlignedEncode(DMCONTROL.fields, CtlValues(c));
    OrChainEncodes(DMCONTROL.fields, CtlValues(c), DmcontrolParts(c));
  }

  lemma DriverGets(c: Ctl)
    ensures Gets(DMCONTROL.fields, DriverDmcontrol(c), CtlValues(c))
  {
    DmcontrolEncodersAgree(c);
    DmcontrolDisjoint();
    DmcontrolNames();
    CtlAligned(c);
    AlignedEncode(DMCONTROL.fields, CtlValues(c));
  }

  lemma CtlFields(w: nat, values: seq<(Name, nat)>)
    requires Gets(DMCONTROL.fields, w, values)
    ensures Extract(w, 31, 1) == Low(values[0].1, 1) && Extract(w, 30, 1) == Low(values[1].1, 1)
    ensures Extract(w, 29, 1) == Low(values[2].1, 1) && Extract(w, 28, 1) == Low(values[3].1, 1)
    ensures Extract(w, 27, 1) == Low(values[4].1, 1) && Extract(w, 26, 1) == Low(values[5].1, 1)
    ensures Extract(w, 16, 10) == Low(values[6].1, 10) && Extract(w, 6, 10) == Low(values[7].1, 10)
    ensures Extract(w, 5, 1) == Low(values[8].1, 1) && Extract(w, 4, 1) == Low(values[9].1, 1)
    ensures Extract(w, 3, 1) == Low(values[10].1, 1) && Extract(w, 2, 1) == Low(values[11].1, 1)
    ensures Extract(w, 1, 1) == Low(values[12].1, 1) && Extract(w, 0, 1) == Low(values[13].1, 1)
  {
  }

  lemma {:induction false} CatLow(hi: nat, lo: nat, m: nat, n: nat)
    ensures Cat(Low(hi, m), Low(lo, n), n) == Low(Cat(hi, lo, n), m + n)
  {
    if n > 0 {
      CatLow(hi, lo / 2, m, n - 1);
      var whole := Cat(hi, lo, n);
      assert whole == 2 * Cat(hi, lo / 2, n - 1) + lo % 2;
      assert whole / 2 == Cat(hi, lo / 2, n - 1);
      assert Low(lo, n) / 2 == Low(lo / 2, n - 1);
    }
  }

  lemma {:induction false} CatShr(w: nat, n: nat)
    ensures Cat(Shr(w, n), w, n) == w
  {
    if n > 0 {
      CatShr(w / 2, n - 1);
    }
  }

  lemma SplitHartsel(hartsel: nat)
    ensures Cat(Low(Shr(hartsel, 10), 10), Low(hartsel, 10), 10) == hartsel % 0x10_0000
  {
    CatLow(Shr(hartsel, 10), hartsel, 10, 10);
    CatShr(hartsel, 10);
    LowIsMod(hartsel, 20);
    assert Pow2(10) == 1024 && Pow2(20) == 0x10_0000;
  }

  /** What the driver asks for is what the model decodes, for every hartsel modulo 2^20. */
  lemma DriverDecodes(c: Ctl)
    ensures DecodeCtl(DriverDmcontrol(c)) == c.(hartsel := c.hartsel % 0x10_0000)
  {
    DriverGets(c);
    CtlFields(DriverDmcontrol(c), CtlValues(c));
    LowFlag(true);
    LowFlag(false);
    SplitHartsel(c.hartsel);
  }

  datatype Dmcs2Request = Dmcs2Request(hgselect: bool, hgwrite: bool, group: nat, dmexttrigger: nat, grouptype: bool)

  function Dmcs2Parts(r: Dmcs2Request): seq<(nat, nat)>
  {
    [(FromBool(r.hgselect), 0), (FromBool(r.hgwrite), 1), (Low(r.group, 5), 2),
     (Low(r.dmexttrigger, 4), 7), (FromBool(r.grouptype), 11)]
  }

  /** riscv_dm.dmcs2 */
  function DriverDmcs2(r: Dmcs2Request): nat { OrAll(Dmcs2Parts(r)) }

  function Dmcs2Values(r: Dmcs2Request): seq<(Name, nat)>
  {
    [(Name.grouptype, FromBool(r.grouptype)), (Name.dmexttrigger, r.dmexttrigger), (Name.group, r.group),
     (Name.hgwrite, FromBool(r.hgwrite)), (Name.hgselect, FromBool(r.hgselect))]
  }

  lemma Dmcs2Aligned(r: Dmcs2Request)
    ensures Aligned(DMCS2.fields, Dmcs2Values(r))
  {
  }

  lemma Dmcs2PartsOf(r: Dmcs2Request)
    ensures PartsOf(DMCS2.fields, Dmcs2Values(r), Dmcs2Parts(r))
  {
    LowFlag(true);
    LowFlag(false);
  }

  /** The table-driven and the hand-written dmcs2 encoders agree. */
  lemma Dmcs2EncodersAgree(r: Dmcs2Request)
    ensures Known(DMCS2.fields, Dmcs2Values(r))
    ensures Encoded(DMCS2.fields, Dmcs2Values(r)) == DriverDmcs2(r)
  {
    Dmcs2Table();
    Dmcs2Names();
    Dmcs2Aligned(r);
    Dmcs2PartsOf(r);
    AlignedEncode(DMCS2.fields, Dmcs2Values(r));
    OrChainEncodes(DMCS2.fields, Dmcs2Values(r), Dmcs2Parts(r));
  }

  // ---- dmcontrol read back ----

  function ReadbackValues(active: bool, ndm: bool, sel: bool, hreset: bool): seq<(Name, nat)>
  {
    [(Name.dmactive, FromBool(active)), (Name.ndmreset, FromBool(ndm)),
     (Name.hasel, FromBool(sel)), (Name.hartreset, FromBool(hreset))]
  }

  lemma ReadbackLookups()
    ensures Lookup(DMCONTROL.fields, Name.dmactive) == 13 && Lookup(DMCONTROL.fields, Name.ndmreset) == 12
    ensures Lookup(DMCONTROL.fields, Name.hasel) == 5 && Lookup(DMCONTROL.fields, Name.hartreset) == 2
  {
    DmcontrolNames();
    LookupAt(DMCONTROL.fields, 13);
    LookupAt(DMCONTROL.fields, 12);
    LookupAt(DMCONTROL.fields, 5);
    LookupAt(DMCONTROL.fields, 2);
  }

  lemma ReadbackKnown(active: bool, ndm: bool, sel: bool, hreset: bool)
    ensures Known(DMCONTROL.fields, ReadbackValues(active, ndm, sel, hreset))
  {
    ReadbackLookups();
    FourKnown(DMCONTROL.fields, ReadbackValues(active, ndm, sel, hreset));
  }

  /** The dmcontrol word a read returns: four fields and the selected index. */
  function ReadbackWord(active: bool, ndm: bool, sel: bool, hreset: bool, hartsel: nat): nat
  {
    ReadbackKnown(active, ndm, sel, hreset);
    WithHartsel(Encoded(DMCONTROL.fields, ReadbackValues(active, ndm, sel, hreset)), hartsel)
  }

  lemma FlagSetsBit(fields: seq<Field>, name: Name, b: bool, k: nat)
    requires Lookup(fields, name) < |fields| && FieldNamed(fields, name).width == 1
    ensures ValueSetsBit(fields, (name, FromBool(b)), k) <==> k == FieldNamed(fields, name).lsb && b
  {
    BitFlag(b, 0);
  }

  lemma ReadbackSetsBit(active: bool, ndm: bool, sel: bool, hreset: bool, k: nat)
    ensures Known(DMCONTROL.fields, ReadbackValues(active, ndm, sel, hreset))
    ensures SetsBit(DMCONTROL.fields, ReadbackValues(active, ndm, sel, hreset), k) <==>
            (k == 0 && active) || (k == 1 && ndm) || (k == 26 && sel) || (k == 29 && hreset)
  {
    ReadbackLookups();
    ReadbackKnown(active, ndm, sel, hreset);
    FlagSetsBit(DMCONTROL.fields, Name.dmactive, active, k);
    FlagSetsBit(DMCONTROL.fields, Name.ndmreset, ndm, k);
    FlagSetsBit(DMCONTROL.fields, Name.hasel, sel, k);
    FlagSetsBit(DMCONTROL.fields, Name.hartreset, hreset, k);
    FourValues(DMCONTROL.fields, ReadbackValues(active, ndm, sel, hreset), k);
  }

  lemma ReadbackDistinct(active: bool, ndm: bool, sel: bool, hreset: bool)
    ensures Distinct(ReadbackValues(active, ndm, sel, hreset))
  {
  }

  lemma ReadbackFlagBit(active: bool, ndm: bool, sel: bool, hreset: bool, k: nat)
    ensures Known(DMCONTROL.fields, ReadbackValues(active, ndm, sel, hreset))
    ensures Bit(Encoded(DMCONTROL.fields, ReadbackValues(active, ndm, sel, hreset)), k) <==>
            (k == 0 && active) || (k == 1 && ndm) || (k == 26 && sel) || (k == 29 && hreset)
  {
    ReadbackSetsBit(active, ndm, sel, hreset, k);
    ReadbackDistinct(active, ndm, sel, hreset);
    DmcontrolBit(ReadbackValues(active, ndm, sel, hreset), k);
  }

  lemma DmcontrolBit(values: seq<(Name, nat)>, k: nat)
    requires Known(DMCONTROL.fields, values) && Distinct(values)
    ensures Bit(Encoded(DMCONTROL.fields, values), k) <==> SetsBit(DMCONTROL.fields, values, k)
  {
    DmcontrolDisjoint();
    EncodedBit(DMCONTROL.fields, values, k);
  }

  lemma FourKnown(fields: seq<Field>, values: seq<(Name, nat)>)
    requires |values| == 4
    requires Lookup(fields, values[0].0) < |fields| && Lookup(fields, values[1].0) < |fields|
    requires Lookup(fields, values[2].0) < |fields| && Lookup(fields, values[3].0) < |fields|
    ensures Known(fields, values)
  {
    forall i | 0 <= i < 4 ensures Lookup(fields, values[i].0) < |fields| {
      assert i == 0 || i == 1 || i == 2 || i == 3;
    }
  }

  lemma FourValues(fields: seq<Field>, values: seq<(Name, nat)>, k: nat)
    requires |values| == 4 && Known(fields, values)
    ensures SetsBit(fields, values, k) <==>
            ValueSetsBit(fields, values[0], k) || ValueSetsBit(fields, values[1], k)
            || ValueSetsBit(fields, values[2], k) || ValueSetsBit(fields, values[3], k)
  {
    if SetsBit(fields, values, k) {
      var i :| 0 <= i < |values| && ValueSetsBit(fields, values[i], k);
      assert i == 0 || i == 1 || i == 2 || i == 3;
    }
  }

  lemma ReadbackBit(active: bool, ndm: bool, sel: bool, hreset: bool, hartsel: nat, k: nat)
    ensures Bit(ReadbackWord(active, ndm, sel, hreset, hartsel), k) <==>
            (k == 0 && active) || (k == 1 && ndm) || (k == 26 && sel) || (k == 29 && hreset)
            || (6 <= k < 16 && Bit(hartsel, k + 4)) || (16 <= k < 26 && Bit(hartsel, k - 16))
  {
    ReadbackKnown(active, ndm, sel, hreset);
    ReadbackFlagBit(active, ndm, sel, hreset, k);
    WithHartselBit(Encoded(DMCONTROL.fields, ReadbackValues(active, ndm, sel, hreset)), hartsel, k);
  }

  lemma ReadbackFlag(active: bool, ndm: bool, sel: bool, hreset: bool, hartsel: nat, k: nat)
    requires k < 6 || 26 <= k
    ensures Flag(ReadbackWord(active, ndm, sel, hreset, hartsel), k) <==>
            (k == 0 && active) || (k == 1 && ndm) || (k == 26 && sel) || (k == 29 && hreset)
  {
    FlagIsBit(ReadbackWord(active, ndm, sel, hreset, hartsel), k);
    ReadbackBit(active, ndm, sel, hreset, hartsel, k);
  }

  /** Every write-only dmcontrol field reads back 0; the others read back what was put in. */
  lemma ReadbackDecodes(active: bool, ndm: bool, sel: bool, hreset: bool, hartsel: nat)
    ensures DecodeCtl(ReadbackWord(active, ndm, sel, hreset, hartsel)) ==
            Ctl(false, false, hreset, false, false, sel, hartsel % 0x10_0000, false, false, false, false, ndm, active)
  {
    ReadbackKnown(active, ndm, sel, hreset);
    HartselRoundTrip(Encoded(DMCONTROL.fields, ReadbackValues(active, ndm, sel, hreset)), hartsel);
    var w := ReadbackWord(active, ndm, sel, hreset, hartsel);
    forall k: nat | k < 6 || 26 <= k
      ensures Flag(w, k) <==> (k == 0 && active) || (k == 1 && ndm) || (k == 26 && sel) || (k == 29 && hreset)
    {
      ReadbackFlag(active, ndm, sel, hreset, hartsel, k);
    }
    FlagsDecode(w, active, ndm, sel, hreset);
  }

  lemma FlagsDecode(w: nat, active: bool, ndm: bool, sel: bool, hreset: bool)
    requires forall k: nat :: k < 6 || 26 <= k ==>
      (Flag(w, k) <==> (k == 0 && active) || (k == 1 && ndm) || (k == 26 && sel) || (k == 29 && hreset))
    ensures DecodeCtl(w) == Ctl(false, false, hreset, false, false, sel, HartselOf(w),
                                false, false, false, false, ndm, active)
  {
  }
}
