// mk/dm_abstract_cmd_bits.py: the programs the Debug Module generates for abstract
// commands, patched together from encoded instructions.

module CommandPrograms {

  // ---- Instruction encoders ----

  function Load(sz: bv64, d: bv64, b: bv64, o: bv64): bv64 { (o << 20) | (b << 15) | (sz << 12) | (d << 7) | 0x03 }

  function Store(sz: bv64, s: bv64, b: bv64, o: bv64): bv64
  {
    ((o >> 5) << 25) | (s << 20) | (b << 15) | (sz << 12) | ((o & 0x1F) << 7) | 0x23
  }

  function Fload(sz: bv64, d: bv64, b: bv64, o: bv64): bv64 { (o << 20) | (b << 15) | (sz << 12) | (d << 7) | 0x07 }

  function Fstore(sz: bv64, s: bv64, b: bv64, o: bv64): bv64
  {
    ((o >> 5) << 25) | (s << 20) | (b << 15) | (sz << 12) | ((o & 0x1F) << 7) | 0x27
  }

  function Csrw(c: bv64, r: bv64): bv64 { (c << 20) | (r << 15) | (1 << 12) | 0x73 }

  function Csrr(c: bv64, d: bv64): bv64 { (c << 20) | (2 << 12) | (d << 7) | 0x73 }

  function Auipc(rd: bv64): bv64 { (rd << 7) | 0x17 }

  function Srli(rd: bv64, rs: bv64, sh: bv64): bv64 { (sh << 20) | (rs << 15) | (5 << 12) | (rd << 7) | 0x13 }

  function Slli(rd: bv64, rs: bv64, sh: bv64): bv64 { (sh << 20) | (rs << 15) | (1 << 12) | (rd << 7) | 0x13 }

  const EBREAK: bv64 := 0x0010_0073
  const NOP: bv64 := 0x13
  const ILLEGAL: bv64 := 0
  const DSCRATCH0: bv64 := 0x7B2
  const DSCRATCH1: bv64 := 0x7B3
  const LOAD_BASE: bv64 := 10
  const DATA_ADDR: bv64 := 0x380

  function Pair(lo: bv64, hi: bv64): bv64 { (hi << 32) | lo }

  function Lo(v: bv64): bv64 { v & 0xFFFF_FFFF }

  function Hi(v: bv64): bv64 { v >> 32 }

  // ---- The generator ----

  /** Everything a program depends on; the types are the widths of the fields. */
  datatype Shape = Shape(cmdtype: bv8, size: bv3, transfer: bool, write: bool, postexec: bool, postinc: bool, regno: bv16)
  {
    function Size(): bv64 { size as bv64 }
    predicate Foreign() { regno >> 14 != 0 }
    predicate Gpr() { (regno >> 12) & 1 == 1 }
    predicate Fpr() { (regno >> 5) & 1 == 1 }
    function Low5(): bv64 { (regno & 0x1F) as bv64 }
    function Csr(): bv64 { (regno & 0xFFF) as bv64 }
    /** x10, which the program itself uses as the base of its loads. */
    predicate IsBase() { Gpr() && !Fpr() && regno & 0x1F == 10 }
    predicate Moves() { cmdtype == 0 && size < 4 && transfer }
    predicate Unsupported() { if size < 4 && transfer then Foreign() else size >= 4 || postinc }
  }

  /** The word halves a command decides; the rest of the program is fixed. */
  function Entry(x: Shape): bv64
  {
    if x.cmdtype != 0 || x.Unsupported() then EBREAK
    else if x.Moves() then Csrw(DSCRATCH1, 10)
    else ILLEGAL
  }

  /** First instruction of the transfer: straight through the register, or by way of s0. */
  function First(x: Shape): bv64
  {
    if !x.Moves() || x.Foreign() then NOP
    else if x.IsBase() || !x.Gpr() then Csrw(DSCRATCH0, 8)
    else if x.write then
      if x.Fpr() then Fload(x.Size(), x.Low5(), LOAD_BASE, DATA_ADDR) else Load(x.Size(), x.Low5(), LOAD_BASE, DATA_ADDR)
    else
      if x.Fpr() then Fstore(x.Size(), x.Low5(), LOAD_BASE, DATA_ADDR) else Store(x.Size(), x.Low5(), LOAD_BASE, DATA_ADDR)
  }

  predicate ViaScratch(x: Shape) { x.Moves() && !x.Foreign() && (x.IsBase() || !x.Gpr()) }

  function Second(x: Shape): bv64
  {
    if !ViaScratch(x) then NOP
    else if x.write then Load(x.Size(), 8, LOAD_BASE, DATA_ADDR)
    else Csrr(if x.IsBase() then DSCRATCH1 else x.Csr(), 8)
  }

  function Third(x: Shape): bv64
  {
    if !ViaScratch(x) then NOP
    else if x.write then Csrw(if x.IsBase() then DSCRATCH1 else x.Csr(), 8)
    else Store(x.Size(), 8, LOAD_BASE, DATA_ADDR)
  }

  function Fourth(x: Shape): bv64 { if ViaScratch(x) then Csrr(DSCRATCH0, 8) else NOP }

  function Exit(x: Shape): bv64
  {
    if x.cmdtype == 0 && x.postexec && !x.Unsupported() then NOP else EBREAK
  }

  /** The six halves that vary, in place. */
  datatype Halves = Halves(entry: bv64, first: bv64, second: bv64, third: bv64, fourth: bv64, exit: bv64)
  {
    predicate Fit()
    {
      Fits(entry) && Fits(first) && Fits(second) && Fits(third) && Fits(fourth) && Fits(exit)
    }
  }

  predicate Fits(v: bv64) { v <= 0xFFFF_FFFF }

  function Words(h: Halves): (s: seq<bv64>)
    ensures |s| == 8
  {
    [Pair(h.entry, Auipc(10)), Pair(Srli(10, 10, 12), Slli(10, 10, 12)), Pair(h.first, h.second),
     Pair(h.third, h.fourth), Pair(Csrr(DSCRATCH1, 10), h.exit), 0, 0, 0]
  }

  function HalvesOf(x: Shape): Halves { Halves(Entry(x), First(x), Second(x), Third(x), Fourth(x), Exit(x)) }

  function Program(x: Shape): (s: seq<bv64>)
    ensures |s| == 8
  {
    Words(HalvesOf(x))
  }

  function SetLo(s: seq<bv64>, i: nat, v: bv64): (t: seq<bv64>)
    requires i < |s|
    ensures |t| == |s|
  {
    s[i := Pair(v, Hi(s[i]))]
  }

  function SetHi(s: seq<bv64>, i: nat, v: bv64): (t: seq<bv64>)
    requires i < |s|
    ensures |t| == |s|
  {
    s[i := Pair(Lo(s[i]), v)]
  }

  lemma PairParts(lo: bv64, hi: bv64)
    requires Fits(lo) && Fits(hi)
    ensures Lo(Pair(lo, hi)) == lo && Hi(Pair(lo, hi)) == hi
  {
  }

  lemma FixedPartsFit()
    ensures Fits(Auipc(10)) && Fits(Csrr(DSCRATCH1, 10)) && Fits(EBREAK) && Fits(NOP) && Fits(ILLEGAL)
    ensures Fits(Csrw(DSCRATCH0, 8)) && Fits(Csrw(DSCRATCH1, 8)) && Fits(Csrr(DSCRATCH0, 8)) && Fits(Csrr(DSCRATCH1, 8))
    ensures Fits(Csrw(DSCRATCH1, 10)) && Fits(Csrw(DSCRATCH1, LOAD_BASE))
  {
  }

  lemma EncodersFit(x: Shape)
    ensures Fits(Load(x.Size(), 8, LOAD_BASE, DATA_ADDR)) && Fits(Store(x.Size(), 8, LOAD_BASE, DATA_ADDR))
    ensures Fits(Load(x.Size(), x.Low5(), LOAD_BASE, DATA_ADDR)) && Fits(Store(x.Size(), x.Low5(), LOAD_BASE, DATA_ADDR))
    ensures Fits(Fload(x.Size(), x.Low5(), LOAD_BASE, DATA_ADDR)) && Fits(Fstore(x.Size(), x.Low5(), LOAD_BASE, DATA_ADDR))
    ensures Fits(Csrw(x.Csr(), 8)) && Fits(Csrr(x.Csr(), 8))
  {
  }

  // Patching one half of a program changes that half.

  lemma PatchEntry(h: Halves, v: bv64)
    requires h.Fit()
    ensures SetLo(Words(h), 0, v) == Words(h.(entry := v))
  {
    hide Pair, Lo, Hi, Auipc, Csrr, Srli, Slli, Fits;
    FixedPartsFit();
    PairParts(h.entry, Auipc(10));
  }

  lemma PatchFirst(h: Halves, v: bv64)
    requires h.Fit()
    ensures SetLo(Words(h), 2, v) == Words(h.(first := v))
  {
    hide Pair, Lo, Hi, Auipc, Csrr, Srli, Slli, Fits;
    PairParts(h.first, h.second);
  }

  lemma PatchSecond(h: Halves, v: bv64)
    requires h.Fit()
    ensures SetHi(Words(h), 2, v) == Words(h.(second := v))
  {
    hide Pair, Lo, Hi, Auipc, Csrr, Srli, Slli, Fits;
    PairParts(h.first, h.second);
  }

  lemma PatchThird(h: Halves, v: bv64)
    requires h.Fit()
    ensures SetLo(Words(h), 3, v) == Words(h.(third := v))
  {
    hide Pair, Lo, Hi, Auipc, Csrr, Srli, Slli, Fits;
    PairParts(h.third, h.fourth);
  }

  lemma PatchFourth(h: Halves, v: bv64)
    requires h.Fit()
    ensures SetHi(Words(h), 3, v) == Words(h.(fourth := v))
  {
    hide Pair, Lo, Hi, Auipc, Csrr, Srli, Slli, Fits;
    PairParts(h.third, h.fourth);
  }

  lemma PatchExit(h: Halves, v: bv64)
    requires h.Fit()
    ensures SetHi(Words(h), 4, v) == Words(h.(exit := v))
  {
    hide Pair, Lo, Hi, Auipc, Csrr, Srli, Slli, Fits;
    FixedPartsFit();
    PairParts(Csrr(DSCRATCH1, 10), h.exit);
  }

  const START := Halves(ILLEGAL, NOP, NOP, NOP, NOP, EBREAK)

  /** A transfer through the scratch register: x10 and the CSRs. */
  method PatchViaScratch(x: Shape, s0: seq<bv64>) returns (s: seq<bv64>)
    requires x.cmdtype == 0 && ViaScratch(x) && s0 == Words(START.(entry := Csrw(DSCRATCH1, 10)))
    ensures s == Words(HalvesOf(x).(exit := EBREAK))
  {
    hide Pair, Lo, Hi, Auipc, Csrr, Csrw, Srli, Slli, Fits, Load, Store, Fload, Fstore, Words, SetLo, SetHi;
    FixedPartsFit();
    EncodersFit(x);
    ghost var h := START.(entry := Csrw(DSCRATCH1, 10));
    var csr := if x.IsBase() then DSCRATCH1 else x.Csr();
    PatchFirst(h, Csrw(DSCRATCH0, 8));
    s := SetLo(s0, 2, Csrw(DSCRATCH0, 8));
    h := h.(first := Csrw(DSCRATCH0, 8));
    var second := if x.write then Load(x.Size(), 8, LOAD_BASE, DATA_ADDR) else Csrr(csr, 8);
    PatchSecond(h, second);
    s := SetHi(s, 2, second);
    h := h.(second := second);
    var third := if x.write then Csrw(csr, 8) else Store(x.Size(), 8, LOAD_BASE, DATA_ADDR);
    PatchThird(h, third);
    s := SetLo(s, 3, third);
    h := h.(third := third);
    PatchFourth(h, Csrr(DSCRATCH0, 8));
    s := SetHi(s, 3, Csrr(DSCRATCH0, 8));
  }

  /** A transfer in one instruction: the other registers. */
  method PatchDirect(x: Shape, s0: seq<bv64>) returns (s: seq<bv64>)
    requires x.Moves() && !x.Foreign() && !ViaScratch(x) && s0 == Words(START.(entry := Csrw(DSCRATCH1, 10)))
    ensures s == Words(HalvesOf(x).(exit := EBREAK))
  {
    hide Pair, Lo, Hi, Auipc, Csrr, Csrw, Srli, Slli, Fits, Load, Store, Fload, Fstore, Words, SetLo, SetHi;
    FixedPartsFit();
    var first := if x.write then
        if x.Fpr() then Fload(x.Size(), x.Low5(), LOAD_BASE, DATA_ADDR) else Load(x.Size(), x.Low5(), LOAD_BASE, DATA_ADDR)
      else
        if x.Fpr() then Fstore(x.Size(), x.Low5(), LOAD_BASE, DATA_ADDR) else Store(x.Size(), x.Low5(), LOAD_BASE, DATA_ADDR);
    PatchFirst(START.(entry := Csrw(DSCRATCH1, 10)), first);
    s := SetLo(s0, 2, first);
  }

  /** A register transfer; a custom register ends it before it starts. */
  method PatchTransfer(x: Shape, s0: seq<bv64>) returns (s: seq<bv64>, unsupported: bool)
    requires x.cmdtype == 0 && x.size < 4 && x.transfer && s0 == Words(START)
    ensures s == Words(HalvesOf(x).(exit := EBREAK)) && unsupported == x.Foreign()
  {
    hide Pair, Lo, Hi, Auipc, Csrr, Csrw, Srli, Slli, Fits, SetLo, SetHi, Words, Load, Store, Fload, Fstore;
    FixedPartsFit();
    ghost var h := START;
    PatchEntry(h, Csrw(DSCRATCH1, 10));
    s := SetLo(s0, 0, Csrw(DSCRATCH1, 10));
    h := h.(entry := Csrw(DSCRATCH1, 10));
    unsupported := x.Foreign();
    if unsupported {
      PatchEntry(h, EBREAK);
      s := SetLo(s, 0, EBREAK);
    } else if x.IsBase() || !x.Gpr() {
      s := PatchViaScratch(x, s);
    } else {
      s := PatchDirect(x, s);
    }
  }

  /** gen: the eight program words, patched half by half. */
  method Gen(x: Shape) returns (s: seq<bv64>)
    ensures s == Program(x)
  {
    hide Pair, Lo, Hi, Auipc, Csrr, Csrw, Srli, Slli, Fits, SetLo, SetHi, Words, Load, Store, Fload, Fstore;
    FixedPartsFit();
    s := [0, 0, 0, 0, 0, 0, 0, 0];
    s := s[0 := Pair(ILLEGAL, Auipc(10))][1 := Pair(Srli(10, 10, 12), Slli(10, 10, 12))];
    s := s[2 := Pair(NOP, NOP)][3 := Pair(NOP, NOP)][4 := Pair(Csrr(DSCRATCH1, 10), EBREAK)];
    StartWords(s);
    ghost var h := START;
    var unsupported := false;
    PatchEntry(h, EBREAK);
    if x.cmdtype == 0 {
      if x.size < 4 && x.transfer {
        s, unsupported := PatchTransfer(x, s);
        h := HalvesOf(x).(exit := EBREAK);
      } else if x.size >= 4 || x.postinc {
        s := SetLo(s, 0, EBREAK);
        h := h.(entry := EBREAK);
        unsupported := true;
      }
      if x.postexec && !unsupported {
        HalvesFit(x);
        PatchExit(h, NOP);
        s := SetHi(s, 4, NOP);
      }
    } else {
      s := SetLo(s, 0, EBREAK);
    }
  }

  lemma StartWords(s: seq<bv64>)
    requires s == [Pair(ILLEGAL, Auipc(10)), Pair(Srli(10, 10, 12), Slli(10, 10, 12)), Pair(NOP, NOP), Pair(NOP, NOP),
                   Pair(Csrr(DSCRATCH1, 10), EBREAK), 0, 0, 0]
    ensures s == Words(START) && START.Fit()
  {
    FixedPartsFit();
  }

  lemma HalvesFit(x: Shape)
    ensures HalvesOf(x).Fit()
  {
    hide Csrr, Csrw, Fits, Load, Store, Fload, Fstore;
    FixedPartsFit();
    EncodersFit(x);
  }
}
