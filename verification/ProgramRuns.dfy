// What the programs of mk/dm_abstract_cmd_bits.py do when a RISC-V hart executes them:
// an instruction decoder, the effect of each instruction, and what a run of the
// generated program leaves for every command there is.

module ProgramRuns {
  import Bits
  import opened CommandPrograms

  // ---- Instructions, as the base ISA and Zicsr lay them out ----

  datatype Instr =
    | LoadInt(size: nat, rd: nat, base: nat, offset: nat)
    | StoreInt(size: nat, src: nat, base: nat, offset: nat)
    | LoadFp(size: nat, rd: nat, base: nat, offset: nat)
    | StoreFp(size: nat, src: nat, base: nat, offset: nat)
    | WriteCsr(csr: nat, src: nat)
    | ReadCsr(csr: nat, rd: nat)
    | PcPage(rd: nat)
    | ShiftRight(rd: nat, src: nat, count: nat)
    | ShiftLeft(rd: nat, src: nat, count: nat)
    | Nothing
    | Break
    | Undefined

  function Rd(w: bv64): bv64 { (w >> 7) & 0x1F }
  function Funct3(w: bv64): bv64 { (w >> 12) & 7 }
  function Rs1(w: bv64): bv64 { (w >> 15) & 0x1F }
  function Rs2(w: bv64): bv64 { (w >> 20) & 0x1F }
  function ImmI(w: bv64): bv64 { (w >> 20) & 0xFFF }
  function ImmS(w: bv64): bv64 { (((w >> 25) & 0x7F) << 5) | Rd(w) }

  /** The instruction of a 32-bit word, by opcode and funct3; only the forms the programs use have a meaning. */
  function Decode(w: bv64): Instr
  {
    var opcode, size, rd, rs1, rs2 := w & 0x7F, Funct3(w) as nat, Rd(w) as nat, Rs1(w) as nat, Rs2(w) as nat;
    if w == 0x0010_0073 then Break
    else if w == 0x0000_0013 then Nothing
    else if opcode == 0x03 then LoadInt(size, rd, rs1, ImmI(w) as nat)
    else if opcode == 0x23 then StoreInt(size, rs2, rs1, ImmS(w) as nat)
    else if opcode == 0x07 then LoadFp(size, rd, rs1, ImmI(w) as nat)
    else if opcode == 0x27 then StoreFp(size, rs2, rs1, ImmS(w) as nat)
    else if opcode == 0x73 && Funct3(w) == 1 && Rd(w) == 0 then WriteCsr(ImmI(w) as nat, rs1)
    else if opcode == 0x73 && Funct3(w) == 2 && Rs1(w) == 0 then ReadCsr(ImmI(w) as nat, rd)
    else if opcode == 0x17 && w >> 12 == 0 then PcPage(rd)
    else if opcode == 0x13 && Funct3(w) == 5 && w >> 26 == 0 then ShiftRight(rd, rs1, ImmI(w) as nat)
    else if opcode == 0x13 && Funct3(w) == 1 && w >> 26 == 0 then ShiftLeft(rd, rs1, ImmI(w) as nat)
    else Undefined
  }

  // ---- The hart ----

  const TWO64 := 0x1_0000_0000_0000_0000

  /** Registers by number, absent ones 0, and the data words of the Debug Module. */
  datatype Hart = Hart(x: map<nat, nat>, f: map<nat, nat>, csr: map<nat, nat>, data: nat)

  /** Where the program is, and what a sized access makes of a value; `fp` for a floating-point register. */
  datatype Machine = Machine(pc: nat, loaded: (bool, nat, nat) -> nat, stored: (bool, nat, nat, nat) -> nat)
  {
    /** The page the program and the data words share. */
    function Page(): nat { Shifted(Bits.Shr(pc + 4, 12), 12) }
  }

  function At(regs: map<nat, nat>, r: nat): nat { if r in regs then regs[r] else 0 }

  /** Integer register `r`: x0 is 0. */
  function X(h: Hart, r: nat): nat { if r == 0 then 0 else At(h.x, r) }

  /** `v << n` in a 64-bit register. */
  function Shifted(v: nat, n: nat): nat { Bits.Shl(v, n) % TWO64 }

  predicate Reaches(m: Machine, h: Hart, base: nat, offset: nat) { X(h, base) + offset == m.Page() + 0x380 }

  /** One instruction; None for an access that is not to the data words. */
  function Executed(m: Machine, h: Hart, i: Instr): Option<Hart>
  {
    match i
    case LoadInt(size, rd, base, offset) =>
      if Reaches(m, h, base, offset) then Some(h.(x := h.x[rd := m.loaded(false, size, h.data)])) else None
    case LoadFp(size, rd, base, offset) =>
      if Reaches(m, h, base, offset) then Some(h.(f := h.f[rd := m.loaded(true, size, h.data)])) else None
    case StoreInt(size, src, base, offset) =>
      if Reaches(m, h, base, offset) then Some(h.(data := m.stored(false, size, h.data, X(h, src)))) else None
    case StoreFp(size, src, base, offset) =>
      if Reaches(m, h, base, offset) then Some(h.(data := m.stored(true, size, h.data, At(h.f, src)))) else None
    case WriteCsr(csr, src) => Some(h.(csr := h.csr[csr := X(h, src)]))
    case ReadCsr(csr, rd) => Some(h.(x := h.x[rd := At(h.csr, csr)]))
    case PcPage(rd) => Some(h.(x := h.x[rd := m.pc + 4]))
    case ShiftRight(rd, src, n) => Some(h.(x := h.x[rd := Bits.Shr(X(h, src), n)]))
    case ShiftLeft(rd, src, n) => Some(h.(x := h.x[rd := Shifted(X(h, src), n)]))
    case _ => Some(h)
  }

  datatype Option<+T> = None | Some(value: T)

  /** How a run ends: at a breakpoint, in a fault, or past the last instruction, in the program buffer. */
  datatype End = Stopped(at: nat, h: Hart) | Faulted(at: nat, h: Hart) | Ran(h: Hart)

  function Run(m: Machine, h: Hart, code: seq<bv64>, at: nat): End
    decreases |code| - at
  {
    if at >= |code| then Ran(h)
    else
      match Decode(code[at])
      case Break => Stopped(at, h)
      case Undefined => Faulted(at, h)
      case i => if Executed(m, h, i).None? then Faulted(at, h) else Run(m, Executed(m, h, i).value, code, at + 1)
  }

  /** The instructions of the first five program words, low half first. */
  function Code(words: seq<bv64>): seq<bv64>
    requires |words| >= 5
  {
    [Lo(words[0]), Hi(words[0]), Lo(words[1]), Hi(words[1]), Lo(words[2]), Hi(words[2]), Lo(words[3]), Hi(words[3]),
     Lo(words[4]), Hi(words[4])]
  }

  // ---- Every encoder makes the instruction it is named for ----

  lemma LoadsDecode(sz: bv64, d: bv64, b: bv64, o: bv64)
    requires sz <= 7 && d <= 31 && b <= 31 && o <= 0xFFF
    ensures Decode(Load(sz, d, b, o)) == LoadInt(sz as nat, d as nat, b as nat, o as nat)
    ensures Decode(Fload(sz, d, b, o)) == LoadFp(sz as nat, d as nat, b as nat, o as nat)
  {
  }

  lemma StoresDecode(sz: bv64, s: bv64, b: bv64, o: bv64)
    requires sz <= 7 && s <= 31 && b <= 31 && o <= 0xFFF
    ensures Decode(Store(sz, s, b, o)) == StoreInt(sz as nat, s as nat, b as nat, o as nat)
    ensures Decode(Fstore(sz, s, b, o)) == StoreFp(sz as nat, s as nat, b as nat, o as nat)
  {
  }

  lemma CsrsDecode(c: bv64, r: bv64)
    requires c <= 0xFFF && r <= 31
    ensures Decode(Csrw(c, r)) == WriteCsr(c as nat, r as nat) && Decode(Csrr(c, r)) == ReadCsr(c as nat, r as nat)
  {
  }

  lemma FixedDecode()
    ensures Decode(Auipc(10)) == PcPage(10) && Decode(Srli(10, 10, 12)) == ShiftRight(10, 10, 12)
    ensures Decode(Slli(10, 10, 12)) == ShiftLeft(10, 10, 12)
    ensures Decode(EBREAK) == Break && Decode(NOP) == Nothing && Decode(ILLEGAL) == Undefined
  {
  }

  // ---- Running a program ----

  lemma CodeOfProgram(x: Shape)
    ensures var code := Code(Program(x));
            && |code| == 10 && code[0] == Entry(x) && code[1] == Auipc(10) && code[2] == Srli(10, 10, 12)
            && code[3] == Slli(10, 10, 12) && code[4] == First(x) && code[5] == Second(x) && code[6] == Third(x)
            && code[7] == Fourth(x) && code[8] == Csrr(DSCRATCH1, 10) && code[9] == Exit(x)
  {
    hide Pair, Lo, Hi, Auipc, Csrr, Csrw, Srli, Slli, Fits, Load, Store, Fload, Fstore, Entry, First, Second, Third, Fourth, Exit;
    HalvesFit(x);
    FixedPartsFit();
    ShiftsFit();
    PairParts(Entry(x), Auipc(10));
    PairParts(Srli(10, 10, 12), Slli(10, 10, 12));
    PairParts(First(x), Second(x));
    PairParts(Third(x), Fourth(x));
    PairParts(Csrr(DSCRATCH1, 10), Exit(x));
  }

  lemma ShiftsFit()
    ensures Fits(Srli(10, 10, 12)) && Fits(Slli(10, 10, 12))
  {
  }

  predicate Plain(i: Instr) { !i.Break? && !i.Undefined? }

  lemma Next(m: Machine, h: Hart, code: seq<bv64>, at: nat, i: Instr)
    requires at < |code| && Decode(code[at]) == i && Plain(i) && Executed(m, h, i).Some?
    ensures Run(m, h, code, at) == Run(m, Executed(m, h, i).value, code, at + 1)
  {
    hide Decode, Executed;
  }

  /** Four instructions in a row. */
  lemma Four(m: Machine, code: seq<bv64>, at: nat, h1: Hart, h2: Hart, h3: Hart, h4: Hart, h5: Hart)
    requires at + 4 <= |code|
    requires Plain(Decode(code[at])) && Plain(Decode(code[at + 1])) && Plain(Decode(code[at + 2])) && Plain(Decode(code[at + 3]))
    requires Executed(m, h1, Decode(code[at])) == Some(h2) && Executed(m, h2, Decode(code[at + 1])) == Some(h3)
    requires Executed(m, h3, Decode(code[at + 2])) == Some(h4) && Executed(m, h4, Decode(code[at + 3])) == Some(h5)
    ensures Run(m, h1, code, at) == Run(m, h5, code, at + 4)
  {
    hide Decode, Executed, Run;
    Next(m, h1, code, at, Decode(code[at]));
    Next(m, h2, code, at + 1, Decode(code[at + 1]));
    Next(m, h3, code, at + 2, Decode(code[at + 2]));
    Next(m, h4, code, at + 3, Decode(code[at + 3]));
  }

  /** The program has saved x10 and points it at its page. */
  function Entered(m: Machine, h: Hart): Hart
  {
    h.(csr := h.csr[0x7B3 := X(h, 10)], x := h.x[10 := m.Page()])
  }

  lemma PageSteps(m: Machine, h: Hart)
    ensures var h1 := h.(csr := h.csr[0x7B3 := X(h, 10)]);
            var h2 := h1.(x := h1.x[10 := m.pc + 4]);
            var h3 := h2.(x := h2.x[10 := Bits.Shr(m.pc + 4, 12)]);
            && Executed(m, h, WriteCsr(0x7B3, 10)) == Some(h1) && Executed(m, h1, PcPage(10)) == Some(h2)
            && Executed(m, h2, ShiftRight(10, 10, 12)) == Some(h3)
            && Executed(m, h3, ShiftLeft(10, 10, 12)) == Some(Entered(m, h))
  {
    hide Bits.Shr, Shifted;
    var h1 := h.(csr := h.csr[0x7B3 := X(h, 10)]);
    var h2 := h1.(x := h1.x[10 := m.pc + 4]);
    var h3 := h2.(x := h2.x[10 := Bits.Shr(m.pc + 4, 12)]);
    assert h3.x[10 := m.Page()] == h.x[10 := m.Page()];
  }

  lemma EntryDecodes(x: Shape)
    requires x.Moves() && !x.Foreign()
    ensures Decode(Entry(x)) == WriteCsr(0x7B3, 10)
  {
    hide Decode, Csrw;
    CsrsDecode(DSCRATCH1, 10);
  }

  /** The fixed instructions around a transfer, and the four between them. */
  lemma FrameDecodes(x: Shape)
    requires x.Moves() && !x.Foreign()
    ensures var code := Code(Program(x));
            && |code| == 10 && Decode(code[0]) == WriteCsr(0x7B3, 10) && Decode(code[1]) == PcPage(10)
            && Decode(code[2]) == ShiftRight(10, 10, 12) && Decode(code[3]) == ShiftLeft(10, 10, 12)
            && code[4] == First(x) && code[5] == Second(x) && code[6] == Third(x) && code[7] == Fourth(x)
            && Decode(code[8]) == ReadCsr(0x7B3, 10) && Decode(code[9]) == (if x.postexec then Nothing else Break)
  {
    hide Decode, Program, Auipc, Csrr, Csrw, Srli, Slli, First, Second, Third, Fourth, Entry, Exit, Code;
    CodeOfProgram(x);
    FixedDecode();
    EntryDecodes(x);
    CsrsDecode(DSCRATCH1, 10);
    ExitDecodes(x);
  }

  lemma Prologue(m: Machine, h: Hart, x: Shape)
    requires x.Moves() && !x.Foreign()
    ensures Run(m, h, Code(Program(x)), 0) == Run(m, Entered(m, h), Code(Program(x)), 4)
  {
    hide Decode, Run, Executed, Entered, Program, First, Second, Third, Fourth, Code, X, Bits.Shr, Shifted;
    FrameDecodes(x);
    PageSteps(m, h);
    var h1 := h.(csr := h.csr[0x7B3 := X(h, 10)]);
    var h2 := h1.(x := h1.x[10 := m.pc + 4]);
    var h3 := h2.(x := h2.x[10 := Bits.Shr(m.pc + 4, 12)]);
    Four(m, Code(Program(x)), 0, h, h1, h2, h3, Entered(m, h));
  }

  /** x10 comes back from dscratch1, and the program stops or goes on into the program buffer. */
  function Left(x: Shape, h: Hart): End
  {
    var h' := h.(x := h.x[10 := At(h.csr, 0x7B3)]);
    if x.postexec then Ran(h') else Stopped(9, h')
  }

  lemma Epilogue(m: Machine, h: Hart, x: Shape)
    requires x.Moves() && !x.Foreign()
    ensures Run(m, h, Code(Program(x)), 8) == Left(x, h)
  {
    hide Decode, Run, Program, First, Second, Third, Fourth, Code, Executed, At;
    var code := Code(Program(x));
    FrameDecodes(x);
    RestoreStep(m, h);
    Next(m, h, code, 8, ReadCsr(0x7B3, 10));
    LastRun(m, h.(x := h.x[10 := At(h.csr, 0x7B3)]), code);
  }

  lemma RestoreStep(m: Machine, h: Hart)
    ensures Executed(m, h, ReadCsr(0x7B3, 10)) == Some(h.(x := h.x[10 := At(h.csr, 0x7B3)]))
    ensures Executed(m, h, Nothing) == Some(h)
  {
  }

  lemma ExitDecodes(x: Shape)
    requires x.Moves() && !x.Foreign()
    ensures Decode(Exit(x)) == if x.postexec then Nothing else Break
  {
    hide Decode;
    FixedDecode();
  }

  lemma LastRun(m: Machine, h: Hart, code: seq<bv64>)
    requires |code| == 10 && (Decode(code[9]) == Nothing || Decode(code[9]) == Break)
    ensures Run(m, h, code, 9) == if Decode(code[9]) == Nothing then Ran(h) else Stopped(9, h)
  {
    hide Decode;
    if Decode(code[9]) == Nothing {
      RestoreStep(m, h);
      Next(m, h, code, 9, Nothing);
    }
  }

  /** The numbers of a shape. */
  function Size(x: Shape): nat { x.Size() as nat }
  function Number(x: Shape): nat { x.Low5() as nat }
  function CsrNumber(x: Shape): nat { x.Csr() as nat }

  /** The transfer of a register the program does not use itself: one instruction and three empty ones. */
  function Direct(x: Shape): Instr
  {
    if x.write then
      if x.Fpr() then LoadFp(Size(x), Number(x), 10, 0x380) else LoadInt(Size(x), Number(x), 10, 0x380)
    else
      if x.Fpr() then StoreFp(Size(x), Number(x), 10, 0x380) else StoreInt(Size(x), Number(x), 10, 0x380)
  }

  lemma FieldsSmall(x: Shape)
    ensures x.Size() <= 7 && x.Low5() <= 31 && x.Csr() <= 0xFFF
  {
  }

  lemma BaseIsTen(x: Shape)
    ensures x.IsBase() ==> Number(x) == 10
    ensures x.Gpr() && !x.Fpr() && !x.IsBase() ==> Number(x) != 10
  {
    var r := x.Low5();
    FieldsSmall(x);
    assert r == 10 ==> Number(x) == 10;
    if x.Gpr() && !x.Fpr() && !x.IsBase() {
      NotTen(x.Low5());
    }
  }

  lemma NotTen(r: bv64)
    requires r <= 31 && r != 10
    ensures r as nat != 10
  {
    if r < 10 {
      assert r <= 9;
      assert r as nat <= 9;
    } else {
      assert 11 <= r;
      assert 11 <= r as nat;
    }
  }

  lemma DirectDecodes(x: Shape)
    requires x.Moves() && !x.Foreign() && !ViaScratch(x)
    ensures Decode(First(x)) == Direct(x)
    ensures Second(x) == NOP && Third(x) == NOP && Fourth(x) == NOP
  {
    hide Decode, Load, Store, Fload, Fstore;
    FieldsSmall(x);
    LoadsDecode(x.Size(), x.Low5(), LOAD_BASE, DATA_ADDR);
    StoresDecode(x.Size(), x.Low5(), LOAD_BASE, DATA_ADDR);
  }

  lemma AtPage(m: Machine, h: Hart)
    ensures Reaches(m, Entered(m, h), 10, 0x380)
  {
  }

  lemma DirectReaches(m: Machine, h: Hart, x: Shape)
    ensures Executed(m, Entered(m, h), Direct(x)).Some? && Plain(Direct(x))
  {
    hide Reaches, Entered;
    AtPage(m, h);
  }

  lemma DirectRun(m: Machine, h: Hart, x: Shape)
    requires x.Moves() && !x.Foreign() && !ViaScratch(x)
    ensures Executed(m, Entered(m, h), Direct(x)).Some?
    ensures Run(m, h, Code(Program(x)), 0) == Left(x, Executed(m, Entered(m, h), Direct(x)).value)
  {
    hide Decode, Run, Program, First, Second, Third, Fourth, Code, Left, ViaScratch, Executed, Entered, Direct;
    FrameDecodes(x);
    FixedDecode();
    DirectDecodes(x);
    Prologue(m, h, x);
    DirectReaches(m, h, x);
    var h2 := Executed(m, Entered(m, h), Direct(x)).value;
    RestoreStep(m, h2);
    Four(m, Code(Program(x)), 4, Entered(m, h), h2, h2, h2, h2);
    Epilogue(m, h2, x);
  }

  /** The transfer of x10 or of a CSR, by way of s0: out of the way, there and back. */
  function Scratch(x: Shape): nat { if x.IsBase() then 0x7B3 else CsrNumber(x) }

  function Through(m: Machine, h: Hart, x: Shape): Hart
  {
    var saved := h.(csr := h.csr[0x7B2 := X(h, 8)]);
    if x.write then
      var v := m.loaded(false, Size(x), h.data);
      var csr := saved.csr[Scratch(x) := v];
      saved.(csr := csr, x := h.x[8 := At(csr, 0x7B2)])
    else
      saved.(data := m.stored(false, Size(x), h.data, At(saved.csr, Scratch(x))), x := h.x[8 := At(saved.csr, 0x7B2)])
  }

  lemma ThroughDecodes(x: Shape)
    requires ViaScratch(x)
    ensures Decode(First(x)) == WriteCsr(0x7B2, 8) && Decode(Fourth(x)) == ReadCsr(0x7B2, 8)
    ensures Decode(Second(x)) == if x.write then LoadInt(Size(x), 8, 10, 0x380) else ReadCsr(Scratch(x), 8)
    ensures Decode(Third(x)) == if x.write then WriteCsr(Scratch(x), 8) else StoreInt(Size(x), 8, 10, 0x380)
  {
    hide Decode, Load, Store, Fload, Fstore, Csrw, Csrr;
    FieldsSmall(x);
    LoadsDecode(x.Size(), 8, LOAD_BASE, DATA_ADDR);
    StoresDecode(x.Size(), 8, LOAD_BASE, DATA_ADDR);
    CsrsDecode(DSCRATCH0, 8);
    CsrsDecode(DSCRATCH1, 8);
    CsrsDecode(x.Csr(), 8);
  }

  lemma ThroughWrite(m: Machine, h: Hart, x: Shape)
    requires x.write
    ensures var h1, v := Entered(m, h), m.loaded(false, Size(x), h.data);
            var h2 := h1.(csr := h1.csr[0x7B2 := X(h1, 8)]);
            var h3 := h2.(x := h2.x[8 := v]);
            var h4 := h3.(csr := h3.csr[Scratch(x) := v]);
            && Executed(m, h1, WriteCsr(0x7B2, 8)) == Some(h2)
            && Executed(m, h2, LoadInt(Size(x), 8, 10, 0x380)) == Some(h3)
            && Executed(m, h3, WriteCsr(Scratch(x), 8)) == Some(h4)
            && Executed(m, h4, ReadCsr(0x7B2, 8)) == Some(Through(m, h1, x))
  {
    hide Scratch, Bits.Shr, Shifted;
    var h1, v := Entered(m, h), m.loaded(false, Size(x), h.data);
    var h2 := h1.(csr := h1.csr[0x7B2 := X(h1, 8)]);
    var h3 := h2.(x := h2.x[8 := v]);
    var h4 := h3.(csr := h3.csr[Scratch(x) := v]);
    assert h4.x[8 := At(h4.csr, 0x7B2)] == h1.x[8 := At(h4.csr, 0x7B2)];
  }

  lemma ThroughRead(m: Machine, h: Hart, x: Shape)
    requires !x.write
    ensures var h1 := Entered(m, h);
            var h2 := h1.(csr := h1.csr[0x7B2 := X(h1, 8)]);
            var h3 := h2.(x := h2.x[8 := At(h2.csr, Scratch(x))]);
            var h4 := h3.(data := m.stored(false, Size(x), h.data, At(h2.csr, Scratch(x))));
            && Executed(m, h1, WriteCsr(0x7B2, 8)) == Some(h2)
            && Executed(m, h2, ReadCsr(Scratch(x), 8)) == Some(h3)
            && Executed(m, h3, StoreInt(Size(x), 8, 10, 0x380)) == Some(h4)
            && Executed(m, h4, ReadCsr(0x7B2, 8)) == Some(Through(m, h1, x))
  {
    hide Scratch, Bits.Shr, Shifted;
    var h1 := Entered(m, h);
    var h2 := h1.(csr := h1.csr[0x7B2 := X(h1, 8)]);
    var h3 := h2.(x := h2.x[8 := At(h2.csr, Scratch(x))]);
    var h4 := h3.(data := m.stored(false, Size(x), h.data, At(h2.csr, Scratch(x))));
    assert h4.x[8 := At(h4.csr, 0x7B2)] == h1.x[8 := At(h4.csr, 0x7B2)];
  }

  lemma MiddleDecodes(x: Shape)
    requires ViaScratch(x)
    ensures var code := Code(Program(x));
            && |code| == 10 && Decode(code[4]) == WriteCsr(0x7B2, 8) && Decode(code[7]) == ReadCsr(0x7B2, 8)
            && Decode(code[5]) == (if x.write then LoadInt(Size(x), 8, 10, 0x380) else ReadCsr(Scratch(x), 8))
            && Decode(code[6]) == (if x.write then WriteCsr(Scratch(x), 8) else StoreInt(Size(x), 8, 10, 0x380))
  {
    hide Decode, Program, First, Second, Third, Fourth, Code, Scratch, Size;
    FrameDecodes(x);
    ThroughDecodes(x);
  }

  lemma ThroughWriteRun(m: Machine, h: Hart, x: Shape)
    requires ViaScratch(x) && x.write
    ensures Run(m, Entered(m, h), Code(Program(x)), 4) == Run(m, Through(m, Entered(m, h), x), Code(Program(x)), 8)
  {
    hide Decode, Run, Program, Code, Scratch, Through, Executed, Entered, X, At, Size, ViaScratch;
    var h1 := Entered(m, h);
    MiddleDecodes(x);
    var h2 := h1.(csr := h1.csr[0x7B2 := X(h1, 8)]);
    var v := m.loaded(false, Size(x), h.data);
    var h3 := h2.(x := h2.x[8 := v]);
    ThroughWrite(m, h, x);
    Four(m, Code(Program(x)), 4, h1, h2, h3, h3.(csr := h3.csr[Scratch(x) := v]), Through(m, h1, x));
  }

  lemma ThroughReadRun(m: Machine, h: Hart, x: Shape)
    requires ViaScratch(x) && !x.write
    ensures Run(m, Entered(m, h), Code(Program(x)), 4) == Run(m, Through(m, Entered(m, h), x), Code(Program(x)), 8)
  {
    hide Decode, Run, Program, Code, Scratch, Through, Executed, Entered, X, At, Size, ViaScratch;
    var h1 := Entered(m, h);
    MiddleDecodes(x);
    var h2 := h1.(csr := h1.csr[0x7B2 := X(h1, 8)]);
    var h3 := h2.(x := h2.x[8 := At(h2.csr, Scratch(x))]);
    var h4 := h3.(data := m.stored(false, Size(x), h.data, At(h2.csr, Scratch(x))));
    ThroughRead(m, h, x);
    Four(m, Code(Program(x)), 4, h1, h2, h3, h4, Through(m, h1, x));
  }

  lemma ThroughRun(m: Machine, h: Hart, x: Shape)
    requires ViaScratch(x)
    ensures Run(m, h, Code(Program(x)), 0) == Left(x, Through(m, Entered(m, h), x))
  {
    hide Run, Program, Code, Left, Through, Entered;
    Prologue(m, h, x);
    if x.write {
      ThroughWriteRun(m, h, x);
    } else {
      ThroughReadRun(m, h, x);
    }
    Epilogue(m, Through(m, Entered(m, h), x), x);
  }

  // ---- What each command comes to ----

  /** The run is over where the command says: at the last breakpoint, or in the program buffer. */
  predicate Finished(x: Shape, e: End) { if x.postexec then e.Ran? else e.Stopped? && e.at == 9 }

  /** Every CSR but the two the program uses as scratch is as it was, and `csr`, which may have changed. */
  ghost predicate CsrsKept(h: Hart, h': Hart, csr: nat)
  {
    forall c: nat :: c != 0x7B2 && c != 0x7B3 && c != csr ==> At(h'.csr, c) == At(h.csr, c)
  }

  lemma FinishedLeft(x: Shape, h: Hart)
    ensures Finished(x, Left(x, h)) && Left(x, h).h == Restored(h)
  {
  }

  /** What a command on an integer register comes to, x10 and s0 included: a write loads it from the data
      words, a read stores it there, and no other register of the hart changes. */
  ghost predicate IntegerMoved(m: Machine, x: Shape, h: Hart, h': Hart)
  {
    && h'.f == h.f && CsrsKept(h, h', 0x7B2)
    && h'.data == (if x.write then h.data else m.stored(false, Size(x), h.data, X(h, Number(x))))
    && forall r: nat :: X(h', r) ==
         if x.write && r == Number(x) && r != 0 then m.loaded(false, Size(x), h.data) else X(h, r)
  }

  /** The hart with x10 restored. */
  function Restored(h: Hart): Hart { h.(x := h.x[10 := At(h.csr, 0x7B3)]) }

  lemma BaseMoved(m: Machine, h: Hart, x: Shape)
    requires x.IsBase() && Number(x) == 10
    ensures IntegerMoved(m, x, h, Restored(Through(m, Entered(m, h), x)))
  {
    hide Bits.Shr, Shifted;
  }

  lemma DirectMoved(m: Machine, h: Hart, x: Shape)
    requires !x.Fpr() && Number(x) != 10 && Executed(m, Entered(m, h), Direct(x)).Some?
    ensures IntegerMoved(m, x, h, Restored(Executed(m, Entered(m, h), Direct(x)).value))
  {
    hide Bits.Shr, Shifted, Reaches;
  }

  lemma MovesInteger(m: Machine, h: Hart, x: Shape)
    requires x.Moves() && !x.Foreign() && x.Gpr() && !x.Fpr()
    ensures var e := Run(m, h, Code(Program(x)), 0); Finished(x, e) && IntegerMoved(m, x, h, e.h)
  {
    hide Run, Program, Code, Left, Finished, Through, Executed, Entered, IntegerMoved;
    BaseIsTen(x);
    if x.IsBase() {
      ThroughRun(m, h, x);
      BaseMoved(m, h, x);
      FinishedLeft(x, Through(m, Entered(m, h), x));
    } else {
      DirectRun(m, h, x);
      DirectMoved(m, h, x);
      FinishedLeft(x, Executed(m, Entered(m, h), Direct(x)).value);
    }
  }

  /** A floating-point register. */
  lemma MovesFloat(m: Machine, h: Hart, x: Shape)
    requires x.Moves() && !x.Foreign() && x.Gpr() && x.Fpr()
    ensures var e := Run(m, h, Code(Program(x)), 0);
            && Finished(x, e) && CsrsKept(h, e.h, 0x7B2)
            && (x.write ==> e.h.data == h.data)
            && (!x.write ==> e.h.data == m.stored(true, Size(x), h.data, At(h.f, Number(x))) && e.h.f == h.f)
            && (forall r: nat :: X(e.h, r) == X(h, r))
            && forall r: nat :: At(e.h.f, r) == if x.write && r == Number(x) then m.loaded(true, Size(x), h.data) else At(h.f, r)
  {
    hide Run, Program, Code, Left, Finished, Bits.Shr, Shifted;
    DirectRun(m, h, x);
    FinishedLeft(x, Executed(m, Entered(m, h), Direct(x)).value);
  }

  /** What a command on a CSR other than the two scratch registers comes to. */
  ghost predicate CsrMoved(m: Machine, x: Shape, h: Hart, h': Hart)
  {
    && h'.f == h.f && CsrsKept(h, h', CsrNumber(x)) && (forall r: nat :: X(h', r) == X(h, r))
    && h'.data == (if x.write then h.data else m.stored(false, Size(x), h.data, At(h.csr, CsrNumber(x))))
    && At(h'.csr, CsrNumber(x)) == (if x.write then m.loaded(false, Size(x), h.data) else At(h.csr, CsrNumber(x)))
  }

  lemma CsrWritten(m: Machine, h: Hart, x: Shape)
    requires x.write && !x.IsBase() && CsrNumber(x) != 0x7B2 && CsrNumber(x) != 0x7B3
    ensures CsrMoved(m, x, h, Restored(Through(m, Entered(m, h), x)))
  {
    hide Bits.Shr, Shifted, CsrNumber;
  }

  lemma CsrRead(m: Machine, h: Hart, x: Shape)
    requires !x.write && !x.IsBase() && CsrNumber(x) != 0x7B2 && CsrNumber(x) != 0x7B3
    ensures CsrMoved(m, x, h, Restored(Through(m, Entered(m, h), x)))
  {
    hide Bits.Shr, Shifted, CsrNumber;
  }

  lemma MovesCsr(m: Machine, h: Hart, x: Shape)
    requires x.Moves() && !x.Foreign() && !x.Gpr() && CsrNumber(x) != 0x7B2 && CsrNumber(x) != 0x7B3
    ensures var e := Run(m, h, Code(Program(x)), 0); Finished(x, e) && CsrMoved(m, x, h, e.h)
  {
    hide Run, Program, Code, Left, Finished, Through, Entered, CsrMoved, CsrNumber;
    ThroughRun(m, h, x);
    if x.write {
      CsrWritten(m, h, x);
    } else {
      CsrRead(m, h, x);
    }
    FinishedLeft(x, Through(m, Entered(m, h), x));
  }

  /** The two scratch registers cannot be reached: a read returns s0 or x10, and a write overwrites it. */
  lemma ScratchMisses(m: Machine, h: Hart, x: Shape)
    requires x.Moves() && !x.Foreign() && !x.Gpr() && (CsrNumber(x) == 0x7B2 || CsrNumber(x) == 0x7B3)
    ensures var e, r := Run(m, h, Code(Program(x)), 0), if CsrNumber(x) == 0x7B2 then 8 else 10;
            && Finished(x, e)
            && (x.write ==> X(e.h, r) == m.loaded(false, Size(x), h.data))
            && (!x.write ==> e.h.data == m.stored(false, Size(x), h.data, X(h, r)))
  {
    hide Run, Program, Code, Left, Finished, Bits.Shr, Shifted;
    ThroughRun(m, h, x);
    FinishedLeft(x, Through(m, Entered(m, h), x));
  }

  /** A command the Debug Module does not support stops at its first instruction, and one that moves
      nothing faults there: the hart is as it was. */
  lemma RefusedOrEmpty(m: Machine, h: Hart, x: Shape)
    requires !x.Moves() || x.Foreign()
    ensures Run(m, h, Code(Program(x)), 0) ==
            if x.cmdtype != 0 || (x.size < 4 && x.transfer) || x.size >= 4 || x.postinc then Stopped(0, h) else Faulted(0, h)
  {
    hide Decode, Program, Auipc, Csrr, Csrw, Srli, Slli, First, Second, Third, Fourth, Exit, Code;
    CodeOfProgram(x);
    FixedDecode();
  }

  /** Also what is never executed: the four middle instructions of a command that moves nothing are
      empty, and the last one goes on into the program buffer exactly for a supported register access
      with postexec. */
  lemma UnusedSlots(x: Shape)
    ensures var code := Code(Program(x));
            && (!x.Moves() || x.Foreign() ==>
                  Decode(code[4]) == Decode(code[5]) == Decode(code[6]) == Decode(code[7]) == Nothing)
            && Decode(code[9]) ==
                 if x.cmdtype == 0 && x.postexec && x.size < 4 && (if x.transfer then !x.Foreign() else !x.postinc)
                 then Nothing else Break
  {
    hide Decode, Program, Auipc, Csrr, Csrw, Srli, Slli, Load, Store, Fload, Fstore, Entry, Code;
    CodeOfProgram(x);
    FixedDecode();
  }
}
