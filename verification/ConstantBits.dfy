// mk/dm_abstract_cmd_bits.py: enumerating a sample of register numbers finds exactly
// the program bits that no command shape at all can change.

module ConstantBits {
  import opened CommandPrograms
  import opened Masks

  // ---- Which bits are constant ----

  /** Word `i` of a shape's program. */
  function Word(x: Shape, i: nat): bv64
    requires i < 8
  {
    Program(x)[i]
  }

  /** Bit `b` of slot `i` is the same in the programs of every command shape there is. */
  ghost predicate ConstantEverywhere(i: nat, b: Position)
    requires i < 8
  {
    forall x: Shape :: BitAt(Word(x, i), b) == BitAt(Word(BASE, i), b)
  }

  const BASE := Shape(0, 0, false, false, false, false, 0)

  function OneBit(): set<bv16>
  {
    {0x1, 0x2, 0x4, 0x8, 0x10, 0x20, 0x40, 0x80, 0x100, 0x200, 0x400, 0x800, 0x1000, 0x2000, 0x4000, 0x8000}
  }

  function Low5s(): set<bv16>
  {
    {0, 1, 2, 3, 4, 5, 6, 7, 8, 9, 10, 11, 12, 13, 14, 15, 16, 17, 18, 19, 20, 21, 22, 23, 24, 25, 26, 27, 28, 29, 30, 31}
  }

  function RegnoOf(top: bv16, b12: bv16, b5: bv16, low5: bv16, mid: bv16): bv16
  {
    (top << 14) | (b12 << 12) | (b5 << 5) | low5 | (mid & 0xFFDF & 0xFC0)
  }

  /** The register numbers enumerated: one pattern per class, and the single bits. */
  function SampledRegnos(): set<bv16>
  {
    (set top: bv16, b12: bv16, b5: bv16, low5: bv16, mid: bv16 |
       top in {0, 1, 2, 3} && b12 in {0, 1} && b5 in {0, 1} && low5 in Low5s() && mid in {0, 0x7C0, 0x1C0, 0x440} ::
       RegnoOf(top, b12, b5, low5, mid))
    + OneBit() + {0xFFF, 0x0}
  }

  function Sizes(): set<bv3> { {0, 1, 2, 3, 4, 5, 6, 7} }

  function Flags(): set<bool> { {false, true} }

  /** programs(): the sampled shapes. */
  function Sampled(): set<Shape>
  {
    set cmdtype: bv8, size: bv3, transfer: bool, write: bool, postexec: bool, postinc: bool, regno: bv16 |
      cmdtype in {0, 1} && size in Sizes() && transfer in Flags() && write in Flags() && postexec in Flags() && postinc in Flags()
      && regno in SampledRegnos() :: Shape(cmdtype, size, transfer, write, postexec, postinc, regno)
  }

  // The bits of each slot that some shape does change, and four shapes that between them change all of them.

  function Varying(i: nat): bv64
  {
    if i == 0 then 0x0000_0000_7B35_1073
    else if i == 2 then 0xFFF5_3470_7BF5_3FF4
    else if i == 3 then 0x7B20_2460_FFF5_3070
    else if i == 4 then 0x0010_0060_0000_0000
    else 0
  }

  const READ_CSR := Shape(0, 3, true, false, true, false, 0xFFF)
  const WRITE_CSR := Shape(0, 1, true, true, false, false, 0xFFF)
  const WRITE_FPR := Shape(0, 2, true, true, false, false, 0x103F)
  const READ_GPR := Shape(0, 0, true, false, false, false, 0x100D)

  lemma EntryWithin(x: Shape)
    ensures AgreeOutside(Pair(Entry(x), Auipc(10)), Pair(Entry(BASE), Auipc(10)), Varying(0))
  {
  }

  lemma FirstWithin(x: Shape)
    ensures AgreeOutside(First(x), NOP, 0x7BF5_3FF4)
  {
  }

  lemma SecondWithin(x: Shape)
    ensures AgreeOutside(Second(x), NOP, 0xFFF5_3470)
  {
  }

  lemma ThirdWithin(x: Shape)
    ensures AgreeOutside(Third(x), NOP, 0xFFF5_3070)
  {
  }

  lemma ExitWithin(x: Shape)
    ensures AgreeOutside(Pair(Csrr(DSCRATCH1, 10), Exit(x)), Pair(Csrr(DSCRATCH1, 10), Exit(BASE)), Varying(4))
  {
  }

  lemma FourthWithin(x: Shape)
    ensures AgreeOutside(Fourth(x), NOP, 0x7B20_2460)
  {
  }

  lemma PairWithin(a: bv64, b: bv64, c: bv64, d: bv64, m: bv64, n: bv64, both: bv64)
    requires AgreeOutside(a, c, m) && AgreeOutside(b, d, n) && both == (n << 32) | m
    ensures AgreeOutside(Pair(a, b), Pair(c, d), both)
  {
  }

  lemma BaseHalves()
    ensures First(BASE) == NOP && Second(BASE) == NOP && Third(BASE) == NOP && Fourth(BASE) == NOP
  {
  }

  lemma WordsAt(h: Halves)
    ensures Words(h)[0] == Pair(h.entry, Auipc(10)) && Words(h)[2] == Pair(h.first, h.second)
    ensures Words(h)[3] == Pair(h.third, h.fourth) && Words(h)[4] == Pair(Csrr(DSCRATCH1, 10), h.exit)
  {
    hide Auipc, Csrr, Srli, Slli, Pair;
  }

  lemma FixedWords(h: Halves, k: Halves, i: nat)
    requires i < 8 && i != 0 && i != 2 && i != 3 && i != 4
    ensures Words(h)[i] == Words(k)[i]
  {
    hide Auipc, Csrr, Srli, Slli, Pair;
  }

  lemma Slots(x: Shape)
    ensures Word(x, 0) == Pair(Entry(x), Auipc(10)) && Word(x, 2) == Pair(First(x), Second(x))
    ensures Word(x, 3) == Pair(Third(x), Fourth(x)) && Word(x, 4) == Pair(Csrr(DSCRATCH1, 10), Exit(x))
  {
    hide First, Second, Third, Fourth, Entry, Exit, Words, Pair;
    WordsAt(HalvesOf(x));
  }

  /** The shape changes no bit of slot `i` outside Varying. */
  predicate Agrees(x: Shape, i: nat)
    requires i < 8
  {
    AgreeOutside(Word(x, i), Word(BASE, i), Varying(i))
  }

  lemma EntryAgrees(x: Shape)
    ensures Agrees(x, 0)
  {
    Slots(x);
    Slots(BASE);
    EntryWithin(x);
    hide Word, Entry, Pair, Auipc, AgreeOutside;
  }

  lemma ExitAgrees(x: Shape)
    ensures Agrees(x, 4)
  {
    Slots(x);
    Slots(BASE);
    ExitWithin(x);
    hide Word, Exit, Pair, Csrr, AgreeOutside;
  }

  lemma FirstAgrees(x: Shape)
    ensures Agrees(x, 2)
  {
    BaseHalves();
    Slots(x);
    Slots(BASE);
    FirstWithin(x);
    SecondWithin(x);
    hide First, Second, Pair, Word, AgreeOutside;
    PairWithin(First(x), Second(x), NOP, NOP, 0x7BF5_3FF4, 0xFFF5_3470, 0xFFF5_3470_7BF5_3FF4);
  }

  lemma ThirdAgrees(x: Shape)
    ensures Agrees(x, 3)
  {
    BaseHalves();
    Slots(x);
    Slots(BASE);
    ThirdWithin(x);
    FourthWithin(x);
    hide Third, Fourth, Pair, Word, AgreeOutside;
    PairWithin(Third(x), Fourth(x), NOP, NOP, 0xFFF5_3070, 0x7B20_2460, 0x7B20_2460_FFF5_3070);
  }

  lemma FixedAgrees(x: Shape, i: nat)
    requires i < 8 && i != 0 && i != 2 && i != 3 && i != 4
    ensures Agrees(x, i)
  {
    FixedWords(HalvesOf(x), HalvesOf(BASE), i);
    hide HalvesOf, Words, Varying;
    SameWord(Word(x, i), Varying(i));
  }

  lemma SameWord(v: bv64, m: bv64)
    ensures AgreeOutside(v, v, m)
  {
  }

  /** No shape changes a bit outside Varying. */
  lemma Within(x: Shape, i: nat)
    requires i < 8
    ensures Agrees(x, i)
  {
    hide Agrees;
    if i == 0 {
      EntryAgrees(x);
    } else if i == 2 {
      FirstAgrees(x);
    } else if i == 3 {
      ThirdAgrees(x);
    } else if i == 4 {
      ExitAgrees(x);
    } else {
      FixedAgrees(x, i);
    }
  }

  lemma WitnessHalves()
    ensures Entry(READ_CSR) == Csrw(DSCRATCH1, 10) && Exit(READ_CSR) == NOP
    ensures First(READ_CSR) == Csrw(DSCRATCH0, 8) && Second(READ_CSR) == Csrr(0xFFF, 8)
    ensures Third(READ_CSR) == Store(3, 8, LOAD_BASE, DATA_ADDR) && Fourth(READ_CSR) == Csrr(DSCRATCH0, 8)
    ensures First(WRITE_CSR) == Csrw(DSCRATCH0, 8) && Second(WRITE_CSR) == Load(1, 8, LOAD_BASE, DATA_ADDR)
    ensures Third(WRITE_CSR) == Csrw(0xFFF, 8) && Fourth(WRITE_CSR) == Csrr(DSCRATCH0, 8)
    ensures First(WRITE_FPR) == Fload(2, 31, LOAD_BASE, DATA_ADDR) && First(READ_GPR) == Store(0, 13, LOAD_BASE, DATA_ADDR)
  {
  }

  lemma FirstBits(c: bv64, d: bv64)
    ensures DifferInside(Pair(Csrw(DSCRATCH0, 8), Csrr(0xFFF, 8)), Pair(Csrw(DSCRATCH0, 8), Load(1, 8, LOAD_BASE, DATA_ADDR)),
                         Pair(Fload(2, 31, LOAD_BASE, DATA_ADDR), c), Pair(Store(0, 13, LOAD_BASE, DATA_ADDR), d),
                         Pair(NOP, NOP), 0xFFF5_3470_7BF5_3FF4)
  {
  }

  lemma ThirdBits(p: bv64, q: bv64)
    ensures DifferInside(Pair(Store(3, 8, LOAD_BASE, DATA_ADDR), Csrr(DSCRATCH0, 8)), Pair(Csrw(0xFFF, 8), Csrr(DSCRATCH0, 8)),
                         p, q, Pair(NOP, NOP), 0x7B20_2460_FFF5_3070)
  {
  }

  lemma EntryBits(p: bv64, q: bv64, r: bv64)
    ensures DifferInside(Pair(Csrw(DSCRATCH1, 10), Auipc(10)), p, q, r, Pair(ILLEGAL, Auipc(10)), 0x0000_0000_7B35_1073)
  {
  }

  lemma ExitBits(p: bv64, q: bv64, r: bv64)
    ensures DifferInside(Pair(Csrr(DSCRATCH1, 10), NOP), p, q, r, Pair(Csrr(DSCRATCH1, 10), EBREAK), 0x0010_0060_0000_0000)
  {
  }

  // ---- The sample is exact ----

  lemma WitnessesSampled()
    ensures BASE in Sampled() && READ_CSR in Sampled() && WRITE_CSR in Sampled()
    ensures WRITE_FPR in Sampled() && READ_GPR in Sampled()
  {
    assert RegnoOf(0, 1, 1, 31, 0) == 0x103F && RegnoOf(0, 1, 0, 13, 0) == 0x100D;
    hide RegnoOf;
    RegnoSampled(0, 1, 1, 31, 0);
    RegnoSampled(0, 1, 0, 13, 0);
    assert 0 in SampledRegnos() && 0xFFF in SampledRegnos();
    hide SampledRegnos;
    ShapeSampled(BASE);
    ShapeSampled(READ_CSR);
    ShapeSampled(WRITE_CSR);
    ShapeSampled(WRITE_FPR);
    ShapeSampled(READ_GPR);
  }

  lemma RegnoSampled(top: bv16, b12: bv16, b5: bv16, low5: bv16, mid: bv16)
    requires top in {0, 1, 2, 3} && b12 in {0, 1} && b5 in {0, 1} && low5 in Low5s() && mid in {0, 0x7C0, 0x1C0, 0x440}
    ensures RegnoOf(top, b12, b5, low5, mid) in SampledRegnos()
  {
    hide RegnoOf;
  }

  lemma ShapeSampled(x: Shape)
    requires x.cmdtype in {0, 1} && x.regno in SampledRegnos() && x.size in Sizes()
    ensures x in Sampled()
  {
    hide SampledRegnos;
    assert x.transfer in Flags() && x.write in Flags() && x.postexec in Flags() && x.postinc in Flags();
    assert x == Shape(x.cmdtype, x.size, x.transfer, x.write, x.postexec, x.postinc, x.regno);
  }

  /** Bit `b` of slot `i` is the same in every sampled program. */
  ghost predicate ConstantInSample(i: nat, b: Position)
    requires i < 8
  {
    forall x :: x in Sampled() ==> BitAt(Word(x, i), b) == BitAt(Word(BASE, i), b)
  }

  /** Between them, the four sampled shapes change every bit of Varying in slot `i`. */
  predicate Covered(i: nat)
    requires i < 8
  {
    DifferInside(Word(READ_CSR, i), Word(WRITE_CSR, i), Word(WRITE_FPR, i), Word(READ_GPR, i), Word(BASE, i), Varying(i))
  }

  lemma EntryCovered()
    ensures Covered(0)
  {
    WitnessHalves();
    BaseEnds();
    Slots(READ_CSR);
    Slots(BASE);
    hide Word, Entry, Pair, Csrw, Auipc, DifferInside;
    EntryBits(Word(WRITE_CSR, 0), Word(WRITE_FPR, 0), Word(READ_GPR, 0));
  }

  lemma ExitCovered()
    ensures Covered(4)
  {
    WitnessHalves();
    BaseEnds();
    Slots(READ_CSR);
    Slots(BASE);
    hide Word, Exit, Pair, Csrr, DifferInside;
    ExitBits(Word(WRITE_CSR, 4), Word(WRITE_FPR, 4), Word(READ_GPR, 4));
  }

  lemma BaseEnds()
    ensures Entry(BASE) == ILLEGAL && Exit(BASE) == EBREAK
  {
  }

  lemma ThirdCovered()
    ensures Covered(3)
  {
    WitnessHalves();
    BaseHalves();
    Slots(READ_CSR);
    Slots(WRITE_CSR);
    Slots(BASE);
    hide Word, First, Second, Third, Fourth, Entry, Exit, Pair, Csrw, Csrr, Store, DifferInside;
    ThirdBits(Word(WRITE_FPR, 3), Word(READ_GPR, 3));
  }

  lemma FirstCovered()
    ensures Covered(2)
  {
    WitnessHalves();
    BaseHalves();
    Slots(READ_CSR);
    Slots(WRITE_CSR);
    Slots(WRITE_FPR);
    Slots(READ_GPR);
    Slots(BASE);
    hide Word, First, Second, Third, Fourth, Entry, Exit, Pair, Csrw, Csrr, Load, Fload, Store, DifferInside;
    FirstBits(Second(WRITE_FPR), Second(READ_GPR));
  }

  lemma FixedCovered(i: nat)
    requires i < 8 && i != 0 && i != 2 && i != 3 && i != 4
    ensures Covered(i)
  {
    NothingToCover(Word(READ_CSR, i), Word(WRITE_CSR, i), Word(WRITE_FPR, i), Word(READ_GPR, i), Word(BASE, i));
    hide Word, DifferInside;
  }

  lemma NothingToCover(p: bv64, q: bv64, r: bv64, s: bv64, w: bv64)
    ensures DifferInside(p, q, r, s, w, 0)
  {
  }

  lemma Witnessed(i: nat)
    requires i < 8
    ensures Covered(i)
  {
    hide Covered;
    if i == 0 {
      EntryCovered();
    } else if i == 2 {
      FirstCovered();
    } else if i == 3 {
      ThirdCovered();
    } else if i == 4 {
      ExitCovered();
    } else {
      FixedCovered(i);
    }
  }

  lemma SomeWitnessMoves(i: nat, b: Position)
    requires i < 8 && Covered(i) && BitAt(Varying(i), b)
    ensures SomeDiffers(Word(READ_CSR, i), Word(WRITE_CSR, i), Word(WRITE_FPR, i), Word(READ_GPR, i), Word(BASE, i), b)
  {
    hide Word, BitAt, Varying, DifferInside, SomeDiffers;
    SomeChange(Word(READ_CSR, i), Word(WRITE_CSR, i), Word(WRITE_FPR, i), Word(READ_GPR, i), Word(BASE, i), Varying(i), b);
  }

  lemma VaryingInSample(i: nat, b: Position)
    requires i < 8 && BitAt(Varying(i), b)
    ensures !ConstantInSample(i, b)
  {
    hide Word, Sampled, BitAt, Varying, Covered;
    WitnessesSampled();
    Witnessed(i);
    SomeWitnessMoves(i, b);
  }

  lemma ConstantOutside(x: Shape, i: nat, b: Position)
    requires i < 8 && !BitAt(Varying(i), b)
    ensures BitAt(Word(x, i), b) == BitAt(Word(BASE, i), b)
  {
    hide Word, BitAt, Varying, AgreeOutside;
    Within(x, i);
    OutsideAgrees(Word(x, i), Word(BASE, i), Varying(i), b);
  }

  /** A bit constant over the sample is constant over every command type, size, flag and all 65536
      register numbers, and the other way round. */
  lemma SampleIsExact(i: nat, b: Position)
    requires i < 8
    ensures ConstantInSample(i, b) <==> ConstantEverywhere(i, b)
  {
    hide Word, Sampled, BitAt, Varying;
    if BitAt(Varying(i), b) {
      VaryingInSample(i, b);
    } else {
      forall x: Shape ensures BitAt(Word(x, i), b) == BitAt(Word(BASE, i), b) {
        ConstantOutside(x, i, b);
      }
    }
  }

  // ---- The computation ----

  /** The words of slot `i` over the sample; a word that comes up twice adds nothing to the masks. */
  method SeenWords(i: nat) returns (seen: seq<bv64>)
    requires i < 8
    ensures forall v :: v in seen <==> exists x :: x in Sampled() && Word(x, i) == v
  {
    hide Word, Sampled;
    seen := [];
    var rest := Sampled();
    while rest != {}
      invariant rest <= Sampled()
      invariant forall v :: v in seen <==> exists x :: x in Sampled() && x !in rest && Word(x, i) == v
      decreases |rest|
    {
      var x :| x in rest;
      var word := GeneratedWord(x, i);
      seen := seen + [word];
      rest := rest - {x};
    }
  }

  method GeneratedWord(x: Shape, i: nat) returns (v: bv64)
    requires i < 8
    ensures v == Word(x, i)
  {
    var program := Gen(x);
    v := program[i];
  }

  /** constant_bits: for each slot, exactly the positions no command at all can change. */
  method ConstantPositions() returns (ones: seq<bv64>, zeros: seq<bv64>)
    ensures |ones| == |zeros| == 8
    ensures forall i, b: Position :: 0 <= i < 8 ==> ((BitAt(ones[i], b) || BitAt(zeros[i], b)) <==> ConstantEverywhere(i, b))
  {
    hide BitAt, Word, Sampled, ConstantEverywhere, ConstantInSample, MasksOf;
    ones, zeros := [], [];
    for i := 0 to 8
      invariant |ones| == |zeros| == i
      invariant forall k, b: Position :: 0 <= k < i ==> ((BitAt(ones[k], b) || BitAt(zeros[k], b)) <==> ConstantEverywhere(k, b))
    {
      var seen := SeenWords(i);
      var o, z := ConstantMasks(seen);
      forall b: Position ensures BitAt(o, b) || BitAt(z, b) <==> ConstantEverywhere(i, b) {
        MasksAreConstant(i, seen, o, z, b);
        SampleIsExact(i, b);
      }
      ones, zeros := ones + [o], zeros + [z];
    }
  }

  lemma MasksAreConstant(i: nat, seen: seq<bv64>, ones: bv64, zeros: bv64, b: Position)
    requires i < 8 && forall v :: v in seen <==> exists x :: x in Sampled() && Word(x, i) == v
    requires MasksOf(seen, ones, zeros)
    ensures BitAt(ones, b) || BitAt(zeros, b) <==> ConstantInSample(i, b)
  {
    hide BitAt, Word, Sampled;
    WitnessesSampled();
    var base := Word(BASE, i);
    assert base in seen;
    if ConstantInSample(i, b) {
      forall v | v in seen ensures BitAt(v, b) == BitAt(base, b) {
        var x :| x in Sampled() && Word(x, i) == v;
      }
    } else {
      var x :| x in Sampled() && BitAt(Word(x, i), b) != BitAt(base, b);
      assert Word(x, i) in seen;
    }
  }
}
