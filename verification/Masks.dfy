// Bit masks over 64-bit words, as mk/dm_abstract_cmd_bits.py uses them: a position
// is constant over a set of words exactly if it survives one of two AND-masks.

module Masks {

  /** A bit position of a 64-bit word. */
  type Position = bv6

  predicate BitAt(v: bv64, b: Position) { (v >> b) & 1 == 1 }

  /** Two words differ inside the mask only. */
  predicate AgreeOutside(v: bv64, w: bv64, mask: bv64) { (v ^ w) & !mask == 0 }

  /** Between them, the four words differ from `w` in every bit of the mask. */
  predicate DifferInside(p: bv64, q: bv64, r: bv64, s: bv64, w: bv64, mask: bv64)
  {
    ((p ^ w) | (q ^ w) | (r ^ w) | (s ^ w)) & mask == mask
  }

  lemma OutsideAgrees(v: bv64, w: bv64, mask: bv64, b: Position)
    requires AgreeOutside(v, w, mask) && !BitAt(mask, b)
    ensures BitAt(v, b) == BitAt(w, b)
  {
  }

  predicate SomeDiffers(p: bv64, q: bv64, r: bv64, s: bv64, w: bv64, b: Position)
  {
    BitAt(p, b) != BitAt(w, b) || BitAt(q, b) != BitAt(w, b) || BitAt(r, b) != BitAt(w, b) || BitAt(s, b) != BitAt(w, b)
  }

  lemma SomeChange(p: bv64, q: bv64, r: bv64, s: bv64, w: bv64, mask: bv64, b: Position)
    requires DifferInside(p, q, r, s, w, mask) && BitAt(mask, b)
    ensures SomeDiffers(p, q, r, s, w, b)
  {
  }

  lemma AndBit(x: bv64, y: bv64, b: Position)
    ensures BitAt(x & y, b) == (BitAt(x, b) && BitAt(y, b)) && BitAt(!x, b) == !BitAt(x, b)
  {
  }

  lemma MaskBits(ones: bv64, zeros: bv64, v: bv64, b: Position)
    ensures BitAt(ones & v, b) == (BitAt(ones, b) && BitAt(v, b))
    ensures BitAt(zeros & !v, b) == (BitAt(zeros, b) && !BitAt(v, b))
  {
    AndBit(ones, v, b);
    AndBit(zeros, !v, b);
    AndBit(v, v, b);
  }

  lemma AllOnes(b: Position)
    ensures BitAt(0xFFFF_FFFF_FFFF_FFFF, b)
  {
  }

  /** Bit `b` is 1, or 0, in every word. */
  ghost predicate AllHave(seen: seq<bv64>, b: Position, value: bool)
  {
    forall k :: 0 <= k < |seen| ==> BitAt(seen[k], b) == value
  }

  /** The masks hold a 1 where every word has a 1, and where every word has a 0. */
  ghost predicate MasksOf(seen: seq<bv64>, ones: bv64, zeros: bv64)
  {
    forall b: Position :: BitAt(ones, b) == AllHave(seen, b, true) && BitAt(zeros, b) == AllHave(seen, b, false)
  }

  lemma NoMasks()
    ensures MasksOf([], 0xFFFF_FFFF_FFFF_FFFF, 0xFFFF_FFFF_FFFF_FFFF)
  {
    hide BitAt;
    forall b: Position ensures BitAt(0xFFFF_FFFF_FFFF_FFFF, b) {
      AllOnes(b);
    }
  }

  lemma AllHaveMore(seen: seq<bv64>, n: nat, b: Position, value: bool)
    requires n < |seen|
    ensures AllHave(seen[..n + 1], b, value) == (AllHave(seen[..n], b, value) && BitAt(seen[n], b) == value)
  {
    hide BitAt;
    var longer, shorter := seen[..n + 1], seen[..n];
    assert forall k :: 0 <= k < n ==> longer[k] == shorter[k];
    assert longer[n] == seen[n];
  }

  lemma MaskStep(seen: seq<bv64>, n: nat, ones: bv64, zeros: bv64, v: bv64, o: bv64, z: bv64)
    requires n < |seen| && MasksOf(seen[..n], ones, zeros) && v == seen[n]
    requires forall b: Position :: BitAt(o, b) == (BitAt(ones, b) && BitAt(v, b))
    requires forall b: Position :: BitAt(z, b) == (BitAt(zeros, b) && !BitAt(v, b))
    ensures MasksOf(seen[..n + 1], o, z)
  {
    hide BitAt, AllHave;
    forall b: Position
      ensures BitAt(o, b) == AllHave(seen[..n + 1], b, true) && BitAt(z, b) == AllHave(seen[..n + 1], b, false)
    {
      AllHaveMore(seen, n, b, true);
      AllHaveMore(seen, n, b, false);
    }
  }

  /** AND of the words, and AND of their complements. */
  method ConstantMasks(seen: seq<bv64>) returns (ones: bv64, zeros: bv64)
    ensures MasksOf(seen, ones, zeros)
  {
    hide MasksOf, BitAt;
    ones, zeros := 0xFFFF_FFFF_FFFF_FFFF, 0xFFFF_FFFF_FFFF_FFFF;
    NoMasks();
    assert seen[..0] == [];
    for n := 0 to |seen|
      invariant MasksOf(seen[..n], ones, zeros)
    {
      var v := seen[n];
      var o, z := ones & v, zeros & !v;
      forall b: Position
        ensures BitAt(o, b) == (BitAt(ones, b) && BitAt(v, b)) && BitAt(z, b) == (BitAt(zeros, b) && !BitAt(v, b))
      {
        MaskBits(ones, zeros, v, b);
      }
      MaskStep(seen, n, ones, zeros, v, o, z);
      ones, zeros := o, z;
    }
    assert seen[..|seen|] == seen;
  }
}
