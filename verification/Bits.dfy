// Python integers as bit strings: shifts, masks and field replacement on
// natural numbers, with every operation characterised bit by bit.

module Bits {

  const TWO32 := 0x1_0000_0000

  function Pow2(n: nat): (p: nat)
    ensures p >= 1
  {
    if n == 0 then 1 else 2 * Pow2(n - 1)
  }

  /** `w >> n` */
  function Shr(w: nat, n: nat): nat
  {
    if n == 0 then w else Shr(w / 2, n - 1)
  }

  /** `w << n` */
  function Shl(w: nat, n: nat): nat
  {
    if n == 0 then w else 2 * Shl(w, n - 1)
  }

  /** `w & ((1 << n) - 1)` */
  function Low(w: nat, n: nat): nat
  {
    if n == 0 then 0 else 2 * Low(w / 2, n - 1) + w % 2
  }

  /** `(hi << n) | (lo & ((1 << n) - 1))` */
  function Cat(hi: nat, lo: nat, n: nat): nat
  {
    if n == 0 then hi else 2 * Cat(hi, lo / 2, n - 1) + lo % 2
  }

  /** `a | b` */
  function Or(a: nat, b: nat): nat
    decreases a + b
  {
    if a == 0 then b
    else if b == 0 then a
    else 2 * Or(a / 2, b / 2) + (if a % 2 == 1 || b % 2 == 1 then 1 else 0)
  }

  /** Bit `k` of `w`. */
  predicate Bit(w: nat, k: nat)
  {
    if k == 0 then w % 2 == 1 else Bit(w / 2, k - 1)
  }

  /** The `width`-bit field of `w` whose least significant bit is `lsb`. */
  function Extract(w: nat, lsb: nat, width: nat): nat
  {
    Low(Shr(w, lsb), width)
  }

  /** `w` with that field replaced by the low bits of `v`. */
  function Insert(w: nat, lsb: nat, width: nat, v: nat): nat
  {
    Cat(Cat(Shr(w, lsb + width), v, width), w, lsb)
  }

  function FromBool(b: bool): nat
  {
    if b then 1 else 0
  }

  lemma {:induction false} BitShr(w: nat, n: nat, k: nat)
    ensures Bit(Shr(w, n), k) <==> Bit(w, n + k)
  {
    if n > 0 {
      BitShr(w / 2, n - 1, k);
    }
  }

  lemma {:induction false} BitShl(w: nat, n: nat, k: nat)
    ensures Bit(Shl(w, n), k) <==> k >= n && Bit(w, k - n)
  {
    if n > 0 && k > 0 {
      BitShl(w, n - 1, k - 1);
    }
  }

  lemma {:induction false} BitLow(w: nat, n: nat, k: nat)
    ensures Bit(Low(w, n), k) <==> k < n && Bit(w, k)
  {
    if n == 0 {
      BitZero(k);
    } else if k > 0 {
      BitLow(w / 2, n - 1, k - 1);
    }
  }

  lemma {:induction false} BitCat(hi: nat, lo: nat, n: nat, k: nat)
    ensures Bit(Cat(hi, lo, n), k) <==> if k < n then Bit(lo, k) else Bit(hi, k - n)
  {
    if n > 0 && k > 0 {
      BitCat(hi, lo / 2, n - 1, k - 1);
    }
  }

  lemma {:induction false} BitOr(a: nat, b: nat, k: nat)
    ensures Bit(Or(a, b), k) <==> Bit(a, k) || Bit(b, k)
    decreases a + b
  {
    if a == 0 || b == 0 {
      BitZero(k);
    } else if k > 0 {
      BitOr(a / 2, b / 2, k - 1);
    }
  }

  lemma {:induction false} BitZero(k: nat)
    ensures !Bit(0, k)
  {
    if k > 0 {
      BitZero(k - 1);
    }
  }

  lemma BitFlag(b: bool, k: nat)
    ensures Bit(FromBool(b), k) <==> b && k == 0
  {
    if k > 0 {
      BitZero(k - 1);
    }
  }

  lemma BitExtract(w: nat, lsb: nat, width: nat, k: nat)
    ensures Bit(Extract(w, lsb, width), k) <==> k < width && Bit(w, lsb + k)
  {
    BitLow(Shr(w, lsb), width, k);
    BitShr(w, lsb, k);
  }

  /** A field replacement changes the field's bits and no other bit. */
  lemma BitInsert(w: nat, lsb: nat, width: nat, v: nat, k: nat)
    ensures Bit(Insert(w, lsb, width, v), k)
      <==> if lsb <= k < lsb + width then Bit(v, k - lsb) else Bit(w, k)
  {
    var top := Cat(Shr(w, lsb + width), v, width);
    BitCat(top, w, lsb, k);
    if k >= lsb {
      BitCat(Shr(w, lsb + width), v, width, k - lsb);
      if k >= lsb + width {
        BitShr(w, lsb + width, k - lsb - width);
      }
    }
  }

  /** Two words with the same bits are the same word. */
  lemma {:induction false} SameBits(a: nat, b: nat)
    requires forall k: nat :: Bit(a, k) <==> Bit(b, k)
    ensures a == b
    decreases a + b
  {
    assert Bit(a, 0) <==> Bit(b, 0);
    if a != b {
      forall k: nat ensures Bit(a / 2, k) <==> Bit(b / 2, k) {
        assert Bit(a, k + 1) <==> Bit(b, k + 1);
      }
      SameBits(a / 2, b / 2);
    }
  }

  /** Reading a field just written gives the value's low bits. */
  lemma ExtractInserted(w: nat, lsb: nat, width: nat, v: nat)
    ensures Extract(Insert(w, lsb, width, v), lsb, width) == Low(v, width)
  {
    forall k: nat
      ensures Bit(Extract(Insert(w, lsb, width, v), lsb, width), k) <==> Bit(Low(v, width), k)
    {
      BitExtract(Insert(w, lsb, width, v), lsb, width, k);
      BitInsert(w, lsb, width, v, lsb + k);
      BitLow(v, width, k);
    }
    SameBits(Extract(Insert(w, lsb, width, v), lsb, width), Low(v, width));
  }

  /** Writing one field leaves every disjoint field as it was. */
  lemma ExtractOther(w: nat, lsb: nat, width: nat, v: nat, lsb': nat, width': nat)
    requires lsb + width <= lsb' || lsb' + width' <= lsb
    ensures Extract(Insert(w, lsb, width, v), lsb', width') == Extract(w, lsb', width')
  {
    var w' := Insert(w, lsb, width, v);
    forall k: nat ensures Bit(Extract(w', lsb', width'), k) <==> Bit(Extract(w, lsb', width'), k) {
      BitExtract(w', lsb', width', k);
      BitExtract(w, lsb', width', k);
      BitInsert(w, lsb, width, v, lsb' + k);
    }
    SameBits(Extract(w', lsb', width'), Extract(w, lsb', width'));
  }

  lemma {:induction false} LowIsMod(w: nat, n: nat)
    ensures Low(w, n) == w % Pow2(n)
  {
    if n > 0 {
      LowIsMod(w / 2, n - 1);
      HalveThenDivide(w, Pow2(n - 1));
    }
  }

  lemma MulBounds(d: int, m: nat)
    ensures d >= 1 ==> d * m >= m
    ensures d <= -1 ==> d * m + m <= 0
  {
    if d >= 1 {
      assert d * m == (d - 1) * m + m;
    }
    if d <= -1 {
      assert d * m + m == (d + 1) * m;
    }
  }

  lemma ModUnique(w: nat, m: nat, q: nat, r: nat)
    requires m > 0 && r < m && w == q * m + r
    ensures w % m == r && w / m == q
  {
    var d := w / m - q;
    assert w == (w / m) * m + w % m;
    assert d * m == r - w % m;
    MulBounds(d, m);
  }

  /** Halving first and dividing by `p` afterwards is dividing by `2 * p`. */
  lemma HalveThenDivide(w: nat, p: nat)
    requires p > 0
    ensures w % (2 * p) == 2 * ((w / 2) % p) + w % 2
    ensures w / (2 * p) == (w / 2) / p
  {
    var q, r := (w / 2) / p, (w / 2) % p;
    assert w / 2 == q * p + r;
    assert q * (2 * p) == 2 * (q * p);
    ModUnique(w, 2 * p, q, 2 * r + w % 2);
  }

  lemma LowBound(w: nat, n: nat)
    ensures Low(w, n) < Pow2(n)
  {
    LowIsMod(w, n);
  }

  lemma {:induction false} ShrIsDiv(w: nat, n: nat)
    ensures Shr(w, n) == w / Pow2(n)
  {
    if n > 0 {
      ShrIsDiv(w / 2, n - 1);
      HalveThenDivide(w, Pow2(n - 1));
    }
  }

  lemma {:induction false} LowSmall(w: nat, n: nat)
    requires w < Pow2(n)
    ensures Low(w, n) == w
  {
    if n > 0 {
      LowSmall(w / 2, n - 1);
    }
  }

  lemma Pow2Of32()
    ensures Pow2(32) == TWO32
  {
    assert Pow2(8) == 256;
    assert Pow2(16) == 65536;
    assert Pow2(24) == 0x100_0000;
    assert Pow2(32) == TWO32;
  }

  /** Truncating a word to 32 bits keeps every field that lies in them. */
  lemma ExtractMod32(w: nat, lsb: nat, width: nat)
    requires lsb + width <= 32
    ensures Extract(w % TWO32, lsb, width) == Extract(w, lsb, width)
  {
    Pow2Of32();
    LowIsMod(w, 32);
    forall k: nat
      ensures Bit(Extract(w % TWO32, lsb, width), k) <==> Bit(Extract(w, lsb, width), k)
    {
      BitExtract(w % TWO32, lsb, width, k);
      BitExtract(w, lsb, width, k);
      BitLow(w, 32, lsb + k);
    }
    SameBits(Extract(w % TWO32, lsb, width), Extract(w, lsb, width));
  }

  /** A field as Python computes it: `(w >> lsb) % (1 << width)`. */
  lemma ExtractIsDivMod(w: nat, lsb: nat, width: nat)
    ensures Extract(w, lsb, width) == (w / Pow2(lsb)) % Pow2(width)
  {
    ShrIsDiv(w, lsb);
    LowIsMod(Shr(w, lsb), width);
  }
}
