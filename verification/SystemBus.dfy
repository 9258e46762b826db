// System Bus Access streaming (src/pydebug/model/predictor.py, section 3.10):
// where autoincrement goes, and that words written through sbdata0 are the words
// predicted when they are read back.

module SystemBus {
  import opened Bits
  import opened Words
  import opened DebugModule

  const TWO64 := 0x1_0000_0000_0000_0000

  function Address(b: Sba): nat { b.address1 * TWO32 + b.address0 }

  predicate AddressOk(b: Sba) { b.address0 < TWO32 && b.address1 < TWO32 }

  // ---- The address law ----

  /** Any access that moves the address: a data write, or a data read with sbreadondata. */
  datatype Access = WriteWord(value: nat) | ReadWord

  function Accessed(b: Sba, sbasize: nat, x: Access): Sba
  {
    match x
    case WriteWord(value) => WriteSbdata0(b, sbasize, value)
    case ReadWord => ReadSbdata0(b, sbasize)
  }

  function Stream(b: Sba, sbasize: nat, xs: seq<Access>): Sba
  {
    if |xs| == 0 then b else Accessed(Stream(b, sbasize, xs[..|xs| - 1]), sbasize, xs[|xs| - 1])
  }

  lemma ModAdd(a: nat, k: nat, m: nat)
    requires m > 0
    ensures (a % m + k) % m == (a + k) % m
  {
    var q, r := a / m, a % m;
    var q', r' := (r + k) / m, (r + k) % m;
    assert a + k == q * m + (q' * m + r');
    assert q * m + q' * m == (q + q') * m;
    ModUnique(a + k, m, q + q', r');
  }

  lemma SplitMod(a: nat)
    ensures a % TWO64 == ((a / TWO32) % TWO32) * TWO32 + a % TWO32
    ensures ((a / TWO32) % TWO32) * TWO32 + a % TWO32 < TWO64
  {
    var h, l := a / TWO32, a % TWO32;
    var q, r := h / TWO32, h % TWO32;
    assert a == h * TWO32 + l && h == q * TWO32 + r;
    assert a == q * TWO64 + (r * TWO32 + l);
    ModUnique(a, TWO64, q, r * TWO32 + l);
  }

  lemma LowOfPair(high: nat, low: nat, k: nat)
    ensures (high * TWO32 + low + k) % TWO32 == (low + k) % TWO32
  {
    var q, r := (low + k) / TWO32, (low + k) % TWO32;
    assert high * TWO32 + low + k == (high + q) * TWO32 + r;
    ModUnique(high * TWO32 + low + k, TWO32, high + q, r);
  }

  /** One increment: a 64-bit carry only on a bus wider than 32 bits. */
  lemma IncrementMoves(b: Sba, sbasize: nat)
    requires b.autoincrement && AddressOk(b)
    ensures var b' := SbaIncrement(b, sbasize);
            && AddressOk(b')
            && (sbasize > 32 ==> Address(b') == (Address(b) + Pow2(b.access)) % TWO64)
            && (sbasize <= 32 ==> b'.address0 == (b.address0 + Pow2(b.access)) % TWO32 && b'.address1 == b.address1)
  {
    var a := Address(b) + Pow2(b.access);
    SplitMod(a);
    LowOfPair(b.address1, b.address0, Pow2(b.access));
  }

  /** A data write moves the address if autoincrement is on; a data read only if sbreadondata is on too. */
  predicate Moves(b: Sba, x: Access) { b.autoincrement && (x.WriteWord? || b.readondata) }

  /** How many of the accesses move the address. */
  function MoveCount(b: Sba, xs: seq<Access>): nat
  {
    if |xs| == 0 then 0
    else MoveCount(b, xs[..|xs| - 1]) + if Moves(b, xs[|xs| - 1]) then 1 else 0
  }

  /** The settings an access leaves alone. */
  predicate SameSettings(a: Sba, b: Sba)
  {
    a.autoincrement == b.autoincrement && a.readondata == b.readondata && a.access == b.access
  }

  lemma AccessMoves(b: Sba, sbasize: nat, x: Access)
    requires AddressOk(b)
    ensures var b', next := Accessed(b, sbasize, x), if Moves(b, x) then SbaIncrement(b, sbasize) else b;
            && SameSettings(b, b') && AddressOk(b')
            && b'.address0 == next.address0 && b'.address1 == next.address1
  {
    if b.autoincrement {
      IncrementMoves(b, sbasize);
    }
  }

  lemma Distribute(j: nat, d: nat, m: nat)
    ensures (j + d) * m == j * m + d * m && j * m >= 0
  {
  }

  lemma NextMultiple(k: nat, step: nat)
    ensures (k + 1) * step == k * step + step && k * step >= 0
  {
  }

  /** Where `b` is after moving `total` from `start`. */
  predicate MovedTo(start: Sba, sbasize: nat, b: Sba, total: nat)
  {
    if sbasize > 32 then Address(b) == (Address(start) + total) % TWO64
    else b.address0 == (start.address0 + total) % TWO32 && b.address1 == start.address1
  }

  lemma MovedNext(start: Sba, sbasize: nat, b: Sba, x: Access, total: nat)
    requires Moves(b, x) && AddressOk(b) && MovedTo(start, sbasize, b, total)
    ensures MovedTo(start, sbasize, Accessed(b, sbasize, x), total + Pow2(b.access))
  {
    hide Pow2, Accessed;
    AccessMoves(b, sbasize, x);
    IncrementMoves(b, sbasize);
    if sbasize > 32 {
      ModAdd(Address(start) + total, Pow2(b.access), TWO64);
    } else {
      ModAdd(start.address0 + total, Pow2(b.access), TWO32);
    }
  }

  lemma NotMoved(b: Sba, sbasize: nat)
    requires AddressOk(b)
    ensures MovedTo(b, sbasize, b, 0)
  {
  }

  /** After a stream of which k accesses move the address it is start + k * 2^sbaccess: modulo 2^64 with the
      carry into sbaddress1 when the bus is wider than 32 bits, modulo 2^32 with sbaddress1 untouched otherwise. */
  lemma {:induction false} AddressLaw(b: Sba, sbasize: nat, xs: seq<Access>)
    requires AddressOk(b)
    ensures MoveCount(b, xs) * Pow2(b.access) >= 0
    ensures var b' := Stream(b, sbasize, xs);
            SameSettings(b, b') && AddressOk(b') && MovedTo(b, sbasize, b', MoveCount(b, xs) * Pow2(b.access))
  {
    hide Pow2, Accessed, MovedTo;
    if |xs| == 0 {
      NotMoved(b, sbasize);
    } else {
      var n, init := |xs| - 1, xs[..|xs| - 1];
      AddressLaw(b, sbasize, init);
      var m, k := Stream(b, sbasize, init), MoveCount(b, init);
      NextMultiple(k, Pow2(b.access));
      AccessMoves(m, sbasize, xs[n]);
      if Moves(b, xs[n]) {
        MovedNext(b, sbasize, m, xs[n], k * Pow2(b.access));
      } else {
        MovedAlike(b, sbasize, m, Accessed(m, sbasize, xs[n]), k * Pow2(b.access));
      }
    }
  }

  lemma MovedAlike(start: Sba, sbasize: nat, a: Sba, b: Sba, total: nat)
    requires MovedTo(start, sbasize, a, total) && a.address0 == b.address0 && a.address1 == b.address1
    ensures MovedTo(start, sbasize, b, total)
  {
  }

  /** When every access moves the address, k is the length of the stream. */
  lemma {:induction false} AllMove(b: Sba, xs: seq<Access>)
    requires forall i :: 0 <= i < |xs| ==> Moves(b, xs[i])
    ensures MoveCount(b, xs) == |xs|
  {
    if |xs| > 0 {
      AllMove(b, xs[..|xs| - 1]);
    }
  }

  // ---- The round trip ----

  /** The address of the k-th word: sbaddress0 wraps at 2^32 whatever sbasize is. */
  function Place(a: nat, step: nat, k: nat): nat { (a + k * step) % TWO32 }

  lemma PlaceNext(a: nat, step: nat, k: nat)
    ensures (Place(a, step, k) + step) % TWO32 == Place(a, step, k + 1)
  {
    NextMultiple(k, step);
    ModAdd(a + k * step, step, TWO32);
  }

  lemma MulLess(j: nat, k: nat, n: nat, step: nat)
    requires j < k < n && step >= 1 && n * step <= TWO32
    ensures j * step < k * step < j * step + TWO32
  {
    var d := k - j;
    Distribute(j, d, step);
    Distribute(d, n - d, step);
    MulBounds(d, step);
    MulBounds(n - d, step);
  }

  lemma ModDiffer(x: nat, y: nat)
    requires x < y < x + TWO32
    ensures x % TWO32 != y % TWO32
  {
  }

  /** A stream no longer than the 32-bit address space never meets itself. */
  lemma PlacesDiffer(a: nat, step: nat, j: nat, k: nat, n: nat)
    requires j < k < n && step >= 1 && n * step <= TWO32
    ensures Place(a, step, j) != Place(a, step, k)
  {
    MulLess(j, k, n, step);
    ModDiffer(a + j * step, a + k * step);
  }

  lemma IncrementPlace(b: Sba, sbasize: nat, a: nat, k: nat)
    requires b.autoincrement && b.address0 == Place(a, Pow2(b.access), k)
    ensures SbaIncrement(b, sbasize).address0 == Place(a, Pow2(b.access), k + 1)
  {
    LowOfPair(b.address1, b.address0, Pow2(b.access));
    PlaceNext(a, Pow2(b.access), k);
  }

  function Writes(words: seq<nat>): (ops: seq<Op>)
    ensures |ops| == |words|
  {
    seq(|words|, i requires 0 <= i < |words| => Op.Write(SBDATA0, words[i]))
  }

  function Reads(n: nat): (ops: seq<Op>)
    ensures |ops| == n
  {
    seq(n, i => Op.Read(SBDATA0))
  }

  /** What a data operation does to the module: only the bus shadow moves. */
  lemma DataOps(s: Dm, word: nat)
    requires Shaped(s.abs)
    ensures Step(s, Op.Write(SBDATA0, word)) == s.(sba := WriteSbdata0(s.sba, s.cfg.sbasize, word % TWO32))
    ensures Step(s, Op.Read(SBDATA0)) == s.(sba := ReadSbdata0(s.sba, s.cfg.sbasize))
    ensures Step(s, Op.Write(SBADDRESS0, word)) == s.(sba := WriteSbaddress0(s.sba, s.cfg.sbasize, word % TWO32))
    ensures Step(s, Op.Write(SBCS_ADDR, word)) == s.(sba := WriteSbcs(s.sba, s.cfg, word % TWO32))
  {
    hide WriteSbdata0, ReadSbdata0, WriteSbaddress0, WriteSbcs;
  }

  /** The first `k` words lie at their places. */
  ghost predicate Stored(b: Sba, a: nat, step: nat, words: seq<nat>, k: nat)
    requires k <= |words|
  {
    forall j :: 0 <= j < k ==> Place(a, step, j) in b.mem && b.mem[Place(a, step, j)] == words[j] % TWO32
  }

  lemma StoreNext(b: Sba, b': Sba, a: nat, step: nat, words: seq<nat>, k: nat)
    requires k < |words| && step >= 1 && |words| * step <= TWO32
    requires Stored(b, a, step, words, k) && b'.mem == b.mem[Place(a, step, k) := words[k] % TWO32]
    ensures Stored(b', a, step, words, k + 1)
  {
    forall j | 0 <= j < k + 1
      ensures Place(a, step, j) in b'.mem && b'.mem[Place(a, step, j)] == words[j] % TWO32
    {
      if j < k {
        PlacesDiffer(a, step, j, k, |words|);
      }
    }
  }

  /** The module after writing the first `k` words of a stream. */
  ghost predicate Written(s: Dm, t: Dm, a: nat, words: seq<nat>, k: nat)
    requires k <= |words|
  {
    var step := Pow2(s.sba.access);
    && t == s.(sba := t.sba) && t.sba.autoincrement && t.sba.access == s.sba.access
    && t.sba.address0 == Place(a, step, k) && Stored(t.sba, a, step, words, k)
  }

  lemma WriteNext(s: Dm, t: Dm, a: nat, words: seq<nat>, k: nat)
    requires Shaped(s.abs) && k < |words| && |words| * Pow2(s.sba.access) <= TWO32 && Written(s, t, a, words, k)
    ensures Written(s, Step(t, Op.Write(SBDATA0, words[k])), a, words, k + 1)
  {
    DataOps(t, words[k]);
    var b := t.sba.(mem := t.sba.mem[t.sba.address0 := words[k] % TWO32]);
    IncrementPlace(b, t.cfg.sbasize, a, k);
    var b' := WriteSbdata0(t.sba, t.cfg.sbasize, words[k] % TWO32);
    StoreNext(t.sba, b', a, Pow2(s.sba.access), words, k);
  }

  lemma {:induction false} AllWritten(s: Dm, a: nat, words: seq<nat>, k: nat)
    requires Shaped(s.abs) && s.sba.autoincrement && s.sba.address0 == a < TWO32
    requires k <= |words| && |words| * Pow2(s.sba.access) <= TWO32
    ensures Written(s, After(s, Writes(words)[..k]), a, words, k)
  {
    hide Step, Written;
    if k == 0 {
      NothingWritten(s, a, words);
    } else {
      AllWritten(s, a, words, k - 1);
      assert Writes(words)[..k][..k - 1] == Writes(words)[..k - 1];
      WriteNext(s, After(s, Writes(words)[..k - 1]), a, words, k - 1);
    }
  }

  lemma NothingWritten(s: Dm, a: nat, words: seq<nat>)
    requires s.sba.autoincrement && s.sba.address0 == a < TWO32
    ensures Written(s, s, a, words, 0)
  {
  }

  /** The module with word `i` pending in sbdata0 and the address one word further. */
  ghost predicate Primed(s: Dm, t: Dm, a: nat, words: seq<nat>, i: nat)
    requires i < |words|
  {
    var step := Pow2(s.sba.access);
    && t == s.(sba := t.sba) && t.sba.autoincrement && t.sba.readondata && t.sba.access == s.sba.access
    && t.sba.address0 == Place(a, step, i + 1) && Stored(t.sba, a, step, words, |words|)
    && t.sba.data0Valid && t.sba.data0 == words[i] % TWO32
  }

  /** sbcs as the reader sets it: read on address, autoincrement, read on data, the access size kept. */
  predicate ReadControl(s: Dm, control: nat)
  {
    Flag(control, 20) && Flag(control, 16) && Flag(control, 15)
    && (s.cfg.sbaccessWritable ==> Extract(control, 17, 3) == s.sba.access)
  }

  lemma ControlMod32(control: nat)
    ensures Flag(control % TWO32, 20) == Flag(control, 20) && Flag(control % TWO32, 16) == Flag(control, 16)
    ensures Flag(control % TWO32, 15) == Flag(control, 15)
    ensures Extract(control % TWO32, 17, 3) == Extract(control, 17, 3)
  {
    ExtractMod32(control, 20, 1);
    ExtractMod32(control, 16, 1);
    ExtractMod32(control, 15, 1);
    ExtractMod32(control, 17, 3);
  }

  lemma PlaceZero(a: nat, step: nat)
    requires a < TWO32
    ensures Place(a, step, 0) == a
  {
  }

  /** The module ready to read back, before the address is written. */
  ghost predicate Listening(s: Dm, t: Dm, a: nat, words: seq<nat>)
  {
    && t == s.(sba := t.sba) && t.sba.autoincrement && t.sba.readondata && t.sba.armed
    && t.sba.access == s.sba.access && Stored(t.sba, a, Pow2(s.sba.access), words, |words|)
  }

  lemma ControlWritten(s: Dm, t: Dm, a: nat, words: seq<nat>, control: nat)
    requires Shaped(s.abs) && Written(s, t, a, words, |words|) && ReadControl(s, control)
    ensures Listening(s, Step(t, Op.Write(SBCS_ADDR, control)), a, words)
  {
    hide Flag, Extract, Pow2, Place;
    ControlMod32(control);
    DataOps(t, control);
  }

  /** Writing an address that holds a word, with read-on-address armed. */
  lemma AddressArms(b: Sba, sbasize: nat, a: nat)
    requires b.armed && b.autoincrement && a in b.mem && a < TWO32
    ensures var b' := WriteSbaddress0(b, sbasize, a);
            && b'.mem == b.mem && b'.autoincrement && b'.readondata == b.readondata && b'.access == b.access
            && b'.data0Valid && b'.data0 == b.mem[a] && b'.address0 == Place(a, Pow2(b.access), 1)
  {
    hide Pow2, Place;
    PlaceZero(a, Pow2(b.access));
    IncrementPlace(SbaArm(b.(address0 := a), a), sbasize, a, 0);
  }

  lemma AddressWritten(s: Dm, t: Dm, a: nat, words: seq<nat>)
    requires Shaped(s.abs) && |words| > 0 && a < TWO32 && Listening(s, t, a, words)
    ensures Primed(s, Step(t, Op.Write(SBADDRESS0, a)), a, words, 0)
  {
    hide Pow2, Place, WriteSbaddress0, Step;
    DataOps(t, a);
    PlaceZero(a, Pow2(s.sba.access));
    AddressArms(t.sba, t.cfg.sbasize, a);
  }

  lemma ReadNext(s: Dm, t: Dm, a: nat, words: seq<nat>, i: nat)
    requires Shaped(s.abs) && i + 1 < |words| && Primed(s, t, a, words, i)
    ensures Primed(s, Step(t, Op.Read(SBDATA0)), a, words, i + 1)
  {
    hide Pow2, Place;
    DataOps(t, 0);
    var b := SbaArm(t.sba, t.sba.address0);
    IncrementPlace(b, t.cfg.sbasize, a, i + 1);
  }

  function RereadOps(words: seq<nat>, control: nat, a: nat, i: nat): seq<Op>
  {
    Writes(words) + [Op.Write(SBCS_ADDR, control), Op.Write(SBADDRESS0, a)] + Reads(i)
  }

  lemma {:induction false} AllRead(s: Dm, a: nat, words: seq<nat>, control: nat, i: nat)
    requires Shaped(s.abs) && s.sba.autoincrement && s.sba.address0 == a < TWO32 && ReadControl(s, control)
    requires i < |words| && |words| * Pow2(s.sba.access) <= TWO32
    ensures Primed(s, After(s, RereadOps(words, control, a, i)), a, words, i)
    decreases i
  {
    hide Step, Written, Listening, Primed, ReadControl, Pow2;
    var ops := RereadOps(words, control, a, i);
    if i == 0 {
      var w, c, d := Writes(words), Op.Write(SBCS_ADDR, control), Op.Write(SBADDRESS0, a);
      assert ops == w + [c, d] && ops[..|ops| - 1] == w + [c] && (w + [c])[..|w|] == w;
      AllWritten(s, a, words, |words|);
      assert w[..|words|] == w;
      ControlWritten(s, After(s, w), a, words, control);
      AddressWritten(s, After(s, w + [c]), a, words);
    } else {
      AllRead(s, a, words, control, i - 1);
      assert ops[..|ops| - 1] == RereadOps(words, control, a, i - 1);
      ReadNext(s, After(s, ops[..|ops| - 1]), a, words, i - 1);
    }
  }

  /** Words streamed out through sbdata0 and streamed back in from the same address: the i-th read is
      claimed, and predicted as the i-th word, for every stream that fits the 32-bit address space. */
  lemma StreamRoundTrip(s: Dm, a: nat, words: seq<nat>, control: nat, i: nat)
    requires Shaped(s.abs) && s.cfgValid && s.run.dmactive && s.cfg.sbaEnable
    requires s.sba.autoincrement && s.sba.address0 == a < TWO32 && ReadControl(s, control)
    requires i < |words| && |words| * Pow2(s.sba.access) <= TWO32
    ensures var t := After(s, RereadOps(words, control, a, i));
            HasModel(t, SBDATA0) && Predict(t, SBDATA0) == words[i] % TWO32
  {
    hide RereadOps, ReadControl, Pow2, After;
    AllRead(s, a, words, control, i);
  }

  /** A longer stream does meet itself: the word one address space later lands on the first word's place. */
  lemma WrapsAround(a: nat, step: nat, n: nat)
    requires n * step == TWO32
    ensures Place(a, step, n) == Place(a, step, 0)
  {
    LowOfPair(1, a, 0);
  }

  /** A write through sbdata0 changes the memory but not the value already pending in sbdata0. */
  lemma PendingReadIsStale(b: Sba, sbasize: nat, value: nat)
    ensures var b' := WriteSbdata0(b, sbasize, value);
            b'.data0 == b.data0 && b'.data0Valid == b.data0Valid
            && b.address0 in b'.mem && b'.mem[b.address0] == value
  {
  }
}
