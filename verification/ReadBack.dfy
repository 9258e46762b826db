// What a register reads as after it was written (src/pydebug/model/predictor.py):
// the settings that stick, and the bits that stay tied off.

module ReadBack {
  import opened Bits
  import opened Words
  import opened DebugModule

  // ---- sbcs ----

  lemma SbcsBit(s: Dm, k: nat)
    requires s.cfg.sbaEnable
    ensures var c := s.cfg;
            Bit(SbcsWord(s), k) <==>
            (29 <= k < 32 && Bit(c.sbversion, k - 29)) || (k == 20 && s.sba.readonaddr)
            || (17 <= k < 20 && Bit(s.sba.access, k - 17)) || (k == 16 && s.sba.autoincrement)
            || (k == 15 && s.sba.readondata) || (5 <= k < 12 && Bit(c.sbasize, k - 5))
            || (k == 4 && c.sbaccess128) || (k == 3 && c.sbaccess64) || (k == 2 && c.sbaccess32)
            || (k == 1 && c.sbaccess16) || (k == 0 && c.sbaccess8)
  {
    hide OrAll, Low, Bit, PartSetsBit, FromBool;
    var c := s.cfg;
    ElevenParts([(Low(c.sbversion, 3), 29), (FromBool(s.sba.readonaddr), 20), (Low(s.sba.access, 3), 17),
                (FromBool(s.sba.autoincrement), 16), (FromBool(s.sba.readondata), 15), (Low(c.sbasize, 7), 5),
                (FromBool(c.sbaccess128), 4), (FromBool(c.sbaccess64), 3), (FromBool(c.sbaccess32), 2),
                (FromBool(c.sbaccess16), 1), (FromBool(c.sbaccess8), 0)], k);
    FieldPart(c.sbversion, 3, 29, k);
    FlagPart(s.sba.readonaddr, 20, k);
    FieldPart(s.sba.access, 3, 17, k);
    FlagPart(s.sba.autoincrement, 16, k);
    FlagPart(s.sba.readondata, 15, k);
    FieldPart(c.sbasize, 7, 5, k);
    FlagPart(c.sbaccess128, 4, k);
    FlagPart(c.sbaccess64, 3, k);
    FlagPart(c.sbaccess32, 2, k);
    FlagPart(c.sbaccess16, 1, k);
    FlagPart(c.sbaccess8, 0, k);
  }

  lemma FlagPart(b: bool, at: nat, k: nat)
    ensures PartSetsBit((FromBool(b), at), k) <==> b && k == at
  {
    if k >= at {
      BitFlag(b, k - at);
    }
  }

  lemma FieldPart(v: nat, width: nat, at: nat, k: nat)
    ensures PartSetsBit((Low(v, width), at), k) <==> at <= k < at + width && Bit(v, k - at)
  {
    if k >= at {
      BitLow(v, width, k - at);
    }
  }

  /** Eleven parts, one by one. */
  lemma ElevenParts(parts: seq<(nat, nat)>, k: nat)
    requires |parts| == 11
    ensures Bit(OrAll(parts), k) <==>
            PartSetsBit(parts[0], k) || PartSetsBit(parts[1], k) || PartSetsBit(parts[2], k) || PartSetsBit(parts[3], k)
            || PartSetsBit(parts[4], k) || PartSetsBit(parts[5], k) || PartSetsBit(parts[6], k) || PartSetsBit(parts[7], k)
            || PartSetsBit(parts[8], k) || PartSetsBit(parts[9], k) || PartSetsBit(parts[10], k)
  {
    hide PartSetsBit, OrAll, Bit;
    OrAllBit(parts, k);
  }

  lemma Mod32Bit(w: nat, k: nat)
    requires k < 32
    ensures Bit(w % TWO32, k) <==> Bit(w, k)
  {
    Pow2Of32();
    LowIsMod(w, 32);
    BitLow(w, 32, k);
  }

  /** Every setting of sbcs that can be written reads back as written; sbaccess keeps its declared value
      where it is tied off. */
  lemma SbcsReadsBack(s: Dm, value: nat, k: nat)
    requires Shaped(s.abs) && s.cfg.sbaEnable && 15 <= k <= 20
    ensures Bit(Predict(Step(s, Op.Write(SBCS_ADDR, value)), SBCS_ADDR), k) <==>
            if 17 <= k < 20 && !s.cfg.sbaccessWritable then Bit(s.sba.access, k - 17) else Bit(value, k)
  {
    hide Bit, Extract, SbcsWord;
    var v := value % TWO32;
    var t := Step(s, Op.Write(SBCS_ADDR, value));
    assert t.sba == WriteSbcs(s.sba, s.cfg, v) && t.cfg == s.cfg;
    SbcsBit(t, k);
    Mod32Bit(value, k);
    FlagIsBit(v, 20);
    FlagIsBit(v, 16);
    FlagIsBit(v, 15);
    if 17 <= k < 20 {
      BitExtract(v, 17, 3, k - 17);
    }
  }

  // ---- abstractauto ----

  /** abstractauto reads back as written, masked to the data and progbuf words there are. */
  lemma AbstractautoReadsBack(s: Dm, value: nat, k: nat)
    requires Shaped(s.abs) && !s.busy
    ensures Bit(Predict(Step(s, Op.Write(ABSTRACTAUTO_ADDR, value)), ABSTRACTAUTO_ADDR), k) <==>
            s.cfg.abstractautoEnable && Bit(value, k)
            && ((k < 12 && k < s.cfg.datacount) || (16 <= k < 32 && k - 16 < s.cfg.progbufsize))
  {
    hide Bit, Extract, Low, Shr, OrAll;
    var v, c := value % TWO32, s.cfg;
    var t := Step(s, Op.Write(ABSTRACTAUTO_ADDR, value));
    assert t.abs.abstractauto == v && t.cfg == c;
    if c.abstractautoEnable {
      var parts := [(Low(Shr(v, 16), c.progbufsize), 16), (Low(Low(v, 12), c.datacount), 0)];
      BitLow(OrAll(parts), 32, k);
      OrAllBit(parts, k);
      FieldPart(Shr(v, 16), c.progbufsize, 16, k);
      FieldPart(Low(v, 12), c.datacount, 0, k);
      BitLow(v, 12, k);
      if k >= 16 {
        BitShr(v, 16, k - 16);
      }
      if k < 32 {
        Mod32Bit(value, k);
      }
      assert (exists j :: 0 <= j < |parts| && PartSetsBit(parts[j], k)) <==>
             PartSetsBit(parts[0], k) || PartSetsBit(parts[1], k);
    } else {
      BitZero(k);
    }
  }

  // ---- hawindow ----

  lemma {:induction false} BitAnd(a: nat, b: nat, k: nat)
    ensures Bit(And(a, b), k) <==> Bit(a, k) && Bit(b, k)
    decreases a + b
  {
    if a == 0 || b == 0 {
      BitZero(k);
    } else if k > 0 {
      BitAnd(a / 2, b / 2, k - 1);
    }
  }

  /** hawindow reads back as written, masked to the harts of the selected window that exist. */
  lemma HawindowReadsBack(s: Dm, value: nat, k: nat)
    requires Shaped(s.abs) && s.cfg.hartarrayEnable
    ensures Bit(Predict(Step(s, Op.Write(HAWINDOW_ADDR, value)), HAWINDOW_ADDR), k) <==>
            k < 32 && Bit(value, k) && 32 * s.misc.hawindowsel + k < s.params.numHarts
  {
    hide Bit, And;
    var v, n, sel := value % TWO32, s.params.numHarts, s.misc.hawindowsel;
    var t := Step(s, Op.Write(HAWINDOW_ADDR, value));
    assert t.misc.hawindow[sel] == And(v, HawindowImplemented(n, sel));
    BitAnd(v, HawindowImplemented(n, sel), k);
    BitsWordBit((j: nat) => 32 * sel + j < n, 32, k);
    if k < 32 {
      Mod32Bit(value, k);
    }
  }

  // ---- progbuf ----

  /** A program buffer word reads back as written, whatever command autoexec replays, if it is there and readable. */
  lemma ProgbufReadsBack(s: Dm, i: nat, value: nat)
    requires Shaped(s.abs) && !s.busy && i < 16
    ensures Predict(Step(s, Op.Write(PROGBUF0 + i, value)), PROGBUF0 + i) ==
            if i < s.cfg.progbufsize && s.cfg.progbufReadable then value % TWO32 else 0
  {
    hide ExecuteCommand;
    var a := s.abs;
    if i < s.cfg.progbufsize {
      var b := StoreBuffer(a, PROGBUF0 + i, value % TWO32);
      ExecuteKeepsProgbuf(b, b.lastCommand);
    }
  }

  lemma ExecuteKeepsProgbuf(a: Abs, word: nat)
    requires Shaped(a)
    ensures ExecuteCommand(a, word).progbuf == a.progbuf
  {
    hide DecodeCommand;
  }
}
