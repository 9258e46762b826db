// src/pydebug/model/registers.py: the spec-traced register tables and their
// generic codec.

module Registers {
  import opened Bits

  datatype Access = R | RW | W1 | W1C | WARL | WARZ

  /** Every field name used by a register table. */
  datatype Name =
    // dmcontrol
    | haltreq | resumereq | hartreset | ackhavereset | ackunavail | hasel | hartsello | hartselhi
    | setkeepalive | clrkeepalive | setresethaltreq | clrresethaltreq | ndmreset | dmactive
    // dmstatus
    | ndmresetpending | stickyunavail | impebreak | allhavereset | anyhavereset | allresumeack
    | anyresumeack | allnonexistent | anynonexistent | allunavail | anyunavail | allrunning
    | anyrunning | allhalted | anyhalted | authenticated | authbusy | hasresethaltreq
    | confstrptrvalid | version
    // the other DMI registers
    | nscratch | dataaccess | datasize | dataaddr | hawindowsel | maskdata | progbufsize | busy
    | relaxedpriv | cmderr | datacount | cmdtype | control | aarsize | aarpostincrement | postexec
    | transfer | write | regno | aamvirtual | aamsize | aampostincrement | target_specific
    | autoexecprogbuf | autoexecdata | grouptype | dmexttrigger | group | hgwrite | hgselect
    | haltsum0 | haltsum1 | haltsum2 | haltsum3
    // dcsr, the trigger module
    | debugver | ebreakvs | ebreakvu | ebreakm | ebreaks | ebreaku | stepie | stopcount | stoptime
    | cause | v | mprven | nmip | step | prv | uncertain | hit1 | vs | vu | hit0 | select | size
    | action | chain | match_ | m | uncertainen | s | u | execute | store | load | hit | count
    | pending | nmi | info

  datatype Option<+T> = None | Some(value: T)

  datatype Field = Field(name: Name, lsb: nat, width: nat, access: Access, reset: Option<nat> := None) {
    predicate Covers(k: nat) { lsb <= k < lsb + width }
    predicate ReadsZero() { access == W1 || access == WARZ }
    function Get(word: nat): nat { Extract(word, lsb, width) }
    function Put(word: nat, value: nat): nat { Insert(word, lsb, width, value) }
  }

  datatype Register = Register(address: nat, fields: seq<Field>)

  /** A field list given from the top bit down: each field lies strictly below its predecessor. */
  ghost predicate Descending(fields: seq<Field>)
  {
    forall i :: 0 <= i < |fields| - 1 ==> fields[i + 1].lsb + fields[i + 1].width <= fields[i].lsb
  }

  ghost predicate Disjoint(fields: seq<Field>)
  {
    forall i, j :: 0 <= i < j < |fields| ==>
      fields[j].lsb + fields[j].width <= fields[i].lsb || fields[i].lsb + fields[i].width <= fields[j].lsb
  }

  ghost predicate DistinctNames(fields: seq<Field>)
  {
    forall i, j :: 0 <= i < j < |fields| ==> fields[i].name != fields[j].name
  }

  lemma {:induction false} DescendingPair(fields: seq<Field>, i: nat, j: nat)
    requires Descending(fields) && i < j < |fields|
    ensures fields[j].lsb + fields[j].width <= fields[i].lsb
  {
    if i + 1 < j {
      DescendingPair(fields, i, j - 1);
      assert fields[j - 1 + 1] == fields[j];
    }
  }

  lemma DescendingIsDisjoint(fields: seq<Field>)
    requires Descending(fields)
    ensures Disjoint(fields)
  {
    forall i, j | 0 <= i < j < |fields|
      ensures fields[j].lsb + fields[j].width <= fields[i].lsb || fields[i].lsb + fields[i].width <= fields[j].lsb
    {
      DescendingPair(fields, i, j);
    }
  }

  // ---- The generic codec ----

  /** The index of the first field called `name`, or the number of fields. */
  function Lookup(fields: seq<Field>, name: Name): (i: nat)
    ensures i <= |fields|
    ensures i < |fields| ==> fields[i].name == name
    ensures forall j :: 0 <= j < i ==> fields[j].name != name
  {
    if |fields| == 0 then 0
    else if fields[0].name == name then 0
    else 1 + Lookup(fields[1..], name)
  }

  predicate Known(fields: seq<Field>, values: seq<(Name, nat)>)
  {
    forall i :: 0 <= i < |values| ==> Lookup(fields, values[i].0) < |fields|
  }

  ghost predicate Distinct(values: seq<(Name, nat)>)
  {
    forall i, j :: 0 <= i < j < |values| ==> values[i].0 != values[j].0
  }

  function FieldNamed(fields: seq<Field>, name: Name): Field
    requires Lookup(fields, name) < |fields|
  {
    fields[Lookup(fields, name)]
  }

  /** The word after writing the given fields, in order, into an all-zero word. */
  function Encoded(fields: seq<Field>, values: seq<(Name, nat)>): nat
    requires Known(fields, values)
  {
    if |values| == 0 then 0
    else
      var last := |values| - 1;
      FieldNamed(fields, values[last].0).Put(Encoded(fields, values[..last]), values[last].1)
  }

  /** Register.encode: None is the KeyError of an unknown field name. */
  method Encode(r: Register, values: seq<(Name, nat)>) returns (word: Option<nat>)
    ensures word.Some? <==> Known(r.fields, values)
    ensures word.Some? ==> word.value == Encoded(r.fields, values)
  {
    var w := 0;
    for n := 0 to |values|
      invariant Known(r.fields, values[..n])
      invariant w == Encoded(r.fields, values[..n])
    {
      var i := Lookup(r.fields, values[n].0);
      if i == |r.fields| {
        return None;
      }
      assert values[..n + 1][..n] == values[..n];
      w := r.fields[i].Put(w, values[n].1);
    }
    assert values[..|values|] == values;
    return Some(w);
  }

  /** Register.decode, in field order. */
  function Decoded(fields: seq<Field>, word: nat): (values: seq<(Name, nat)>)
    ensures |values| == |fields|
    ensures forall i :: 0 <= i < |fields| ==> values[i] == (fields[i].name, fields[i].Get(word))
  {
    if |fields| == 0 then []
    else [(fields[0].name, fields[0].Get(word))] + Decoded(fields[1..], word)
  }

  /** Some named value puts a 1 at bit `k`. */
  ghost predicate SetsBit(fields: seq<Field>, values: seq<(Name, nat)>, k: nat)
    requires Known(fields, values)
  {
    exists j :: 0 <= j < |values| && ValueSetsBit(fields, values[j], k)
  }

  predicate ValueSetsBit(fields: seq<Field>, value: (Name, nat), k: nat)
    requires Lookup(fields, value.0) < |fields|
  {
    var f := FieldNamed(fields, value.0);
    f.Covers(k) && Bit(value.1, k - f.lsb)
  }

  /** With disjoint fields the encoding is the union of its fields, whatever their order. */
  lemma {:induction false} EncodedBit(fields: seq<Field>, values: seq<(Name, nat)>, k: nat)
    requires Disjoint(fields) && Known(fields, values) && Distinct(values)
    ensures Bit(Encoded(fields, values), k) <==> SetsBit(fields, values, k)
  {
    if |values| == 0 {
      BitZero(k);
    } else {
      var last := |values| - 1;
      var init := values[..last];
      EncodedBit(fields, init, k);
      var f := FieldNamed(fields, values[last].0);
      BitInsert(Encoded(fields, init), f.lsb, f.width, values[last].1, k);
      SplitLast(fields, values, k);
      if f.Covers(k) {
        OneCoverer(fields, values, last, k);
      }
    }
  }

  lemma {:induction false} SplitLast(fields: seq<Field>, values: seq<(Name, nat)>, k: nat)
    requires Known(fields, values) && |values| > 0
    ensures SetsBit(fields, values, k) <==>
            SetsBit(fields, values[..|values| - 1], k) || ValueSetsBit(fields, values[|values| - 1], k)
  {
    var last := |values| - 1;
    var init := values[..last];
    if SetsBit(fields, init, k) {
      var j :| 0 <= j < |init| && ValueSetsBit(fields, init[j], k);
      assert values[j] == init[j];
    }
    if SetsBit(fields, values, k) {
      var j :| 0 <= j < |values| && ValueSetsBit(fields, values[j], k);
      assert j < last ==> init[j] == values[j];
    }
  }

  /** A bit covered by the field of one named value can be set by that value only. */
  lemma {:induction false} OneCoverer(fields: seq<Field>, values: seq<(Name, nat)>, j: nat, k: nat)
    requires Disjoint(fields) && Known(fields, values) && Distinct(values) && j < |values|
    requires FieldNamed(fields, values[j].0).Covers(k)
    ensures forall i :: 0 <= i < |values| && i != j ==> !ValueSetsBit(fields, values[i], k)
    ensures j == |values| - 1 ==> !SetsBit(fields, values[..j], k)
  {
    forall i | 0 <= i < |values| && i != j ensures !ValueSetsBit(fields, values[i], k) {
      assert values[i].0 != values[j].0;
      assert Lookup(fields, values[i].0) != Lookup(fields, values[j].0);
    }
  }

  lemma {:induction false} GetEncodedBit(fields: seq<Field>, values: seq<(Name, nat)>, j: nat, k: nat)
    requires Disjoint(fields) && Known(fields, values) && Distinct(values) && j < |values|
    ensures var f := FieldNamed(fields, values[j].0);
            Bit(f.Get(Encoded(fields, values)), k) <==> Bit(Low(values[j].1, f.width), k)
  {
    var f, w := FieldNamed(fields, values[j].0), Encoded(fields, values);
    BitExtract(w, f.lsb, f.width, k);
    BitLow(values[j].1, f.width, k);
    if k < f.width {
      EncodedBit(fields, values, f.lsb + k);
      OneCoverer(fields, values, j, f.lsb + k);
    }
  }

  /** decode after encode: a named field reads back truncated to its width. */
  lemma {:induction false} EncodeThenGet(fields: seq<Field>, values: seq<(Name, nat)>, j: nat)
    requires Disjoint(fields) && Known(fields, values) && Distinct(values) && j < |values|
    ensures FieldNamed(fields, values[j].0).Get(Encoded(fields, values))
            == Low(values[j].1, FieldNamed(fields, values[j].0).width)
  {
    var f := FieldNamed(fields, values[j].0);
    forall k: nat
      ensures Bit(f.Get(Encoded(fields, values)), k) <==> Bit(Low(values[j].1, f.width), k)
    {
      GetEncodedBit(fields, values, j, k);
    }
    SameBits(f.Get(Encoded(fields, values)), Low(values[j].1, f.width));
  }

  lemma {:induction false} LookupAt(fields: seq<Field>, i: nat)
    requires DistinctNames(fields) && i < |fields|
    ensures Lookup(fields, fields[i].name) == i
  {
    var l := Lookup(fields, fields[i].name);
    assert l <= i;
  }

  lemma {:induction false} UnnamedBit(fields: seq<Field>, values: seq<(Name, nat)>, i: nat, k: nat)
    requires Disjoint(fields) && DistinctNames(fields) && Known(fields, values) && Distinct(values)
    requires i < |fields|
    requires forall j :: 0 <= j < |values| ==> values[j].0 != fields[i].name
    ensures !Bit(fields[i].Get(Encoded(fields, values)), k)
  {
    var f := fields[i];
    BitExtract(Encoded(fields, values), f.lsb, f.width, k);
    if k < f.width {
      EncodedBit(fields, values, f.lsb + k);
      forall j | 0 <= j < |values| ensures !ValueSetsBit(fields, values[j], f.lsb + k) {
        var l := Lookup(fields, values[j].0);
        assert fields[l].name == values[j].0 && l != i;
      }
    }
  }

  /** decode after encode: a field that was not named reads back 0. */
  lemma {:induction false} EncodeThenGetOther(fields: seq<Field>, values: seq<(Name, nat)>, i: nat)
    requires Disjoint(fields) && DistinctNames(fields) && Known(fields, values) && Distinct(values)
    requires i < |fields| && forall j :: 0 <= j < |values| ==> values[j].0 != fields[i].name
    ensures fields[i].Get(Encoded(fields, values)) == 0
  {
    forall k: nat ensures Bit(fields[i].Get(Encoded(fields, values)), k) <==> Bit(0, k) {
      BitZero(k);
      UnnamedBit(fields, values, i, k);
    }
    SameBits(fields[i].Get(Encoded(fields, values)), 0);
  }

  /** Some field of the register covers bit `k`. */
  ghost predicate Mapped(fields: seq<Field>, k: nat)
  {
    exists i :: 0 <= i < |fields| && fields[i].Covers(k)
  }

  lemma {:induction false} DecodedIsDistinct(fields: seq<Field>, word: nat)
    requires DistinctNames(fields)
    ensures Distinct(Decoded(fields, word))
  {
  }

  lemma {:induction false} DecodedSetsBit(fields: seq<Field>, word: nat, i: nat, k: nat)
    requires DistinctNames(fields) && i < |fields|
    ensures Lookup(fields, Decoded(fields, word)[i].0) == i
    ensures ValueSetsBit(fields, Decoded(fields, word)[i], k) <==> fields[i].Covers(k) && Bit(word, k)
  {
    hide Bit, Extract, Lookup, Decoded;
    LookupAt(fields, i);
    if fields[i].Covers(k) {
      BitExtract(word, fields[i].lsb, fields[i].width, k - fields[i].lsb);
    }
  }

  lemma {:induction false} DecodedIsKnown(fields: seq<Field>, word: nat)
    requires DistinctNames(fields)
    ensures Known(fields, Decoded(fields, word))
  {
    hide Lookup, Decoded;
    forall i | 0 <= i < |fields| ensures Lookup(fields, fields[i].name) == i {
      LookupAt(fields, i);
    }
  }

  lemma {:induction false} DecodedSetsBits(fields: seq<Field>, word: nat, k: nat)
    requires DistinctNames(fields) && Known(fields, Decoded(fields, word))
    ensures SetsBit(fields, Decoded(fields, word), k) <==> Mapped(fields, k) && Bit(word, k)
  {
    hide Bit, ValueSetsBit, Lookup, Decoded;
    var values := Decoded(fields, word);
    forall i | 0 <= i < |fields|
      ensures ValueSetsBit(fields, values[i], k) <==> fields[i].Covers(k) && Bit(word, k)
    {
      DecodedSetsBit(fields, word, i, k);
    }
  }

  /** encode after decode: the word masked to the register's fields. */
  lemma {:induction false} DecodeThenEncode(fields: seq<Field>, word: nat, k: nat)
    requires Disjoint(fields) && DistinctNames(fields)
    ensures Known(fields, Decoded(fields, word))
    ensures Bit(Encoded(fields, Decoded(fields, word)), k) <==> Mapped(fields, k) && Bit(word, k)
  {
    hide Bit, Lookup, Decoded, Encoded, SetsBit, Mapped;
    DecodedIsKnown(fields, word);
    DecodedIsDistinct(fields, word);
    EncodedBit(fields, Decoded(fields, word), k);
    DecodedSetsBits(fields, word, k);
  }

  /** The order in which keyword arguments reach encode does not matter. */
  lemma {:induction false} EncodeOrderIrrelevant(fields: seq<Field>, p: seq<(Name, nat)>, q: seq<(Name, nat)>)
    requires Disjoint(fields) && Known(fields, p) && Known(fields, q) && Distinct(p) && Distinct(q)
    requires forall x :: x in p <==> x in q
    ensures Encoded(fields, p) == Encoded(fields, q)
  {
    forall k: nat ensures Bit(Encoded(fields, p), k) <==> Bit(Encoded(fields, q), k) {
      EncodedBit(fields, p, k);
      EncodedBit(fields, q, k);
      SetsBitSubset(fields, p, q, k);
      SetsBitSubset(fields, q, p, k);
    }
    SameBits(Encoded(fields, p), Encoded(fields, q));
  }

  lemma {:induction false} SetsBitSubset(fields: seq<Field>, p: seq<(Name, nat)>, q: seq<(Name, nat)>, k: nat)
    requires Known(fields, p) && Known(fields, q)
    requires forall x :: x in p ==> x in q
    ensures SetsBit(fields, p, k) ==> SetsBit(fields, q, k)
  {
    if SetsBit(fields, p, k) {
      var i :| 0 <= i < |p| && ValueSetsBit(fields, p[i], k);
      assert p[i] in q;
      var j :| 0 <= j < |q| && q[j] == p[i];
      assert ValueSetsBit(fields, q[j], k);
    }
  }

  // ---- The tables ----

  const DMCONTROL := Register(0x10, [
    Field(haltreq, 31, 1, WARZ), Field(resumereq, 30, 1, W1), Field(hartreset, 29, 1, WARL, Some(0)),
    Field(ackhavereset, 28, 1, W1), Field(ackunavail, 27, 1, W1), Field(hasel, 26, 1, WARL, Some(0)),
    Field(hartsello, 16, 10, WARL, Some(0)), Field(hartselhi, 6, 10, WARL, Some(0)),
    Field(setkeepalive, 5, 1, W1), Field(clrkeepalive, 4, 1, W1), Field(setresethaltreq, 3, 1, W1),
    Field(clrresethaltreq, 2, 1, W1), Field(ndmreset, 1, 1, RW, Some(0)), Field(dmactive, 0, 1, RW, Some(0))])

  const DMSTATUS := Register(0x11, [
    Field(ndmresetpending, 24, 1, R), Field(stickyunavail, 23, 1, R), Field(impebreak, 22, 1, R),
    Field(allhavereset, 19, 1, R), Field(anyhavereset, 18, 1, R), Field(allresumeack, 17, 1, R),
    Field(anyresumeack, 16, 1, R), Field(allnonexistent, 15, 1, R), Field(anynonexistent, 14, 1, R),
    Field(allunavail, 13, 1, R), Field(anyunavail, 12, 1, R), Field(allrunning, 11, 1, R),
    Field(anyrunning, 10, 1, R), Field(allhalted, 9, 1, R), Field(anyhalted, 8, 1, R),
    Field(authenticated, 7, 1, R), Field(authbusy, 6, 1, R), Field(hasresethaltreq, 5, 1, R),
    Field(confstrptrvalid, 4, 1, R), Field(version, 0, 4, R, Some(3))])

  const HARTINFO := Register(0x12, [
    Field(nscratch, 20, 4, R), Field(dataaccess, 16, 1, R), Field(datasize, 12, 4, R), Field(dataaddr, 0, 12, R)])
  const HAWINDOWSEL := Register(0x14, [Field(hawindowsel, 0, 15, WARL, Some(0))])
  const HAWINDOW := Register(0x15, [Field(maskdata, 0, 32, WARL, Some(0))])
  const ABSTRACTCS := Register(0x16, [
    Field(progbufsize, 24, 5, R), Field(busy, 12, 1, R, Some(0)), Field(relaxedpriv, 11, 1, WARL),
    Field(cmderr, 8, 3, W1C, Some(0)), Field(datacount, 0, 4, R)])
  const COMMAND := Register(0x17, [Field(cmdtype, 24, 8, WARL), Field(control, 0, 24, WARL)])
  const ACCESS_REGISTER := Register(0x17, [
    Field(aarsize, 20, 3, WARL), Field(aarpostincrement, 19, 1, WARL), Field(postexec, 18, 1, WARL),
    Field(transfer, 17, 1, WARL), Field(write, 16, 1, WARL), Field(regno, 0, 16, WARL)])
  const ACCESS_MEMORY := Register(0x17, [
    Field(aamvirtual, 23, 1, WARL), Field(aamsize, 20, 3, WARL), Field(aampostincrement, 19, 1, WARL),
    Field(write, 16, 1, WARL), Field(target_specific, 14, 2, WARL)])
  const ABSTRACTAUTO := Register(0x18, [
    Field(autoexecprogbuf, 16, 16, WARL, Some(0)), Field(autoexecdata, 0, 12, WARL, Some(0))])
  const DMCS2 := Register(0x32, [
    Field(grouptype, 11, 1, WARL, Some(0)), Field(dmexttrigger, 7, 4, WARL, Some(0)), Field(group, 2, 5, WARL, Some(0)),
    Field(hgwrite, 1, 1, W1), Field(hgselect, 0, 1, WARL, Some(0))])
  const HALTSUM0 := Register(0x40, [Field(haltsum0, 0, 32, R)])
  const HALTSUM1 := Register(0x13, [Field(haltsum1, 0, 32, R)])
  const HALTSUM2 := Register(0x34, [Field(haltsum2, 0, 32, R)])
  const HALTSUM3 := Register(0x35, [Field(haltsum3, 0, 32, R)])
  const DCSR := Register(0x7B0, [
    Field(debugver, 28, 4, R, Some(4)), Field(ebreakvs, 17, 1, WARL, Some(0)), Field(ebreakvu, 16, 1, WARL, Some(0)),
    Field(ebreakm, 15, 1, RW, Some(0)), Field(ebreaks, 13, 1, WARL, Some(0)), Field(ebreaku, 12, 1, WARL, Some(0)),
    Field(stepie, 11, 1, WARL, Some(0)), Field(stopcount, 10, 1, WARL), Field(stoptime, 9, 1, WARL),
    Field(cause, 6, 3, R), Field(v, 5, 1, WARL, Some(0)), Field(mprven, 4, 1, WARL), Field(nmip, 3, 1, R),
    Field(step, 2, 1, RW, Some(0)), Field(prv, 0, 2, WARL)])
  const MCONTROL6 := Register(0x7A1, [
    Field(uncertain, 26, 1, WARL, Some(0)), Field(hit1, 25, 1, WARL, Some(0)), Field(vs, 24, 1, WARL, Some(0)),
    Field(vu, 23, 1, WARL, Some(0)), Field(hit0, 22, 1, WARL, Some(0)), Field(select, 21, 1, WARL, Some(0)),
    Field(size, 16, 3, WARL, Some(0)), Field(action, 12, 4, WARL, Some(0)), Field(chain, 11, 1, WARL, Some(0)),
    Field(match_, 7, 4, WARL, Some(0)), Field(m, 6, 1, WARL, Some(0)), Field(uncertainen, 5, 1, WARL, Some(0)),
    Field(s, 4, 1, WARL, Some(0)), Field(u, 3, 1, WARL, Some(0)), Field(execute, 2, 1, WARL, Some(0)),
    Field(store, 1, 1, WARL, Some(0)), Field(load, 0, 1, WARL, Some(0))])
  const ICOUNT := Register(0x7A1, [
    Field(vs, 26, 1, WARL, Some(0)), Field(vu, 25, 1, WARL, Some(0)), Field(hit, 24, 1, WARL, Some(0)),
    Field(count, 10, 14, WARL, Some(1)), Field(m, 9, 1, WARL, Some(0)), Field(pending, 8, 1, RW, Some(0)),
    Field(s, 7, 1, WARL, Some(0)), Field(u, 6, 1, WARL, Some(0)), Field(action, 0, 6, WARL, Some(0))])
  const ITRIGGER := Register(0x7A1, [
    Field(hit, 24, 1, WARL, Some(0)), Field(vs, 12, 1, WARL, Some(0)), Field(vu, 11, 1, WARL, Some(0)),
    Field(nmi, 10, 1, WARL, Some(0)), Field(m, 9, 1, WARL, Some(0)), Field(s, 7, 1, WARL, Some(0)),
    Field(u, 6, 1, WARL, Some(0)), Field(action, 0, 6, WARL, Some(0))])
  const ETRIGGER := Register(0x7A1, [
    Field(hit, 24, 1, WARL, Some(0)), Field(vs, 12, 1, WARL, Some(0)), Field(vu, 11, 1, WARL, Some(0)),
    Field(m, 9, 1, WARL, Some(0)), Field(s, 7, 1, WARL, Some(0)), Field(u, 6, 1, WARL, Some(0)),
    Field(action, 0, 6, WARL, Some(0))])
  const TINFO := Register(0x7A4, [Field(version, 24, 8, R), Field(info, 0, 16, R)])

  lemma DmcontrolDescending()
    ensures Descending(DMCONTROL.fields)
  {
  }

  lemma DmcontrolDisjoint()
    ensures Disjoint(DMCONTROL.fields)
  {
    DmcontrolDescending();
    DescendingIsDisjoint(DMCONTROL.fields);
  }

  /** Where a dmcontrol field stands in its table. */
  function ControlPosition(name: Name): nat
  {
    match name
    case haltreq => 0 case resumereq => 1 case hartreset => 2 case ackhavereset => 3 case ackunavail => 4
    case hasel => 5 case hartsello => 6 case hartselhi => 7 case setkeepalive => 8 case clrkeepalive => 9
    case setresethaltreq => 10 case clrresethaltreq => 11 case ndmreset => 12 case dmactive => 13
    case _ => 14
  }

  lemma ControlPositions(i: nat)
    requires i < 14
    ensures ControlPosition(DMCONTROL.fields[i].name) == i
  {
  }

  lemma DmcontrolNames()
    ensures DistinctNames(DMCONTROL.fields)
  {
    hide ControlPosition;
    forall i, j | 0 <= i < j < 14 ensures DMCONTROL.fields[i].name != DMCONTROL.fields[j].name {
      ControlPositions(i);
      ControlPositions(j);
    }
  }

  lemma DmstatusDescending()
    ensures Descending(DMSTATUS.fields)
  {
  }

  lemma DmstatusDisjoint()
    ensures Disjoint(DMSTATUS.fields)
  {
    DmstatusDescending();
    DescendingIsDisjoint(DMSTATUS.fields);
  }

  /** Where a dmstatus field stands in its table. */
  function StatusPosition(name: Name): nat
  {
    match name
    case ndmresetpending => 0 case stickyunavail => 1 case impebreak => 2 case allhavereset => 3
    case anyhavereset => 4 case allresumeack => 5 case anyresumeack => 6 case allnonexistent => 7
    case anynonexistent => 8 case allunavail => 9 case anyunavail => 10 case allrunning => 11
    case anyrunning => 12 case allhalted => 13 case anyhalted => 14 case authenticated => 15
    case authbusy => 16 case hasresethaltreq => 17 case confstrptrvalid => 18 case version => 19
    case _ => 20
  }

  lemma StatusPositionsHigh(i: nat)
    requires i < 7
    ensures StatusPosition(DMSTATUS.fields[i].name) == i
  {
  }

  lemma StatusPositionsMiddle(i: nat)
    requires 7 <= i < 14
    ensures StatusPosition(DMSTATUS.fields[i].name) == i
  {
  }

  lemma StatusPositionsLow(i: nat)
    requires 14 <= i < 20
    ensures StatusPosition(DMSTATUS.fields[i].name) == i
  {
  }

  lemma StatusPositions(i: nat)
    requires i < 20
    ensures StatusPosition(DMSTATUS.fields[i].name) == i
  {
    hide StatusPosition;
    if i < 7 {
      StatusPositionsHigh(i);
    } else if i < 14 {
      StatusPositionsMiddle(i);
    } else {
      StatusPositionsLow(i);
    }
  }

  lemma DmstatusNames()
    ensures DistinctNames(DMSTATUS.fields)
  {
    hide StatusPosition;
    forall i, j | 0 <= i < j < 20 ensures DMSTATUS.fields[i].name != DMSTATUS.fields[j].name {
      StatusPositions(i);
      StatusPositions(j);
    }
  }

  lemma Dmcs2Descending()
    ensures Descending(DMCS2.fields)
  {
  }

  lemma Dmcs2Table()
    ensures Disjoint(DMCS2.fields)
  {
    Dmcs2Descending();
    hide Descending;
    DescendingIsDisjoint(DMCS2.fields);
  }

  lemma Dmcs2Names()
    ensures DistinctNames(DMCS2.fields)
  {
  }

  lemma DcsrDescending()
    ensures Descending(DCSR.fields)
  {
  }

  lemma DcsrTable()
    ensures Disjoint(DCSR.fields)
  {
    DcsrDescending();
    hide Descending;
    DescendingIsDisjoint(DCSR.fields);
  }

  lemma Mcontrol6Descending()
    ensures Descending(MCONTROL6.fields)
  {
  }

  lemma Mcontrol6Table()
    ensures Disjoint(MCONTROL6.fields)
  {
    Mcontrol6Descending();
    hide Descending;
    DescendingIsDisjoint(MCONTROL6.fields);
  }

  lemma IcountDescending()
    ensures Descending(ICOUNT.fields)
  {
  }

  lemma IcountTable()
    ensures Disjoint(ICOUNT.fields)
  {
    IcountDescending();
    hide Descending;
    DescendingIsDisjoint(ICOUNT.fields);
  }

  lemma ItriggerDescending()
    ensures Descending(ITRIGGER.fields)
  {
  }

  lemma ItriggerTable()
    ensures Disjoint(ITRIGGER.fields)
  {
    ItriggerDescending();
    hide Descending;
    DescendingIsDisjoint(ITRIGGER.fields);
  }

  lemma EtriggerDescending()
    ensures Descending(ETRIGGER.fields)
  {
  }

  lemma EtriggerTable()
    ensures Disjoint(ETRIGGER.fields)
  {
    EtriggerDescending();
    hide Descending;
    DescendingIsDisjoint(ETRIGGER.fields);
  }

  lemma SmallTables()
    ensures Disjoint(TINFO.fields) && Disjoint(HARTINFO.fields) && Disjoint(ABSTRACTCS.fields)
    ensures Disjoint(ACCESS_REGISTER.fields) && Disjoint(ACCESS_MEMORY.fields) && Disjoint(ABSTRACTAUTO.fields)
  {
    assert Descending(ABSTRACTCS.fields) && Descending(ACCESS_REGISTER.fields) && Descending(ACCESS_MEMORY.fields);
    DescendingIsDisjoint(TINFO.fields);
    DescendingIsDisjoint(HARTINFO.fields);
    DescendingIsDisjoint(ABSTRACTCS.fields);
    DescendingIsDisjoint(ACCESS_REGISTER.fields);
    DescendingIsDisjoint(ACCESS_MEMORY.fields);
    DescendingIsDisjoint(ABSTRACTAUTO.fields);
  }

  /** No declared table gives one bit to two fields. */
  lemma TablesDisjoint(r: Register)
    requires r in {DMCONTROL, DMSTATUS, HARTINFO, HAWINDOWSEL, HAWINDOW, ABSTRACTCS, COMMAND,
                   ACCESS_REGISTER, ACCESS_MEMORY, ABSTRACTAUTO, DMCS2, HALTSUM0, HALTSUM1,
                   HALTSUM2, HALTSUM3, DCSR, MCONTROL6, ICOUNT, ITRIGGER, ETRIGGER, TINFO}
    ensures Disjoint(r.fields)
  {
    DmcontrolDisjoint();
    DmstatusDisjoint();
    Dmcs2Table();
    DcsrTable();
    Mcontrol6Table();
    IcountTable();
    ItriggerTable();
    EtriggerTable();
    SmallTables();
  }
}
