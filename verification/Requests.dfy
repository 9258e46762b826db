// What the Python client asks for, what the simulator is handed and what it then
// runs: one operation with its number fields, how they are packed and unpacked
// (src/pydebug/c_bridge/uvm_bridge.c, src/pydebug/api/uvm_transport.py,
// src/pydebug/sv/env/py_bridge.sv).

module Requests {
  import opened Bits
  import opened Registers

  const TWO31 := 0x8000_0000

  datatype OpName =
    | ReadOp | WriteOp | ResetOp | DtmcsOp | DmiScanOp | JtagScanOp | TmsWalkOp | SimTimeOp | LogOp | ShutdownOp
    | UnknownOp

  /** One request, as the client means it or as handle_request parses it from a line. */
  datatype Request = Request(
    id: int, op: OpName, addr: int, data: int, dmiop: int, ir: int, drlen: int, pause: int, text: string)

  /** What the simulator is handed: g_req_op, g_req_addr, g_req_data. */
  datatype SimReq = SimReq(op: int, addr: int, data: int)

  /** `(int)v` */
  function ToInt32(v: int): int
  {
    var w := v % TWO32;
    if w < TWO31 then w else w - TWO32
  }

  /** `(unsigned int)v` */
  function ToUint32(v: int): int { v % TWO32 }

  /** The request fields handle_request fills in; an unknown operation never reaches the simulator. */
  function Handoff(r: Request): SimReq
  {
    match r.op
    case ReadOp => SimReq(1, ToInt32(r.addr), 0)
    case WriteOp => SimReq(2, ToInt32(r.addr), ToUint32(r.data))
    case ResetOp => SimReq(3, 0, 0)
    case ShutdownOp => SimReq(4, 0, ToUint32(r.data))
    case LogOp => SimReq(5, 0, ToUint32(r.data))
    case DtmcsOp => SimReq(6, 0, ToUint32(r.data))
    case DmiScanOp => SimReq(7, r.addr % 128 + (r.dmiop % 4) * 128, ToUint32(r.data))
    case JtagScanOp => SimReq(8, r.ir % 32 + (r.drlen % 64) * 32 + (r.pause % 2) * 2048, ToUint32(r.data))
    case TmsWalkOp => SimReq(9, r.addr % 64, ToUint32(r.data))
    case SimTimeOp => SimReq(10, 0, 0)
    case UnknownOp => SimReq(0, 0, 0)
  }

  predicate RepliesWithData(op: OpName)
  {
    op == ReadOp || op == DtmcsOp || op == DmiScanOp || op == JtagScanOp || op == SimTimeOp
  }

  // ---- The simulator's side ----

  /** What the simulator runs for one request. */
  datatype Task =
    | DmiRead(addr: int)
    | DmiWrite(addr: int, data: int)
    | TapReset
    | Dtmcs(wdata: int)
    | DmiScan(op: int, addr: int, data: int)
    | JtagScan(ir: int, length: int, pause: bool, data: int)
    | TmsWalk(count: int, bits: int)
    | SimTime
    | LogRecord(verbosity: int)
    | Shutdown(failed: int)
    | Ignored

  /** The dispatch of serve(), on the operation code; bit ranges of the address word are its parts. */
  function Dispatch(h: SimReq): Task
  {
    if h.op == 1 then DmiRead(h.addr % 128)
    else if h.op == 2 then DmiWrite(h.addr % 128, h.data)
    else if h.op == 3 then TapReset
    else if h.op == 6 then Dtmcs(h.data)
    else if h.op == 7 then DmiScan((h.addr / 128) % 4, h.addr % 128, h.data)
    else if h.op == 8 then JtagScan(h.addr % 32, (h.addr / 32) % 64, (h.addr / 2048) % 2 == 1, h.data)
    else if h.op == 9 then TmsWalk(h.addr, h.data)
    else if h.op == 10 then SimTime
    else if h.op == 5 then LogRecord(h.data)
    else if h.op == 4 then Shutdown(h.data)
    else Ignored
  }

  /** What the client means by a request. */
  function Meant(r: Request): Task
  {
    match r.op
    case ReadOp => DmiRead(r.addr % 128)
    case WriteOp => DmiWrite(r.addr % 128, r.data % TWO32)
    case ResetOp => TapReset
    case DtmcsOp => Dtmcs(r.data % TWO32)
    case DmiScanOp => DmiScan(r.dmiop % 4, r.addr % 128, r.data % TWO32)
    case JtagScanOp => JtagScan(r.ir % 32, r.drlen % 64, r.pause % 2 == 1, r.data % TWO32)
    case TmsWalkOp => TmsWalk(r.addr % 64, r.data % TWO32)
    case SimTimeOp => SimTime
    case LogOp => LogRecord(r.data % TWO32)
    case ShutdownOp => Shutdown(r.data % TWO32)
    case UnknownOp => Ignored
  }

  /** The simulator runs what the client meant: packing, operation codes and unpacking agree. */
  lemma DispatchedAsMeant(r: Request)
    ensures Dispatch(Handoff(r)) == Meant(r)
  {
    AddressKept(r.addr);
    ScanUnpacks(r.ir % 32, r.drlen % 64, r.pause % 2);
    DmiUnpacks(r.addr % 128, r.dmiop % 4);
  }

  lemma ScanUnpacks(ir: int, length: int, pause: int)
    requires 0 <= ir < 32 && 0 <= length < 64 && 0 <= pause < 2
    ensures var w := ir + length * 32 + pause * 2048;
            w % 32 == ir && (w / 32) % 64 == length && (w / 2048) % 2 == pause
  {
  }

  lemma DmiUnpacks(addr: int, op: int)
    requires 0 <= addr < 128 && 0 <= op < 4
    ensures var w := addr + op * 128; w % 128 == addr && (w / 128) % 4 == op
  {
  }

  lemma AddressKept(v: int)
    ensures ToInt32(v) % 128 == v % 128
  {
    var w := v % TWO32;
    SameSeven(v, v / TWO32, w);
    SameSeven(w, 1, w - TWO32);
  }

  lemma SameSeven(v: int, q: int, w: int)
    requires v == q * TWO32 + w
    ensures v % 128 == w % 128
  {
    var k := q * 0x200_0000;
    assert v == k * 128 + w;
    assert v == (k + w / 128) * 128 + w % 128;
  }

  /** What the slots hold for a request, field by field: the operation's own code, the address or its
      packing, and the data word of every operation that has one. */
  predicate HandedOver(r: Request, h: SimReq)
  {
    var data := 0 <= r.data < TWO32 ==> h.data == r.data;
    match r.op
    case ReadOp => h.op == 1 && (0 <= r.addr < TWO31 ==> h.addr == r.addr)
    case WriteOp => h.op == 2 && (0 <= r.addr < TWO31 ==> h.addr == r.addr) && data
    case ResetOp => h.op == 3
    case ShutdownOp => h.op == 4 && data
    case LogOp => h.op == 5 && data
    case DtmcsOp => h.op == 6 && data
    case DmiScanOp =>
      h.op == 7 && data && (0 <= r.addr < 128 && 0 <= r.dmiop < 4 ==> h.addr == r.dmiop * 128 + r.addr)
    case JtagScanOp =>
      h.op == 8 && data
      && (0 <= r.ir < 32 && 0 <= r.drlen < 64 && 0 <= r.pause < 2 ==> h.addr == r.pause * 2048 + r.drlen * 32 + r.ir)
    case TmsWalkOp => h.op == 9 && data && (0 <= r.addr < 64 ==> h.addr == r.addr)
    case SimTimeOp => h.op == 10
    case UnknownOp => true
  }

  lemma FieldsHandedOver(r: Request)
    ensures HandedOver(r, Handoff(r))
  {
  }

  // ---- The client's operations ----

  function Payload(op: OpName): Request { Request(0, op, -1, 0, 0, 0, 0, 0, "") }

  function JtagScanPayload(ir: int, drLen: int, data: int, pause: bool): Option<Request>
  {
    if 1 <= drLen <= 32 then
      Some(Payload(JtagScanOp).(ir := ir % 32, drlen := drLen, pause := FromBool(pause), data := data % TWO32))
    else None
  }

  function DmiScanPayload(op: int, addr: int, data: int): Request
  {
    Payload(DmiScanOp).(dmiop := op % 4, addr := addr % 128, data := data % TWO32)
  }

  /** `sum(int(b) << i for i, b in enumerate(tms))` */
  function TmsWord(tms: seq<bool>): nat
  {
    if |tms| == 0 then 0 else FromBool(tms[0]) + 2 * TmsWord(tms[1..])
  }

  function TmsWalkPayload(tms: seq<bool>): Option<Request>
  {
    if 1 <= |tms| <= 32 then Some(Payload(TmsWalkOp).(addr := |tms|, data := TmsWord(tms))) else None
  }

  /** The simulator unpacks exactly the scan the client asked for: ir in bits 4:0, length in 10:5, pause in 11. */
  lemma JtagScanCarries(ir: int, drLen: int, data: int, pause: bool)
    ensures JtagScanPayload(ir, drLen, data, pause).Some? <==> 1 <= drLen <= 32
    ensures 1 <= drLen <= 32 ==>
              var h := Handoff(JtagScanPayload(ir, drLen, data, pause).value);
              && 0 <= h.addr < 4096
              && h.addr % 32 == ir % 32 && (h.addr / 32) % 64 == drLen && h.addr / 2048 == FromBool(pause)
              && h.data == data % TWO32
  {
  }

  /** addr in bits 6:0, the DMI operation in 8:7. */
  lemma DmiScanCarries(op: int, addr: int, data: int)
    ensures var h := Handoff(DmiScanPayload(op, addr, data));
            0 <= h.addr < 512 && h.addr % 128 == addr % 128 && h.addr / 128 == op % 4 && h.data == data % TWO32
  {
  }

  lemma {:induction false} TmsWordBits(tms: seq<bool>, k: nat)
    ensures TmsWord(tms) < Pow2(|tms|)
    ensures Bit(TmsWord(tms), k) <==> k < |tms| && tms[k]
  {
    if |tms| == 0 {
      BitZero(k);
    } else {
      TmsWordBits(tms[1..], if k == 0 then 0 else k - 1);
      assert TmsWord(tms) / 2 == TmsWord(tms[1..]);
    }
  }

  lemma {:induction false} Pow2Grows(m: nat, n: nat)
    requires m <= n
    ensures Pow2(m) <= Pow2(n)
  {
    if m < n {
      Pow2Grows(m, n - 1);
    }
  }

  /** Every TMS value of the walk reaches the simulator, in order, with the right count. */
  lemma TmsWalkCarries(tms: seq<bool>, k: nat)
    requires 1 <= |tms| <= 32 && k < |tms|
    ensures var h := Handoff(TmsWalkPayload(tms).value);
            h.addr == |tms| && h.data >= 0 && (Bit(h.data, k) <==> tms[k])
  {
    TmsWordBits(tms, k);
    Pow2Grows(|tms|, 32);
    Pow2Of32();
  }
}
