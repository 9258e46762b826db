// The socket bridge between the Python client, the server thread and the polling
// simulator (src/pydebug/c_bridge/uvm_bridge.c, src/pydebug/api/uvm_transport.py):
// a state machine whose steps are the critical-section events of the three
// parties, in any interleaving. The client sends printed lines and the server
// parses what fgets makes of them.

module Bridge {
  import opened Registers
  import opened Requests
  import LineProtocol
  import opened BridgeLines
  import opened ReceivedLines

  datatype Reply = Reply(id: int, ok: bool, data: Option<int>, xmask: int)

  /** What became of one request: the simulator's answer to it, or a refusal by the server. */
  datatype Outcome = Answered(request: SimReq, text: Option<string>, data: int, xmask: int) | Refused

  datatype ServerPc =
    | Idle
    | Parsed(r: Request)
    | Locked(r: Request)
    | TextWritten(r: Request)
    | Published(r: Request)
    | Checking(r: Request)
    | Blocked(r: Request)
    | Woken(r: Request)
    | Replying(reply: Reply)

  datatype SimPc =
    | Polling
    | Getting
    | Missed
    | Got(request: SimReq)
    | Taken(request: SimReq, seen: Option<string>)
    | Putting(request: SimReq, seen: Option<string>, data: int, xmask: int)
    | Written
    | Signalled

  datatype ClientPc = Ready | Waiting(id: int)

  datatype Owner = Free | Server | Sim

  datatype State = State(
    client: ClientPc, sent: seq<Request>, wire: seq<string>, received: nat, accepted: seq<Reply>,
    server: ServerPc, taken: nat, replied: seq<Reply>,
    owner: Owner, reqValid: bool, req: SimReq, text: string, rspValid: bool, rspData: int, rspXmask: int,
    sim: SimPc, outcomes: seq<Outcome>)

  function Initial(): State
  {
    State(Ready, [], [], 0, [], Idle, 0, [], Free, false, SimReq(0, 0, 0), "", false, 0, 0, Polling, [])
  }

  datatype Event =
    // _transact: under the client's own lock, so one request is outstanding at most
    | ClientSend(payload: Request) | ClientReceive | ClientTimeout
    // handle_request
    | ServerTake | ServerRefuse | ServerLock | ServerWriteText | ServerPublish | ServerClear | ServerCheck
    | ServerSpuriousWake | ServerRelock | ServerSend
    // dpi_bridge_get_req, dpi_bridge_get_text, dpi_bridge_put_rsp(_x)
    | SimLockGet | SimGet | SimUnlockGet | SimReadText | SimLockPut(data: int, xmask: int) | SimWrite | SimSignal
    | SimUnlockPut

  predicate ByServer(e: Event)
  {
    e.ServerTake? || e.ServerRefuse? || e.ServerLock? || e.ServerWriteText? || e.ServerPublish? || e.ServerClear?
    || e.ServerCheck? || e.ServerSpuriousWake? || e.ServerRelock? || e.ServerSend?
  }

  predicate BySim(e: Event)
  {
    e.SimLockGet? || e.SimGet? || e.SimUnlockGet? || e.SimLockPut? || e.SimWrite? || e.SimSignal? || e.SimUnlockPut?
  }

  function ReplyTo(r: Request, data: int, xmask: int): Reply
  {
    if RepliesWithData(r.op) then Reply(r.id, true, Some(data), xmask) else Reply(r.id, true, None, 0)
  }

  predicate Enabled(s: State, e: Event)
  {
    match e
    case ClientSend(payload) => s.client.Ready? && payload.op != UnknownOp
    case ClientReceive => s.client.Waiting? && s.received < |s.replied|
    case ClientTimeout => s.client.Waiting?
    case ServerTake => s.server.Idle? && s.taken < |s.wire|
    case ServerRefuse => s.server.Parsed? && s.server.r.op == UnknownOp
    case ServerLock => s.server.Parsed? && s.server.r.op != UnknownOp && s.owner.Free?
    case ServerWriteText => s.server.Locked? && s.server.r.op == LogOp
    case ServerPublish => s.server.TextWritten? || (s.server.Locked? && s.server.r.op != LogOp)
    case ServerClear => s.server.Published?
    case ServerCheck => s.server.Checking?
    case ServerSpuriousWake => s.server.Blocked?
    case ServerRelock => s.server.Woken? && s.owner.Free?
    case ServerSend => s.server.Replying?
    case SimLockGet => s.sim.Polling? && s.owner.Free?
    case SimGet => s.sim.Getting?
    case SimUnlockGet => s.sim.Missed? || s.sim.Got?
    case SimReadText => s.sim.Taken?
    case SimLockPut(_, _) => s.sim.Taken? && s.owner.Free?
    case SimWrite => s.sim.Putting?
    case SimSignal => s.sim.Written?
    case SimUnlockPut => s.sim.Signalled?
  }

  function Apply(s: State, e: Event): State
    requires Enabled(s, e)
  {
    match e
    case ClientSend(payload) =>
      var id := |s.sent| + 1;
      var request := payload.(id := id);
      s.(client := Waiting(id), sent := s.sent + [request], wire := s.wire + Pieces(Printed(request)))
    case ClientReceive =>
      var reply := s.replied[s.received];
      s.(client := Ready, received := s.received + 1,
         accepted := if reply.id == s.client.id && reply.ok then s.accepted + [reply] else s.accepted)
    case ClientTimeout => s.(client := Ready)
    case ServerTake => s.(server := Parsed(Understood(s.wire[s.taken])), taken := s.taken + 1)
    case ServerRefuse =>
      s.(server := Replying(Reply(s.server.r.id, false, None, 0)), outcomes := s.outcomes + [Refused])
    case ServerLock => s.(server := Locked(s.server.r), owner := Server)
    case ServerWriteText => s.(server := TextWritten(s.server.r), text := s.server.r.text)
    case ServerPublish => s.(server := Published(s.server.r), req := Handoff(s.server.r), reqValid := true)
    case ServerClear => s.(server := Checking(s.server.r), rspValid := false)
    case ServerCheck =>
      if s.rspValid then s.(server := Replying(ReplyTo(s.server.r, s.rspData, s.rspXmask)), owner := Free)
      else s.(server := Blocked(s.server.r), owner := Free)
    case ServerSpuriousWake => s.(server := Woken(s.server.r))
    case ServerRelock => s.(server := Checking(s.server.r), owner := Server)
    case ServerSend => s.(server := Idle, replied := s.replied + [s.server.reply])
    case SimLockGet => s.(sim := Getting, owner := Sim)
    case SimGet => if s.reqValid then s.(sim := Got(s.req), reqValid := false) else s.(sim := Missed)
    case SimUnlockGet => s.(sim := if s.sim.Got? then Taken(s.sim.request, None) else Polling, owner := Free)
    case SimReadText => s.(sim := Taken(s.sim.request, Some(s.text)))
    case SimLockPut(data, xmask) => s.(sim := Putting(s.sim.request, s.sim.seen, data, xmask), owner := Sim)
    case SimWrite =>
      s.(sim := Written, rspData := s.sim.data, rspXmask := s.sim.xmask, rspValid := true,
         outcomes := s.outcomes + [Answered(s.sim.request, s.sim.seen, s.sim.data, s.sim.xmask)])
    case SimSignal => s.(sim := Signalled, server := if s.server.Blocked? then Woken(s.server.r) else s.server)
    case SimUnlockPut => s.(sim := Polling, owner := Free)
  }

  /** A schedule may propose any event at any time; one that is not enabled does not happen. */
  function Step(s: State, e: Event): State { if Enabled(s, e) then Apply(s, e) else s }

  function After(events: seq<Event>): State
  {
    if |events| == 0 then Initial() else Step(After(events[..|events| - 1]), events[|events| - 1])
  }

  // ---- The invariant ----

  /** The server has handed its request over and waits for the answer. */
  predicate Pending(pc: ServerPc) { pc.Checking? || pc.Blocked? || pc.Woken? }

  predicate HasRequest(pc: ServerPc) { !pc.Idle? && !pc.Replying? }

  /** Where a handed-over request is: in the slot, with the simulator, or answered. */
  predicate InSlot(s: State, r: Request)
  {
    s.reqValid && s.req == Handoff(r) && !s.rspValid && |s.outcomes| == s.taken - 1
    && (s.sim.Polling? || s.sim.Getting? || s.sim.Missed?)
  }

  predicate WithSim(s: State, r: Request)
  {
    !s.reqValid && s.req == Handoff(r) && !s.rspValid && |s.outcomes| == s.taken - 1
    && (s.sim.Got? || s.sim.Taken? || s.sim.Putting?) && s.sim.request == Handoff(r)
    && (!s.sim.Got? && s.sim.seen.Some? && r.op == LogOp ==> s.sim.seen.value == r.text)
  }

  predicate Settled(s: State, r: Request)
  {
    !s.reqValid && s.rspValid && |s.outcomes| == s.taken && s.taken > 0
    && Answers(r, s.outcomes[s.taken - 1])
    && s.rspData == s.outcomes[s.taken - 1].data && s.rspXmask == s.outcomes[s.taken - 1].xmask
    && (s.sim.Written? || s.sim.Signalled? || s.sim.Polling? || s.sim.Getting? || s.sim.Missed?)
  }

  /** The simulator answered exactly this request, and read this request's text if it read any. */
  predicate Answers(r: Request, o: Outcome)
  {
    o.Answered? && r.op != UnknownOp && o.request == Handoff(r)
    && (r.op == LogOp && o.text.Some? ==> o.text.value == r.text)
  }

  /** The reply the client must get for a request and its outcome. */
  predicate Faithful(r: Request, o: Outcome, reply: Reply)
  {
    match o
    case Refused => r.op == UnknownOp && reply == Reply(r.id, false, None, 0)
    case Answered(_, _, data, xmask) => Answers(r, o) && reply == ReplyTo(r, data, xmask)
  }

  predicate Owners(s: State)
  {
    && (s.owner.Server? <==> s.server.Locked? || s.server.TextWritten? || s.server.Published? || s.server.Checking?)
    && (s.owner.Sim? <==> s.sim.Getting? || s.sim.Missed? || s.sim.Got? || s.sim.Putting? || s.sim.Written?
                          || s.sim.Signalled?)
  }

  predicate ServerOk(s: State)
  {
    match s.server
    case Idle => |s.outcomes| == s.taken && |s.replied| == s.taken && Quiet(s)
    case Replying(reply) =>
      0 < s.taken <= |s.wire| && |s.outcomes| == s.taken && |s.replied| == s.taken - 1 && Quiet(s)
      && Faithful(Understood(s.wire[s.taken - 1]), s.outcomes[s.taken - 1], reply)
    case Parsed(r) => |s.outcomes| == s.taken - 1 && Quiet(s)
    case Locked(r) => |s.outcomes| == s.taken - 1 && Quiet(s) && r.op != UnknownOp
    case TextWritten(r) => |s.outcomes| == s.taken - 1 && Quiet(s) && r.op == LogOp && s.text == r.text
    case Published(r) =>
      |s.outcomes| == s.taken - 1 && s.reqValid && s.req == Handoff(r) && s.sim.Polling? && r.op != UnknownOp
      && (r.op == LogOp ==> s.text == r.text)
    case _ => true
  }

  /** No request is on its way to the simulator. */
  predicate Quiet(s: State)
  {
    !s.reqValid && (s.sim.Polling? || s.sim.Getting? || s.sim.Missed? || s.sim.Written? || s.sim.Signalled?)
  }

  /** The server and the simulator share the slots consistently. */
  ghost predicate Coherent(s: State)
  {
    && s.taken <= |s.wire| && |s.outcomes| <= s.taken && |s.replied| <= |s.outcomes|
    && Owners(s)
    && ServerOk(s)
    && (HasRequest(s.server) ==>
          s.taken > 0 && |s.replied| == s.taken - 1 && s.server.r == Understood(s.wire[s.taken - 1]))
    && (Pending(s.server) ==>
          s.server.r.op != UnknownOp && (s.server.r.op == LogOp ==> s.text == s.server.r.text)
          && (InSlot(s, s.server.r) || WithSim(s, s.server.r) || Settled(s, s.server.r)))
    && (s.server.Blocked? && s.rspValid ==> s.sim.Written?)
    && (forall k :: 0 <= k < |s.replied| ==> Faithful(Understood(s.wire[k]), s.outcomes[k], s.replied[k]))
  }

  /** Requests are numbered from 1. */
  ghost predicate Numbered(sent: seq<Request>)
  {
    forall k :: 0 <= k < |sent| ==> sent[k].id == k + 1 && sent[k].op != UnknownOp
  }

  ghost predicate Sendable(sent: seq<Request>) { forall k :: 0 <= k < |sent| ==> sent[k].op != UnknownOp }

  /** What fgets makes of the lines of these requests. */
  function Wire(sent: seq<Request>): (wire: seq<string>)
    requires Sendable(sent)
    ensures |wire| >= |sent|
  {
    if |sent| == 0 then []
    else Wire(sent[..|sent| - 1]) + Pieces(Printed(sent[|sent| - 1]))
  }

  lemma WireGrows(sent: seq<Request>, r: Request)
    requires Sendable(sent) && r.op != UnknownOp
    ensures Sendable(sent + [r]) && Wire(sent + [r]) == Wire(sent) + Pieces(Printed(r))
  {
    hide Printed, Pieces;
    var all := sent + [r];
    assert Sendable(all);
    assert all[..|all| - 1] == sent && all[|all| - 1] == r;
  }

  /** What the client waits for, has read and has taken for an answer. */
  ghost predicate ClientOk(s: State)
  {
    && Numbered(s.sent) && s.wire == Wire(s.sent)
    && (s.client.Waiting? ==> |s.sent| > 0 && s.client.id == |s.sent|)
    && s.received <= |s.replied| && s.received + (if s.client.Waiting? then 1 else 0) <= |s.sent|
    && (forall i :: 0 <= i < |s.accepted| ==> Genuine(s, s.accepted[i]))
  }

  ghost predicate Inv(s: State) { Coherent(s) && ClientOk(s) }

  /** The reply went out for the first line received of the request of the same number, and everything
      sent before that request was received line by line. */
  ghost predicate Genuine(s: State, reply: Reply)
    requires Numbered(s.sent)
  {
    reply.ok && 0 < reply.id <= |s.replied| && reply.id <= |s.sent| && reply == s.replied[reply.id - 1]
    && |Wire(s.sent[..reply.id - 1])| == reply.id - 1
  }

  // ---- Whose line a piece is from ----

  /** A piece of an earlier line is never read as a later request. */
  lemma {:induction false} PieceIsNoLater(sent: seq<Request>, k: nat)
    requires Numbered(sent) && k < |Wire(sent)|
    ensures Understood(Wire(sent)[k]).id <= |sent|
  {
    hide Understood, Printed, Pieces;
    var front, r := sent[..|sent| - 1], sent[|sent| - 1];
    if k < |Wire(front)| {
      PieceIsNoLater(front, k);
    } else {
      var i := k - |Wire(front)|;
      PieceWithin(Printed(r), i);
      PieceIdentifier(r, Pieces(Printed(r))[i]);
    }
  }

  /** So the reply of number n is the n-th, if a client that has read fewer than n replies meets it. */
  lemma OnTime(sent: seq<Request>, k: nat)
    requires Numbered(sent) && 0 < |sent| && k < |sent| && Understood(Wire(sent)[k]).id == |sent|
    ensures k == |sent| - 1 && |Wire(sent[..k])| == k
  {
    hide Understood, Printed, Pieces;
    var front := sent[..|sent| - 1];
    if k < |Wire(front)| {
      PieceIsNoLater(front, k);
    }
  }

  /** Every line sent fits in the buffer exactly if as many lines are received as were sent. */
  ghost predicate AllShort(sent: seq<Request>)
  {
    forall k :: 0 <= k < |sent| ==> sent[k].op != UnknownOp && |Printed(sent[k])| <= LINE_LIMIT
  }

  lemma {:induction false} ShortExactly(sent: seq<Request>)
    requires Numbered(sent)
    ensures |Wire(sent)| == |sent| <==> AllShort(sent)
    ensures AllShort(sent) ==> forall k :: 0 <= k < |sent| ==> Wire(sent)[k] == Printed(sent[k])
  {
    hide Printed;
    if |sent| > 0 {
      var front, r := sent[..|sent| - 1], sent[|sent| - 1];
      ShortExactly(front);
      assert AllShort(sent) <==> AllShort(front) && |Printed(r)| <= LINE_LIMIT;
      if AllShort(sent) {
        assert Pieces(Printed(r)) == [Printed(r)];
      }
    }
  }

  lemma {:induction false} WireExtends(sent: seq<Request>, k: nat)
    requires Numbered(sent) && k <= |sent|
    ensures Wire(sent[..k]) <= Wire(sent)
  {
    hide Printed, Pieces;
    if k < |sent| {
      WireExtends(sent[..|sent| - 1], k);
      assert sent[..|sent| - 1][..k] == sent[..k];
    } else {
      assert sent[..k] == sent;
    }
  }

  // ---- Every step keeps the invariant ----

  lemma SendCoherent(s: State, e: Event)
    requires Coherent(s) && Enabled(s, e) && e.ClientSend?
    ensures Coherent(Apply(s, e))
  {
    hide Handoff, Faithful, Answers, Understood, Printed, Pieces;
    var t := Apply(s, e);
    assert forall k :: 0 <= k < |s.wire| ==> t.wire[k] == s.wire[k];
  }

  lemma SendKeepsInv(s: State, e: Event)
    requires Inv(s) && Enabled(s, e) && e.ClientSend?
    ensures Inv(Apply(s, e))
  {
    hide Coherent, Genuine, Wire;
    SendCoherent(s, e);
    var t := Apply(s, e);
    SentNumbered(s.sent, e.payload);
    WireGrows(s.sent, e.payload.(id := |s.sent| + 1));
    forall i | 0 <= i < |t.accepted| ensures Genuine(t, t.accepted[i]) {
      StillGenuine(s, t, s.accepted[i]);
    }
  }

  lemma SentNumbered(sent: seq<Request>, payload: Request)
    requires Numbered(sent) && payload.op != UnknownOp
    ensures Numbered(sent + [payload.(id := |sent| + 1)])
  {
  }

  lemma StillGenuine(s: State, t: State, reply: Reply)
    requires Numbered(s.sent) && Numbered(t.sent) && Genuine(s, reply)
    requires s.sent <= t.sent && s.replied <= t.replied
    ensures Genuine(t, reply)
  {
    hide Wire;
    assert t.sent[..reply.id - 1] == s.sent[..reply.id - 1];
  }

  lemma RepliedNumber(s: State, k: nat)
    requires Coherent(s) && k < |s.replied|
    ensures s.replied[k].id == Understood(s.wire[k]).id
  {
    hide Handoff, Understood;
    assert Faithful(Understood(s.wire[k]), s.outcomes[k], s.replied[k]);
  }

  lemma CoherentIgnoresClient(s: State, client: ClientPc, received: nat, accepted: seq<Reply>)
    requires Coherent(s)
    ensures Coherent(s.(client := client, received := received, accepted := accepted))
  {
    hide Handoff, Faithful, Answers, Understood;
  }

  lemma ReceiveKeepsInv(s: State, e: Event)
    requires Inv(s) && Enabled(s, e) && (e.ClientReceive? || e.ClientTimeout?)
    ensures Inv(Apply(s, e))
  {
    hide Coherent, Wire, Understood;
    var t := Apply(s, e);
    CoherentIgnoresClient(s, t.client, t.received, t.accepted);
    if e.ClientReceive? && |t.accepted| > |s.accepted| {
      RepliedNumber(s, s.received);
      OnTime(s.sent, s.received);
      assert Genuine(t, s.replied[s.received]);
    }
    assert forall i :: 0 <= i < |s.accepted| ==> t.accepted[i] == s.accepted[i] && Genuine(s, s.accepted[i]);
  }

  lemma TakeCoherent(s: State, e: Event)
    requires Coherent(s) && Enabled(s, e)
    requires e.ServerTake? || e.ServerRefuse? || e.ServerLock?
    ensures Coherent(Apply(s, e))
  {
    hide Handoff, Understood;
  }

  lemma PublishCoherent(s: State, e: Event)
    requires Coherent(s) && Enabled(s, e)
    requires e.ServerWriteText? || e.ServerPublish? || e.ServerClear?
    ensures Coherent(Apply(s, e))
  {
    hide Handoff, Understood;
  }

  lemma CheckCoherent(s: State, e: Event)
    requires Coherent(s) && Enabled(s, e)
    requires e.ServerCheck? || e.ServerSpuriousWake? || e.ServerRelock?
    ensures Coherent(Apply(s, e))
  {
    hide Handoff, Understood;
  }

  lemma ReplyCoherent(s: State, e: Event)
    requires Coherent(s) && Enabled(s, e)
    requires e.ServerSend?
    ensures Coherent(Apply(s, e))
  {
    hide Handoff, Understood;
  }

  lemma GetCoherent(s: State, e: Event)
    requires Coherent(s) && Enabled(s, e)
    requires e.SimLockGet? || e.SimGet? || e.SimUnlockGet? || e.SimReadText?
    ensures Coherent(Apply(s, e))
  {
    hide Handoff, Understood;
  }

  lemma PutCoherent(s: State, e: Event)
    requires Coherent(s) && Enabled(s, e)
    requires e.SimLockPut? || e.SimWrite?
    ensures Coherent(Apply(s, e))
  {
    hide Handoff, Understood;
  }

  lemma SignalCoherent(s: State, e: Event)
    requires Coherent(s) && Enabled(s, e)
    requires e.SimSignal? || e.SimUnlockPut?
    ensures Coherent(Apply(s, e))
  {
    hide Handoff, Understood;
  }

  lemma ServerCoherent(s: State, e: Event)
    requires Coherent(s) && Enabled(s, e) && ByServer(e)
    ensures Coherent(Apply(s, e))
  {
    hide Coherent, Enabled, Apply;
    if e.ServerTake? || e.ServerRefuse? || e.ServerLock? {
      TakeCoherent(s, e);
    } else if e.ServerWriteText? || e.ServerPublish? || e.ServerClear? {
      PublishCoherent(s, e);
    } else if e.ServerSend? {
      ReplyCoherent(s, e);
    } else {
      CheckCoherent(s, e);
    }
  }

  lemma SimCoherent(s: State, e: Event)
    requires Coherent(s) && Enabled(s, e) && (BySim(e) || e.SimReadText?)
    ensures Coherent(Apply(s, e))
  {
    hide Coherent, Enabled, Apply;
    if e.SimLockPut? || e.SimWrite? {
      PutCoherent(s, e);
    } else if e.SimSignal? || e.SimUnlockPut? {
      SignalCoherent(s, e);
    } else {
      GetCoherent(s, e);
    }
  }

  /** The server and the simulator leave the client alone and only add replies. */
  lemma ClientKept(s: State, e: Event)
    requires Inv(s) && Enabled(s, e) && (ByServer(e) || BySim(e) || e.SimReadText?)
    ensures ClientOk(Apply(s, e))
  {
    hide Handoff, Understood, Wire, Faithful, Answers, Coherent;
    var t := Apply(s, e);
    assert s.replied <= t.replied;
    assert forall i :: 0 <= i < |s.accepted| ==> Genuine(s, s.accepted[i]);
  }

  lemma StepKeepsInv(s: State, e: Event)
    requires Inv(s)
    ensures Inv(Step(s, e))
  {
    hide Coherent, ClientOk, Enabled, Apply;
    if Enabled(s, e) {
      if e.ClientSend? {
        SendKeepsInv(s, e);
      } else if e.ClientReceive? || e.ClientTimeout? {
        ReceiveKeepsInv(s, e);
      } else {
        ClientKept(s, e);
        if ByServer(e) {
          ServerCoherent(s, e);
        } else {
          SimCoherent(s, e);
        }
      }
    }
  }

  /** Every interleaving keeps the invariant. */
  lemma {:induction false} Reachable(events: seq<Event>)
    ensures Inv(After(events))
  {
    if |events| > 0 {
      Reachable(events[..|events| - 1]);
      StepKeepsInv(After(events[..|events| - 1]), events[|events| - 1]);
    }
  }

  // ---- Refinement of a sequential call ----

  /** The lines received are what fgets, call after call, makes of the bytes sent. */
  function Bytes(sent: seq<Request>): string
    requires Sendable(sent)
  {
    if |sent| == 0 then "" else Printed(sent[0]) + [NEWLINE] + Bytes(sent[1..])
  }

  lemma {:induction false} WireSplits(a: seq<Request>, b: seq<Request>)
    requires Sendable(a) && Sendable(b)
    ensures Sendable(a + b) && Wire(a + b) == Wire(a) + Wire(b)
    decreases |b|
  {
    hide Wire, Printed, Pieces;
    if |b| == 0 {
      assert a + b == a;
      NothingSent(b);
    } else {
      var m := |b| - 1;
      WireSplits(a, b[..m]);
      WireGrows(b[..m], b[m]);
      WireGrows(a + b[..m], b[m]);
      assert b[..m] + [b[m]] == b;
      assert a + b == (a + b[..m]) + [b[m]];
    }
  }

  lemma NothingSent(sent: seq<Request>)
    requires |sent| == 0
    ensures Sendable(sent) && Wire(sent) == []
  {
  }

  lemma {:induction false} WireIsFgets(sent: seq<Request>)
    requires Sendable(sent)
    ensures Wire(sent) == ReadAll(Bytes(sent))
  {
    hide Wire, Printed, Pieces, ReadAll;
    NothingSent([]);
    NothingRead();
    if |sent| == 0 {
      assert sent == [];
    } else {
      WireIsFgets(sent[1..]);
      PrintedOneLine(sent[0]);
      LineRead(Printed(sent[0]), Bytes(sent[1..]));
      WireSplits([sent[0]], sent[1..]);
      assert [sent[0]] + sent[1..] == sent;
      WireGrows([], sent[0]);
      assert [] + [sent[0]] == [sent[0]];
    }
  }

  lemma NothingRead()
    ensures ReadAll("") == []
  {
  }

  /** In every interleaving the k-th reply answers the k-th line received, as handle_request
      understands that line: its identifier, and the data the simulator produced for its operation,
      address and data. */
  lemma RepliesInOrder(events: seq<Event>, k: nat)
    requires k < |After(events).replied|
    ensures var s := After(events);
            && Numbered(s.sent) && s.wire == ReadAll(Bytes(s.sent)) && k < |s.wire| && k < |s.outcomes|
            && var r := Understood(s.wire[k]);
               && s.replied[k].id == r.id
               && (r.op == UnknownOp <==> s.outcomes[k].Refused?)
               && (r.op == UnknownOp ==> !s.replied[k].ok)
               && (r.op != UnknownOp ==>
                     s.replied[k].ok && s.outcomes[k].request == Handoff(r)
                     && s.replied[k].data == (if RepliesWithData(r.op) then Some(s.outcomes[k].data) else None))
  {
    hide Handoff, Understood, Wire, ReadAll, Bytes;
    Reachable(events);
    var s := After(events);
    WireIsFgets(s.sent);
    assert Faithful(Understood(s.wire[k]), s.outcomes[k], s.replied[k]);
  }

  /** What the simulator must be handed, and the number the reply must carry, for the k-th call. */
  predicate AnswersCall(r: Request, o: Outcome, reply: Reply)
  {
    o.Answered? && o.request == Handoff(r) && reply == ReplyTo(r, o.data, o.xmask)
  }

  /** With every line so far within the receive buffer, the k-th reply answers the k-th call: it carries
      the call's number and the simulator was handed its operation, address and data, exactly if the
      call is no log whose text fakes the identifier, or fakes a verbosity that was not 0. */
  lemma RepliesAnswerCalls(events: seq<Event>, k: nat)
    requires k < |After(events).replied| && AllShort(After(events).sent)
    requires k < |After(events).sent| && AllFit(After(events).sent[k])
    ensures var s := After(events);
            && |s.wire| == |s.sent| && k < |s.outcomes| && s.sent[k].id == k + 1
            && (AnswersCall(s.sent[k], s.outcomes[k], s.replied[k]) <==>
                  !FakesKey(s.sent[k], "id") && !(FakesKey(s.sent[k], "data") && ToUint32(s.sent[k].data) != 0))
            && (s.replied[k].id == k + 1 <==> !FakesKey(s.sent[k], "id"))
  {
    hide Understood, Printed, FakesKey, Wire, After;
    Reachable(events);
    var s := After(events);
    ShortExactly(s.sent);
    assert Faithful(Understood(s.wire[k]), s.outcomes[k], s.replied[k]);
    LineUnderstood(s.sent[k]);
    FakesOne(s.sent[k]);
  }

  lemma FakesOne(r: Request)
    ensures FakesKey(r, "id") || FakesKey(r, "data") ==> r.op == LogOp
  {
  }

  /** What serving a call comes to, field by field: the slots held the operation's code, the address or
      its packing and the data word, the simulator ran what the client meant, and the reply carries the
      call's number and, for the five operations that return a value, the value and its unknown bits. */
  predicate Serves(r: Request, o: Outcome, reply: Reply)
  {
    && o.Answered? && HandedOver(r, o.request) && Dispatch(o.request) == Meant(r)
    && reply.id == r.id && reply.ok
    && (if r.op == ReadOp || r.op == DtmcsOp || r.op == DmiScanOp || r.op == JtagScanOp || r.op == SimTimeOp
        then reply.data == Some(o.data) && reply.xmask == o.xmask
        else reply.data == None && reply.xmask == 0)
  }

  lemma AnsweredIsServed(r: Request, o: Outcome, reply: Reply)
    requires AnswersCall(r, o, reply)
    ensures Serves(r, o, reply)
  {
    hide Handoff, Dispatch, Meant, HandedOver;
    FieldsHandedOver(r);
    DispatchedAsMeant(r);
  }

  /** So with every line within the buffer each call that fakes no key is served: the k-th outcome is
      that of the k-th call's own address and data. */
  lemma CallsAreServed(events: seq<Event>, k: nat)
    requires k < |After(events).replied| && AllShort(After(events).sent)
    requires k < |After(events).sent| && AllFit(After(events).sent[k])
    requires !FakesKey(After(events).sent[k], "id") && !FakesKey(After(events).sent[k], "data")
    ensures var s := After(events); k < |s.outcomes| && Serves(s.sent[k], s.outcomes[k], s.replied[k])
  {
    hide After, AllShort, AllFit, FakesKey, AnswersCall, Serves;
    RepliesAnswerCalls(events, k);
    var s := After(events);
    AnsweredIsServed(s.sent[k], s.outcomes[k], s.replied[k]);
  }

  /** What _transact returns is never stale and never misdirected: whatever was sent before, calls that
      gave up, texts that fake a key, lines cut in two, an accepted reply is the answer to the first
      line received of the very request that was sent, which was read under its own number. */
  lemma AcceptedIsGenuine(events: seq<Event>, i: nat)
    requires i < |After(events).accepted|
    ensures var s := After(events);
            var reply := s.accepted[i];
            && Numbered(s.sent) && 0 < reply.id <= |s.replied| && reply.id <= |s.sent|
            && |s.replied| <= |s.wire| && |s.replied| <= |s.outcomes|
            && s.wire[reply.id - 1] == Pieces(Printed(s.sent[reply.id - 1]))[0]
            && var r := Understood(s.wire[reply.id - 1]);
               && r.id == reply.id && Answers(r, s.outcomes[reply.id - 1])
               && reply == ReplyTo(r, s.outcomes[reply.id - 1].data, s.outcomes[reply.id - 1].xmask)
  {
    hide Handoff, Understood, Printed, Pieces;
    Reachable(events);
    var s := After(events);
    assert Genuine(s, s.accepted[i]);
    var k := s.accepted[i].id - 1;
    assert Faithful(Understood(s.wire[k]), s.outcomes[k], s.replied[k]);
    FirstPiece(s.sent, k);
  }

  lemma FirstPiece(sent: seq<Request>, k: nat)
    requires Numbered(sent) && k < |sent| && |Wire(sent[..k])| == k
    ensures k < |Wire(sent)| && Wire(sent)[k] == Pieces(Printed(sent[k]))[0]
  {
    hide Printed, Pieces;
    WireExtends(sent, k + 1);
    assert sent[..k + 1][..k] == sent[..k] && sent[..k + 1][k] == sent[k];
    assert Wire(sent[..k + 1]) == Wire(sent[..k]) + Pieces(Printed(sent[k]));
  }

  /** An accepted reply to a request within the receive buffer carries what the simulator produced for
      its operation, address and data; only a log text that fakes the verbosity is printed at another. */
  lemma AcceptedAnswersCall(events: seq<Event>, i: nat)
    requires i < |After(events).accepted| && 0 < After(events).accepted[i].id <= |After(events).sent|
    requires var r := After(events).sent[After(events).accepted[i].id - 1];
             r.op != UnknownOp && AllFit(r) && |Printed(r)| <= LINE_LIMIT
    ensures var s := After(events);
            var id := s.accepted[i].id;
            && id <= |s.outcomes|
            && !FakesKey(s.sent[id - 1], "id")
            && (AnswersCall(s.sent[id - 1], s.outcomes[id - 1], s.accepted[i]) <==>
                  !(FakesKey(s.sent[id - 1], "data") && ToUint32(s.sent[id - 1].data) != 0))
  {
    hide Understood, Printed, FakesKey, Wire, After;
    AcceptedIsGenuine(events, i);
    var s := After(events);
    var r := s.sent[s.accepted[i].id - 1];
    assert Pieces(Printed(r)) == [Printed(r)];
    LineUnderstood(r);
    FakesOne(r);
  }

  /** An accepted reply to such a call is that of the call served. */
  lemma AcceptedIsServed(events: seq<Event>, i: nat)
    requires i < |After(events).accepted| && 0 < After(events).accepted[i].id <= |After(events).sent|
    requires var r := After(events).sent[After(events).accepted[i].id - 1];
             r.op != UnknownOp && AllFit(r) && |Printed(r)| <= LINE_LIMIT && !FakesKey(r, "data")
    ensures var s := After(events);
            var id := s.accepted[i].id;
            id <= |s.outcomes| && Serves(s.sent[id - 1], s.outcomes[id - 1], s.accepted[i])
  {
    hide After, AllFit, FakesKey, AnswersCall, Serves, Printed;
    AcceptedAnswersCall(events, i);
    var s := After(events);
    var id := s.accepted[i].id;
    AnsweredIsServed(s.sent[id - 1], s.outcomes[id - 1], s.accepted[i]);
  }

  lemma ShortPrefix(sent: seq<Request>, j: nat, n: nat)
    requires j < |sent| && n <= |sent| && AllShort(sent[..n])
    requires sent[j].op != UnknownOp && |Printed(sent[j])| > LINE_LIMIT
    ensures n <= j
  {
    hide Printed;
    var front := sent[..n];
    assert forall k :: 0 <= k < n ==> front[k] == sent[k];
  }

  /** A line past the receive buffer loses the session: no reply to any later call is ever accepted. */
  lemma LongLineDesynchronises(events: seq<Event>, i: nat, j: nat)
    requires i < |After(events).accepted| && j < |After(events).sent|
    requires var r := After(events).sent[j]; r.op != UnknownOp && |Printed(r)| > LINE_LIMIT
    ensures After(events).accepted[i].id <= j + 1
  {
    hide Understood, Printed, Pieces;
    Reachable(events);
    var s := After(events);
    assert Genuine(s, s.accepted[i]);
    var front := s.sent[..s.accepted[i].id - 1];
    ShortExactly(front);
    ShortPrefix(s.sent, j, |front|);
  }

  /** dpi_bridge_get_text takes no lock and needs none: while the simulator holds a request it has
      not answered, the slots and the text are this request's, and no step of the server can touch them. */
  lemma TextReadIsRaceFree(events: seq<Event>, e: Event)
    requires After(events).sim.Taken?
    ensures var s := After(events);
            && 0 < s.taken <= |s.wire|
            && var r := Understood(s.wire[s.taken - 1]);
               && s.sim.request == Handoff(r)
               && (r.op == LogOp ==> s.text == r.text)
               && (ByServer(e) ==>
                     Step(s, e).text == s.text && Step(s, e).req == s.req && Step(s, e).reqValid == s.reqValid
                     && Step(s, e).rspValid == s.rspValid)
  {
    hide Handoff, Understood, Wire;
    Reachable(events);
  }

  /** So with every line within the buffer, what the simulator prints is the text of the log call it
      answers, with each character as the scanner makes it. */
  lemma TextReadIsTheCalls(events: seq<Event>)
    requires After(events).sim.Taken? && AllShort(After(events).sent)
    requires var s := After(events); 0 < s.taken <= |s.sent| ==> AllFit(s.sent[s.taken - 1])
    ensures var s := After(events);
            && 0 < s.taken <= |s.sent|
            && (s.sent[s.taken - 1].op == LogOp ==> s.text == LineProtocol.RecoveredText(s.sent[s.taken - 1].text))
  {
    hide Handoff, Understood, Printed, Wire, After;
    Reachable(events);
    var s := After(events);
    TextReadIsRaceFree(events, ServerTake);
    ShortExactly(s.sent);
    LineUnderstood(s.sent[s.taken - 1]);
  }

  // ---- Progress ----

  /** A step towards the reply that is enabled whenever a request is in hand. */
  function Helpful(s: State, data: int, xmask: int): Event
  {
    if s.sim.Getting? then SimGet
    else if s.sim.Missed? || s.sim.Got? then SimUnlockGet
    else if s.sim.Putting? then SimWrite
    else if s.sim.Written? then SimSignal
    else if s.sim.Signalled? then SimUnlockPut
    else match s.server
      case Idle => ServerTake
      case Parsed(r) => if r.op == UnknownOp then ServerRefuse else ServerLock
      case Locked(r) => if r.op == LogOp then ServerWriteText else ServerPublish
      case TextWritten(_) => ServerPublish
      case Published(_) => ServerClear
      case Checking(_) => ServerCheck
      case Replying(_) => ServerSend
      case _ =>
        if s.rspValid then ServerRelock
        else if s.sim.Polling? then SimLockGet
        else SimLockPut(data, xmask)
  }

  /** Helpful steps still to go before the reply to the request in hand is sent. */
  function Distance(s: State): nat
  {
    match s.server
    case Idle => 0
    case Replying(_) => 1 + SimRest(s.sim)
    case Parsed(_) => 60 + SimRest(s.sim)
    case Locked(_) => 59 + SimRest(s.sim)
    case TextWritten(_) => 58 + SimRest(s.sim)
    case Published(_) => 57
    case Checking(_) => (if s.rspValid then 4 else 30) + Travel(s)
    case Woken(_) => (if s.rspValid then 5 else 40) + Travel(s)
    case Blocked(_) => 20 + Travel(s)
  }

  /** Steps until the simulator lets go of the mutex. */
  function SimRest(pc: SimPc): nat
  {
    match pc
    case Getting => 2
    case Missed => 1
    case Got(_) => 1
    case Written => 2
    case Signalled => 1
    case _ => 0
  }

  function Travel(s: State): nat
  {
    if s.rspValid then SimRest(s.sim)
    else if s.reqValid then
      match s.sim
      case Missed => 10
      case Polling => 9
      case _ => 8
    else
      match s.sim
      case Got(_) => 7
      case Taken(_, _) => 6
      case _ => 5
  }

  /** Whatever else is scheduled, the reply comes nearer with every step of the server and the simulator
      but three: a spurious wake-up, a poll that finds no request, and a read of the text. */
  lemma EveryStepAdvances(s: State, e: Event)
    requires Inv(s) && !s.server.Idle? && Enabled(s, e) && (ByServer(e) || BySim(e))
    requires !e.ServerSpuriousWake? && !(e.SimLockGet? && !s.reqValid)
    ensures Distance(Apply(s, e)) < Distance(s)
  {
    hide Handoff, Faithful, Answers, ClientOk, Understood;
  }

  lemma HelpfulIsEnabled(s: State, data: int, xmask: int)
    requires Inv(s) && !s.server.Idle?
    ensures var e := Helpful(s, data, xmask);
            Enabled(s, e) && (ByServer(e) || BySim(e)) && !e.ServerSpuriousWake? && !(e.SimLockGet? && !s.reqValid)
  {
    hide Handoff, Faithful, Answers, ClientOk, Understood;
  }

  lemma HelpfulReplies(s: State, data: int, xmask: int)
    requires Inv(s) && !s.server.Idle? && Enabled(s, Helpful(s, data, xmask))
    ensures var t := Apply(s, Helpful(s, data, xmask));
            t.taken == s.taken && (t.server.Idle? ==> |t.replied| == s.taken)
  {
    hide Handoff, Faithful, Answers, ClientOk, Understood;
  }

  /** No deadlock and no lost wake-up: in every reachable state with a request in hand some step of
      the server or the simulator is enabled and brings the reply nearer. */
  lemma HelpfulStep(s: State, data: int, xmask: int)
    requires Inv(s) && !s.server.Idle?
    ensures var e := Helpful(s, data, xmask);
            && Enabled(s, e) && Distance(Apply(s, e)) < Distance(s) && Apply(s, e).taken == s.taken
            && (Apply(s, e).server.Idle? ==> |Apply(s, e).replied| == s.taken)
  {
    hide Inv, Distance;
    HelpfulIsEnabled(s, data, xmask);
    EveryStepAdvances(s, Helpful(s, data, xmask));
    HelpfulReplies(s, data, xmask);
  }

  /** Helpful steps, one after another, until the reply is out. */
  ghost function Finish(s: State, data: int, xmask: int): (events: seq<Event>)
    requires Inv(s)
    decreases Distance(s)
  {
    if s.server.Idle? then []
    else
      HelpfulStep(s, data, xmask);
      var e := Helpful(s, data, xmask);
      StepKeepsInv(s, e);
      [e] + Finish(Step(s, e), data, xmask)
  }

  function Continue(s: State, events: seq<Event>): State
    decreases |events|
  {
    if |events| == 0 then s else Continue(Step(s, events[0]), events[1..])
  }

  /** A server that holds a request can always be brought to reply to it. */
  lemma {:induction false} ReplyReachable(s: State, data: int, xmask: int)
    requires Inv(s) && !s.server.Idle?
    ensures var t := Continue(s, Finish(s, data, xmask));
            t.server.Idle? && t.taken == s.taken && |t.replied| == s.taken
    decreases Distance(s)
  {
    hide Inv, Apply, Enabled, Distance, Helpful;
    HelpfulStep(s, data, xmask);
    var e := Helpful(s, data, xmask);
    StepKeepsInv(s, e);
    var rest := Finish(Step(s, e), data, xmask);
    assert ([e] + rest)[1..] == rest;
    if !Step(s, e).server.Idle? {
      ReplyReachable(Step(s, e), data, xmask);
    }
  }

  lemma {:induction false} AfterContinue(a: seq<Event>, b: seq<Event>)
    ensures After(a + b) == Continue(After(a), b)
    decreases |b|
  {
    hide Step;
    if |b| == 0 {
      assert a + b == a;
    } else {
      assert (a + [b[0]])[..|a|] == a && a + b == (a + [b[0]]) + b[1..];
      AfterContinue(a + [b[0]], b[1..]);
    }
  }

  /** So in every interleaving a request in hand can still be answered, with the client standing still. */
  lemma NeverStuck(events: seq<Event>, data: int, xmask: int)
    requires !After(events).server.Idle?
    ensures exists more :: |After(events + more).replied| == After(events).taken
  {
    hide Inv, After, Finish;
    Reachable(events);
    var more := Finish(After(events), data, xmask);
    ReplyReachable(After(events), data, xmask);
    AfterContinue(events, more);
    assert |After(events + more).replied| == After(events).taken;
  }

  /** read(): a reply with unknown bits is an error, never a value. */
  function ReadValue(reply: Reply): Option<int>
  {
    if reply.data.None? || reply.xmask != 0 then None else reply.data
  }

  /** read() returns what the simulator read, and only when every bit of it was known. */
  lemma ReadReturnsKnownData(events: seq<Event>, i: nat, v: int)
    requires i < |After(events).accepted|
    requires ReadValue(After(events).accepted[i]) == Some(v)
    ensures var s := After(events);
            var id := s.accepted[i].id;
            && 0 < id <= |s.outcomes| && s.outcomes[id - 1].Answered?
            && s.outcomes[id - 1].data == v && s.outcomes[id - 1].xmask == 0
  {
    hide Handoff, Understood, Printed, Pieces;
    AcceptedIsGenuine(events, i);
  }
}
