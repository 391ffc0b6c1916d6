/** Which operation made each packet on the wire, and what taking it reports: pongs return pings, a disconnect packet
    carries the reason of the hang-up, and nothing else is reported. */
module Provenance {
  import opened Prelude
  import opened Packets
  import opened AckWindow
  import opened Receivers
  import opened Protocol
  import opened Histories
  import opened ReceiverRuns
  import opened SenderRuns
  import opened TwoEndpoints
  import Utf8

  // ---- What each operation makes

  /** A packet of the control channel: no fragment, and reliable and ordered only in a handshake. */
  ghost predicate IsControl(p: Packet, inHandshake: bool) {
    && p.channelId == Utf8.StringBytes("control")
    && p.reliable == inHandshake && p.ordered == inHandshake && !p.sequenced
    && p.fragmentId == 0 && p.fragmentIndex == 0 && p.fragmentCount == 0
  }

  /** Each kind of packet is made by one kind of operation, which gives it its payload. */
  ghost predicate MadeBy(p: Packet, op: Op) {
    match p.packetType
    case Connect => op.Dial? && IsControl(p, true) && p.payload == op.payload
    case Accept => op.AnswerDial? && op.packet.packetType == Connect && IsControl(p, true) && p.payload == op.payload
    case Data =>
      && op.SendMessage? && p.channelId == op.channelId
      && p.reliable == op.options.reliable && p.ordered == op.options.ordered && p.sequenced == op.options.sequenced
    case Ack => op.MakeAck? && IsControl(p, false) && p.payload == []
    case Ping => op.MakePing? && IsControl(p, false) && p.payload == op.payload
    case Pong =>
      op.TakePacket? && op.packet.packetType == Ping && IsControl(p, false) && p.payload == op.packet.payload
    case Disconnect => op.HangUp? && IsControl(p, false) && p.payload == op.reason
  }

  lemma ControlIsControl()
    ensures CONTROL == Utf8.StringBytes("control")
  {
    assert "control"[1..] == "ontrol" && "ontrol"[1..] == "ntrol" && "ntrol"[1..] == "trol" && "trol"[1..] == "rol";
    assert "rol"[1..] == "ol" && "ol"[1..] == "l" && "l"[1..] == "";
  }

  lemma SentAreMade(s: State, op: Op)
    requires CanStep(s, op) && op.SendMessage?
    ensures forall p :: p in Step(s, op).emitted ==> p.packetType == Data && MadeBy(p, op)
  {
    hide CanStep, StampOf, Chunk, Sent, ExpiredKeys, PlanFor;
  }

  /** Whatever an operation puts on the wire anew is of its kind. */
  lemma EmittedAreMade(s: State, op: Op)
    requires CanStep(s, op)
    ensures forall p :: p in Step(s, op).emitted ==> MadeBy(p, op)
  {
    ControlIsControl();
    hide StampOf, Intake, Acknowledged, Utf8.StringBytes, SendMany, Remember, HasCapacity;
    if op.SendMessage? { SentAreMade(s, op); }
  }

  /** How many packets an operation makes. */
  lemma EmittedAreCounted(s: State, op: Op)
    requires CanStep(s, op)
    ensures match op
      case MakeAck => |Step(s, op).emitted| == 1
      case MakePing(_) => |Step(s, op).emitted| == 1
      case HangUp(_) => |Step(s, op).emitted| == 1
      case TakePacket(p, _) =>
        |Step(s, op).emitted| == if p.connectionId == s.connectionId && p.packetType == Ping then 1 else 0
      case Dial(_, _) => |Step(s, op).emitted| <= 1
      case AnswerDial(_, _, _) => |Step(s, op).emitted| <= 1
      case SendMessage(_, _, _, _) => true
      case _ => Step(s, op).emitted == []
  {
    hide StampOf, Intake, Acknowledged, SendMany, Remember, HasCapacity;
  }

  // ---- What taking a packet reports

  /** Nothing is reported. */
  const SILENCE := ReceiveResult([], None, false, [], false, [])

  /** What taking a packet that carries no data reports: a ping is answered by a packet of its own payload, a pong's and
      a disconnect's payload are handed over, the rest is silent. */
  lemma ControlReports(s: State, p: Packet, nowMs: u64)
    requires CanReceive(s, p) && p.connectionId == s.connectionId && p.packetType != Data
    ensures var r := Protocol.Receive(s, p, nowMs).1;
      && r.Ok?
      && match p.packetType
         case Ping =>
           && r.value == SILENCE.(reply := r.value.reply) && r.value.reply.Some?
           && r.value.reply.value.packetType == Pong && r.value.reply.value.payload == p.payload
           && r.value.reply.value.sequence == s.sender.nextSequence
         case Pong => r.value == ReceiveResult([], None, true, p.payload, false, [])
         case Disconnect => r.value == ReceiveResult([], None, false, [], true, p.payload)
         case _ => r.value == SILENCE
  {
    hide StampOf, Remember, Acknowledged;
  }

  /** What taking a data packet reports: the frames it released, in order, or the error, and nothing else. */
  lemma DataReports(s: State, p: Packet, nowMs: u64)
    requires CanReceive(s, p) && p.connectionId == s.connectionId && p.packetType == Data
    ensures var r, intake := Protocol.Receive(s, p, nowMs).1, Intake(s.receiver, p).1;
      && (r.Err? <==> intake.Err?) && (r.Err? ==> r.error == intake.error)
      && (r.Ok? ==>
            && r.value == SILENCE.(delivered := r.value.delivered)
            && |r.value.delivered| == |intake.value|
            && forall i :: 0 <= i < |intake.value| ==> r.value.delivered[i] == intake.value[i].frame)
  {
    hide StampOf, Receivers.ReceiveData, Acknowledged;
  }

  // ---- In runs

  /** At turn t one side made p. */
  ghost predicate MadeAt(run: seq<System>, turns: seq<Turn>, t: nat, isLeft: bool, p: Packet) {
    && t < |turns| && t < |run| && turns[t].leftActs == isLeft
    && CanStep(SideOf(run[t], isLeft).history.state, turns[t].op)
    && p in Step(SideOf(run[t], isLeft).history.state, turns[t].op).emitted
    && MadeBy(p, turns[t].op)
    && Deliverable(turns[t].op, SideOf(run[t], !isLeft).out)
    && p.connectionId == SideOf(run[t], isLeft).history.state.connectionId
  }

  lemma TurnMakes(s: System, turn: Turn, s': System, isLeft: bool, p: Packet)
    requires Takes(s, turn, s') && Honest(SideOf(s, isLeft))
    requires p in SideOf(s', isLeft).out && p !in SideOf(s, isLeft).out
    ensures turn.leftActs == isLeft && CanStep(SideOf(s, isLeft).history.state, turn.op)
    ensures p in Step(SideOf(s, isLeft).history.state, turn.op).emitted && MadeBy(p, turn.op)
    ensures Deliverable(turn.op, SideOf(s, !isLeft).out)
    ensures p.connectionId == SideOf(s, isLeft).history.state.connectionId
  {
    hide Acts, Step, CanStep, Transmitted, AckedBy, Deliverable, MadeBy, Numbered, Truthful, Balanced, Sound;
    var x, x' := SideOf(s, isLeft), SideOf(s', isLeft);
    if turn.leftActs == isLeft {
      ActingChanges(x, SideOf(s, !isLeft).out, turn.op, x');
      TransmittedIsKnown(x.history.state, turn.op, x.out);
      EmittedAreMade(x.history.state, turn.op);
      EmittedNameTheConnection(x.history.state, turn.op);
    }
  }

  /** Every packet on the wire was made at some turn by the one kind of operation that makes its kind. */
  lemma {:induction false} EveryPacketWasMade(left: SessionOptions, right: SessionOptions, run: seq<System>,
                                              turns: seq<Turn>, n: nat, isLeft: bool, p: Packet)
    returns (t: nat)
    requires IsSystemRun(left, right, run, turns) && n < |run| && p in SideOf(run[n], isLeft).out
    ensures t < n && MadeAt(run, turns, t, isLeft, p)
  {
    hide Takes, Honest, Knows, MadeBy, Step, CanStep, Deliverable;
    assert n > 0;
    if p in SideOf(run[n - 1], isLeft).out {
      t := EveryPacketWasMade(left, right, run, turns, n - 1, isLeft, p);
    } else {
      t := n - 1;
      RunIsLinked(left, right, run, turns, t);
      TurnMakes(run[t], turns[t], run[n], isLeft, p);
    }
  }

  /** Every pong was made for a ping that the peer made before, and carries the payload it was made with. */
  lemma EveryPongAnswersAPing(left: SessionOptions, right: SessionOptions, run: seq<System>, turns: seq<Turn>, n: nat,
                              isLeft: bool, pong: Packet)
    returns (t: nat, u: nat)
    requires IsSystemRun(left, right, run, turns) && n < |run|
    requires pong in SideOf(run[n], isLeft).out && pong.packetType == Pong
    ensures u < t < n && MadeAt(run, turns, t, isLeft, pong) && turns[t].op.TakePacket?
    ensures MadeAt(run, turns, u, !isLeft, turns[t].op.packet)
    ensures turns[u].leftActs != isLeft && turns[u].op == MakePing(pong.payload)
  {
    hide Takes, Step, CanStep, IsControl, IsSystemRun;
    t := EveryPacketWasMade(left, right, run, turns, n, isLeft, pong);
    var ping := turns[t].op.packet;
    u := EveryPacketWasMade(left, right, run, turns, t, !isLeft, ping);
  }

  /** Taking a pong reports exactly the payload of a ping the side made before. */
  lemma PongReportsThePing(left: SessionOptions, right: SessionOptions, run: seq<System>, turns: seq<Turn>, t: nat)
    returns (u: nat)
    requires IsSystemRun(left, right, run, turns) && t < |turns|
    requires turns[t].op.TakePacket? && turns[t].op.packet.packetType == Pong
    requires turns[t].op.packet.connectionId == SideOf(run[t], turns[t].leftActs).history.state.connectionId
    ensures u < t && turns[u].leftActs == turns[t].leftActs && turns[u].op.MakePing?
    ensures var s := SideOf(run[t], turns[t].leftActs).history.state;
      && CanReceive(s, turns[t].op.packet)
      && Protocol.Receive(s, turns[t].op.packet, turns[t].op.nowMs).1
           == Ok(ReceiveResult([], None, true, turns[u].op.payload, false, []))
  {
    hide Protocol.Receive, MadeAt;
    TakenIsDeliverable(left, right, run, turns, t);
    var isLeft, p := turns[t].leftActs, turns[t].op.packet;
    hide IsSystemRun, Takes;
    var v;
    v, u := EveryPongAnswersAPing(left, right, run, turns, t, !isLeft, p);
    ControlReports(SideOf(run[t], isLeft).history.state, p, turns[t].op.nowMs);
  }

  lemma TakenIsDeliverable(left: SessionOptions, right: SessionOptions, run: seq<System>, turns: seq<Turn>, t: nat)
    requires IsSystemRun(left, right, run, turns) && t < |turns| && turns[t].op.TakePacket?
    ensures |run| == |turns| + 1
    ensures turns[t].op.packet in SideOf(run[t], !turns[t].leftActs).out
    ensures CanReceive(SideOf(run[t], turns[t].leftActs).history.state, turns[t].op.packet)
  {
    hide Transmitted, Posted, Step;
    assert Takes(run[t], turns[t], run[t + 1]);
  }

  /** Taking a disconnect packet reports exactly the reason of a hang-up of the peer. */
  lemma DisconnectReportsTheReason(left: SessionOptions, right: SessionOptions, run: seq<System>, turns: seq<Turn>,
                                   t: nat)
    returns (u: nat)
    requires IsSystemRun(left, right, run, turns) && t < |turns|
    requires turns[t].op.TakePacket? && turns[t].op.packet.packetType == Disconnect
    requires turns[t].op.packet.connectionId == SideOf(run[t], turns[t].leftActs).history.state.connectionId
    ensures u < t && turns[u].leftActs != turns[t].leftActs && turns[u].op.HangUp?
    ensures var s := SideOf(run[t], turns[t].leftActs).history.state;
      && CanReceive(s, turns[t].op.packet)
      && Protocol.Receive(s, turns[t].op.packet, turns[t].op.nowMs).1
           == Ok(ReceiveResult([], None, false, [], true, turns[u].op.reason))
  {
    hide Protocol.Receive, Step, CanStep, IsControl;
    TakenIsDeliverable(left, right, run, turns, t);
    var isLeft, p := turns[t].leftActs, turns[t].op.packet;
    hide IsSystemRun, Takes;
    u := EveryPacketWasMade(left, right, run, turns, t, !isLeft, p);
    ControlReports(SideOf(run[t], isLeft).history.state, p, turns[t].op.nowMs);
  }
}
