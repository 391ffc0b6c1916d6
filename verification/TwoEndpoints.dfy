/** Two sessions joined by a network that may drop, duplicate and reorder packets, and what neither can lose
    silently. */
module TwoEndpoints {
  import opened Prelude
  import opened Packets
  import opened AckWindow
  import opened Receivers
  import opened Protocol
  import opened Sessions
  import opened Histories
  import opened HostileReceiver
  import opened DeliveryOrder
  import opened ReceiverRuns
  import opened SenderRuns
  import opened Reassembly

  /** One endpoint: its session's history, every packet it ever put on the wire, the messages those came from,
      and the options it was created with. */
  datatype Side = Side(
    history: History,
    out: set<Packet>,
    messages: seq<Message>,
    payloads: seq<Bytes>,
    options: SessionOptions)

  datatype System = System(left: Side, right: Side)

  /** What an operation puts on the wire: the packets it creates and, for a resend, every due packet. */
  function Transmitted(s: State, op: Op): set<Packet>
    requires CanStep(s, op)
  {
    match op
    case ResendDue(now) => set k | k in DueKeys(s, now) :: s.sender.pending[k].packet
    case _ => set p | p in Step(s, op).emitted
  }

  /** The message a successful send consists of. */
  function Posted(s: State, op: Op): seq<Message>
    requires CanStep(s, op)
  {
    match op
    case SendMessage(channelId, payload, options, max) =>
      if SendPlan(s, |payload|, options, max).Ok? then [SentMessage(s, channelId, payload, options, max)] else []
    case _ => []
  }

  /** A packet can only arrive if the peer put it on the wire, at any later time and any number of times. */
  ghost predicate Deliverable(op: Op, wire: set<Packet>) {
    match op
    case TakePacket(p, _) => p in wire
    case AnswerDial(p, _, _) => p in wire
    case _ => true
  }

  /** One endpoint acts, without resetting. */
  ghost predicate Acts(x: Side, wire: set<Packet>, op: Op, x': Side) {
    && !op.ResetPeer?
    && x'.options == x.options
    && Deliverable(op, wire)
    && Follows(x.history, op, x'.history)
    && x'.out == x.out + Transmitted(x.history.state, op)
    && x'.messages == x.messages + Posted(x.history.state, op)
    && x'.payloads == x.payloads + (if Posted(x.history.state, op) == [] then [] else [op.payload])
  }

  datatype Turn = Turn(leftActs: bool, op: Op)

  ghost predicate Takes(s: System, turn: Turn, s': System) {
    if turn.leftActs then Acts(s.left, s.right.out, turn.op, s'.left) && s'.right == s.right
    else Acts(s.right, s.left.out, turn.op, s'.right) && s'.left == s.left
  }

  /** One side of the system, and with the opposite argument its peer. */
  function SideOf(s: System, isLeft: bool): Side {
    if isLeft then s.left else s.right
  }

  function Opening(options: SessionOptions): Side {
    Side(Start(options), {}, [], [], options)
  }

  /** A run of the system from two new sessions. */
  ghost predicate IsSystemRun(left: SessionOptions, right: SessionOptions, run: seq<System>, turns: seq<Turn>) {
    && |run| == |turns| + 1
    && run[0] == System(Opening(left), Opening(right))
    && forall i :: 0 <= i < |turns| ==> Takes(run[i], turns[i], run[i + 1])
  }

  /** Runs never get stuck: at any moment either side can take any operation other than a reset that does not run out of
      numbers, receiving any packet the peer has put on the wire so far, again or for the first time. */
  lemma RunGoesOn(left: SessionOptions, right: SessionOptions, run: seq<System>, turns: seq<Turn>, turn: Turn)
    returns (s': System)
    requires IsSystemRun(left, right, run, turns) && !turn.op.ResetPeer?
    requires CanStep(SideOf(run[|turns|], turn.leftActs).history.state, turn.op)
    requires Deliverable(turn.op, SideOf(run[|turns|], !turn.leftActs).out)
    ensures IsSystemRun(left, right, run + [s'], turns + [turn])
  {
    var s := run[|turns|];
    var x, op := SideOf(s, turn.leftActs), turn.op;
    var h' := HistoryGoesOn(x.history, op);
    hide Follows, Transmitted, Posted, CanStep, Deliverable;
    var posted := Posted(x.history.state, op);
    var x' := Side(h', x.out + Transmitted(x.history.state, op), x.messages + posted,
                   x.payloads + (if posted == [] then [] else [PayloadOf(op)]), x.options);
    assert Acts(x, SideOf(s, !turn.leftActs).out, op, x') by { PostedByASend(x.history.state, op); }
    hide Acts;
    s' := if turn.leftActs then System(x', s.right) else System(s.left, x');
    var run', turns' := run + [s'], turns + [turn];
    forall i | 0 <= i < |turns'| ensures Takes(run'[i], turns'[i], run'[i + 1]) {
      if i < |turns| { assert Takes(run[i], turns[i], run[i + 1]); }
    }
  }

  function PayloadOf(op: Op): Bytes {
    match op
    case SendMessage(_, payload, _, _) => payload
    case _ => []
  }

  lemma PostedByASend(s: State, op: Op)
    requires CanStep(s, op)
    ensures Posted(s, op) != [] ==> op.SendMessage?
  {
  }

  // ---- What an endpoint puts on the wire

  /** A new packet takes a given number and acknowledges exactly what its creator's window covers. */
  ghost predicate IsFresh(p: Packet, sequence: nat, r: Receiver) {
    p.sequence == sequence && (p.ack, p.ackMask) == AckState(r.highest, r.received)
  }

  lemma SentAreFresh(s: State, channelId: ChannelId, payload: Bytes, options: SendOptions, max: Option<nat>)
    requires CanSend(s, |payload|, options, max) && Keyed(s.sender)
    ensures var (s', r) := SendMany(s, channelId, payload, options, max);
      && s'.receiver == s.receiver
      && (r.Err? ==> s'.sender.nextSequence == s.sender.nextSequence)
      && (r.Ok? ==> s'.sender.nextSequence == s.sender.nextSequence + |r.value|
                    && forall i :: 0 <= i < |r.value| ==> IsFresh(r.value[i], s.sender.nextSequence + i, s.receiver))
  {
    var r := SendMany(s, channelId, payload, options, max).1;
    SendIsAllOrNothing(s, channelId, payload, options, max);
    hide AckState;
  }

  lemma EmittedAreFresh(s: State, op: Op)
    requires CanStep(s, op) && Keyed(s.sender)
    ensures var o := Step(s, op);
      && o.state.sender.nextSequence == s.sender.nextSequence + |o.emitted|
      && forall i :: 0 <= i < |o.emitted| ==> IsFresh(o.emitted[i], s.sender.nextSequence + i, o.state.receiver)
  {
    hide AckState, SendMany, Intake;
    match op
    case SendMessage(channelId, payload, options, max) =>
      SentAreFresh(s, channelId, payload, options, max);
      var (s', r) := SendMany(s, channelId, payload, options, max);
      assert Step(s, op) == Outcome(s', if r.Ok? then r.value else [], []);
    case _ =>
  }

  ghost predicate CameFrom(x: Pending, k: u32, pending: map<u32, Pending>, emitted: seq<Packet>) {
    (k in pending && pending[k].packet == x.packet) || x.packet in emitted
  }

  lemma SentPendingCameFrom(s: State, channelId: ChannelId, payload: Bytes, options: SendOptions, max: Option<nat>)
    requires CanSend(s, |payload|, options, max) && Keyed(s.sender)
    ensures var (s', r) := SendMany(s, channelId, payload, options, max);
      forall k :: k in s'.sender.pending ==>
        CameFrom(s'.sender.pending[k], k, s.sender.pending, if r.Ok? then r.value else [])
  {
    SendIsAllOrNothing(s, channelId, payload, options, max);
    hide SendMany;
    var (s', r) := SendMany(s, channelId, payload, options, max);
    forall k | k in s'.sender.pending
      ensures CameFrom(s'.sender.pending[k], k, s.sender.pending, if r.Ok? then r.value else [])
    {
      if r.Ok? && k >= s.sender.nextSequence {
        var i := k as int - s.sender.nextSequence;
        assert s.sender.nextSequence + i in s'.sender.pending;
      }
    }
  }

  /** Whatever is pending after an operation was pending before it or put on the wire by it. */
  lemma PendingCameFrom(s: State, op: Op)
    requires CanStep(s, op) && Keyed(s.sender)
    ensures var o := Step(s, op);
      forall k :: k in o.state.sender.pending ==> CameFrom(o.state.sender.pending[k], k, s.sender.pending, o.emitted)
  {
    hide SendMany, Protocol.Receive, AckState, Intake;
    match op
    case SendMessage(channelId, payload, options, max) =>
      SentPendingCameFrom(s, channelId, payload, options, max);
      var (s', r) := SendMany(s, channelId, payload, options, max);
      assert Step(s, op) == Outcome(s', if r.Ok? then r.value else [], []);
    case TakePacket(p, now) =>
      if p.connectionId == s.connectionId { ReceivedFields(s, p, now); } else { ForeignPacketIsRefused(s, p, now); }
    case _ =>
  }

  // ---- What every endpoint keeps

  /** Numbers on the wire lie between the initial one and the counter, and name one packet each. */
  ghost predicate Numbered(wire: set<Packet>, first: u32, next: u32) {
    && first <= next
    && (forall p :: p in wire ==> first <= p.sequence < next)
    && (forall p, q :: p in wire && q in wire && p.sequence == q.sequence ==> p == q)
  }

  /** Every packet on the wire, however stale, acknowledges only what its creator has received. */
  ghost predicate Truthful(wire: set<Packet>, received: set<u32>) {
    forall p :: p in wire ==> Acknowledged(p.ack, p.ackMask) <= received + {0}
  }

  ghost predicate OnWire(pending: map<u32, Pending>, wire: set<Packet>) {
    forall k :: k in pending ==> pending[k].packet in wire
  }

  ghost predicate Honest(x: Side) {
    && Numbered(x.out, x.options.initialSequence, x.history.state.sender.nextSequence)
    && Truthful(x.out, x.history.state.receiver.received)
    && OnWire(x.history.state.sender.pending, x.out)
    && Balanced(x.history) && x.history.abandoned == {}
    && Sound(x.history.state.receiver, x.history.log)
  }

  ghost predicate AllFresh(emitted: seq<Packet>, next: nat, r: Receiver) {
    forall i :: 0 <= i < |emitted| ==> IsFresh(emitted[i], next + i, r)
  }

  lemma EmittingKeepsNumbered(wire: set<Packet>, first: u32, next: u32, emitted: seq<Packet>, r: Receiver,
                              more: set<Packet>, next': u32)
    requires Numbered(wire, first, next) && AllFresh(emitted, next, r) && next' == next + |emitted|
    requires forall p :: p in more ==> p in wire || p in emitted
    ensures Numbered(wire + more, first, next')
  {
    forall p | p in emitted ensures next <= p.sequence < next' {
      var i :| 0 <= i < |emitted| && emitted[i] == p;
      assert IsFresh(emitted[i], next + i, r);
    }
    forall p, q | p in emitted && q in emitted && p.sequence == q.sequence ensures p == q {
      var i :| 0 <= i < |emitted| && emitted[i] == p;
      var j :| 0 <= j < |emitted| && emitted[j] == q;
      assert IsFresh(emitted[i], next + i, r) && IsFresh(emitted[j], next + j, r);
    }
  }

  lemma EmittingKeepsTruthful(wire: set<Packet>, received: set<u32>, emitted: seq<Packet>, next: nat, r: Receiver,
                              more: set<Packet>)
    requires Truthful(wire, received) && AllFresh(emitted, next, r)
    requires HighestOf(r.highest, r.received) && received <= r.received
    requires forall p :: p in more ==> p in wire || p in emitted
    ensures Truthful(wire + more, r.received)
  {
    AckIsSoundOnceSomethingArrived(r.highest, r.received);
    forall p | p in emitted ensures Acknowledged(p.ack, p.ackMask) <= r.received + {0} {
      var i :| 0 <= i < |emitted| && emitted[i] == p;
      assert IsFresh(emitted[i], next + i, r);
    }
  }

  lemma ReceivedGrows(s: State, op: Op)
    requires CanStep(s, op) && !op.ResetPeer?
    ensures s.receiver.received <= Step(s, op).state.receiver.received
    ensures forall q :: q in Step(s, op).state.receiver.received ==>
      q in s.receiver.received
      || (op.TakePacket? && op.packet.sequence == q) || (op.AnswerDial? && op.packet.sequence == q)
  {
    StepOnReceiver(s, op);
    if op.TakePacket? { IntakeAddsOwnNumber(s.receiver, op.packet); }
    hide Step, Intake;
  }

  lemma IntakeAddsOwnNumber(r: Receiver, p: Packet)
    ensures r.received <= Intake(r, p).0.received <= r.received + {p.sequence}
  {
  }

  /** Nothing but what an operation created, or what was on the wire, goes on the wire. */
  lemma TransmittedIsKnown(s: State, op: Op, wire: set<Packet>)
    requires CanStep(s, op) && OnWire(s.sender.pending, wire)
    ensures forall p :: p in Transmitted(s, op) ==> p in wire || p in Step(s, op).emitted
    ensures forall p :: p in Step(s, op).emitted ==> p in Transmitted(s, op)
  {
    hide SendMany, Protocol.Receive;
  }

  lemma WireKeepsPending(s: State, op: Op, wire: set<Packet>)
    requires CanStep(s, op) && Keyed(s.sender) && OnWire(s.sender.pending, wire)
    ensures OnWire(Step(s, op).state.sender.pending, wire + Transmitted(s, op))
  {
    TransmittedIsKnown(s, op, wire);
    PendingCameFrom(s, op);
    hide Step, Transmitted;
    var pending := Step(s, op).state.sender.pending;
    forall k | k in pending ensures pending[k].packet in wire + Transmitted(s, op) {
      assert CameFrom(pending[k], k, s.sender.pending, Step(s, op).emitted);
    }
  }

  lemma ActingKeepsHonest(x: Side, wire: set<Packet>, op: Op, x': Side)
    requires Acts(x, wire, op, x') && Honest(x)
    ensures Honest(x')
  {
    var s := x.history.state;
    FollowsIsBalanced(x.history, op, x'.history);
    FollowsIsSound(x.history, op, x'.history);
    EmittedAreFresh(s, op);
    TransmittedIsKnown(s, op, x.out);
    WireKeepsPending(s, op, x.out);
    ReceivedGrows(s, op);
    hide Step, Transmitted, Posted, TrackedBy, AckedBy, ExpiredBy, Books, Chains, Rises, UsedOnce, ShapedFragments,
      ShapedOrder, Keyed, Balanced, Numbered, Truthful, OnWire;
    var o := Step(s, op);
    assert Shaped(o.state.receiver) && Keyed(s.sender) && AllFresh(o.emitted, s.sender.nextSequence, o.state.receiver);
    EmittingKeepsNumbered(x.out, x.options.initialSequence, s.sender.nextSequence, o.emitted, o.state.receiver,
                          Transmitted(s, op), o.state.sender.nextSequence);
    EmittingKeepsTruthful(x.out, s.receiver.received, o.emitted, s.sender.nextSequence, o.state.receiver,
                          Transmitted(s, op));
  }

  // ---- What the sender may believe about the receiver

  ghost predicate ReceivedFrom(received: set<u32>, wire: set<Packet>) {
    forall q :: q in received ==> OnWireAs(q, wire)
  }

  ghost predicate OnWireAs(q: u32, wire: set<Packet>) {
    exists p :: p in wire && p.sequence == q
  }

  /** y has received only what x put on the wire, and everything x found acknowledged, unless that is number 0. */
  ghost predicate Knows(x: Side, y: Side) {
    && ReceivedFrom(y.history.state.receiver.received, x.out)
    && x.history.acked <= y.history.state.receiver.received + {0}
    && forall q :: q in x.history.acked ==> x.options.initialSequence <= q
  }

  ghost predicate Linked(s: System) {
    Honest(s.left) && Honest(s.right) && Knows(s.left, s.right) && Knows(s.right, s.left)
  }

  lemma LaterWireIsEnough(received: set<u32>, wire: set<Packet>, more: set<Packet>)
    requires ReceivedFrom(received, wire)
    ensures ReceivedFrom(received, wire + more)
  {
    forall q | q in received ensures OnWireAs(q, wire + more) {
      assert OnWireAs(q, wire);
      var p :| p in wire && p.sequence == q;
      assert p in wire + more;
    }
  }

  /** What an arriving packet acknowledges, the peer has received, unless it is number 0. */
  lemma AcknowledgedWasReceived(x: Side, y: Side, op: Op)
    requires Honest(x) && Honest(y) && Deliverable(op, y.out)
    ensures AckedBy(x.history.state, op) <= y.history.state.receiver.received + {0}
    ensures forall q :: q in AckedBy(x.history.state, op) ==> x.options.initialSequence <= q
  {
    hide Books, Sound, Acknowledged;
    var pending := x.history.state.sender.pending;
    forall q | q in AckedBy(x.history.state, op) ensures x.options.initialSequence <= q {
      assert pending[q].packet in x.out && pending[q].packet.sequence == q;
    }
  }

  lemma ArrivalsAreFromWire(s: State, op: Op, wire: set<Packet>)
    requires CanStep(s, op) && !op.ResetPeer? && Deliverable(op, wire) && ReceivedFrom(s.receiver.received, wire)
    ensures ReceivedFrom(Step(s, op).state.receiver.received, wire)
  {
    ReceivedGrows(s, op);
    hide Step;
    forall q | q in Step(s, op).state.receiver.received ensures OnWireAs(q, wire) {
      if q !in s.receiver.received { assert op.packet in wire; }
    }
  }

  /** What acting changes of a side. */
  lemma ActingChanges(x: Side, wire: set<Packet>, op: Op, x': Side)
    requires Acts(x, wire, op, x')
    ensures !op.ResetPeer? && CanStep(x.history.state, op) && Deliverable(op, wire) && x'.options == x.options
    ensures x'.history.state == Step(x.history.state, op).state
    ensures x'.history.acked == x.history.acked + AckedBy(x.history.state, op)
    ensures x'.out == x.out + Transmitted(x.history.state, op)
    ensures x'.history.log == x.history.log + Step(x.history.state, op).released && x.messages <= x'.messages
  {
    hide Step, CanStep, Transmitted, Posted, TrackedBy, AckedBy, ExpiredBy, ResendsBy, Deliverable;
  }

  /** A side that acts still knows what it knew of its peer, and of what it finds acknowledged. */
  lemma ActorKnows(x: Side, y: Side, op: Op, x': Side)
    requires Acts(x, y.out, op, x') && Honest(x) && Honest(y) && Knows(x, y)
    ensures Knows(x', y)
  {
    hide Step, CanStep, Transmitted, AckedBy, Honest, ReceivedFrom, Deliverable, Acts;
    ActingChanges(x, y.out, op, x');
    AcknowledgedWasReceived(x, y, op);
    LaterWireIsEnough(y.history.state.receiver.received, x.out, Transmitted(x.history.state, op));
  }

  lemma ActorIsKnown(x: Side, y: Side, op: Op, x': Side)
    requires Acts(x, y.out, op, x') && Knows(y, x)
    ensures Knows(y, x')
  {
    hide Step, CanStep, Transmitted, AckedBy, ReceivedFrom, Deliverable, Acts;
    ActingChanges(x, y.out, op, x');
    ReceivedGrows(x.history.state, op);
    ArrivalsAreFromWire(x.history.state, op, y.out);
  }

  lemma TurnKeepsLinked(s: System, turn: Turn, s': System)
    requires Takes(s, turn, s') && Linked(s)
    ensures Linked(s')
  {
    hide Acts, Honest, Knows;
    if turn.leftActs {
      ActingKeepsHonest(s.left, s.right.out, turn.op, s'.left);
      ActorKnows(s.left, s.right, turn.op, s'.left);
      ActorIsKnown(s.left, s.right, turn.op, s'.left);
    } else {
      ActingKeepsHonest(s.right, s.left.out, turn.op, s'.right);
      ActorKnows(s.right, s.left, turn.op, s'.right);
      ActorIsKnown(s.right, s.left, turn.op, s'.right);
    }
  }

  lemma OpeningIsHonest(options: SessionOptions)
    ensures Honest(Opening(options))
  {
    StartIsBalanced(options);
    FreshIsSound();
  }

  lemma OpeningIsLinked(left: SessionOptions, right: SessionOptions)
    ensures Linked(System(Opening(left), Opening(right)))
  {
    OpeningIsHonest(left);
    OpeningIsHonest(right);
    hide Honest;
  }

  lemma {:induction false} RunIsLinked(left: SessionOptions, right: SessionOptions, run: seq<System>, turns: seq<Turn>,
                                       n: nat)
    requires IsSystemRun(left, right, run, turns) && n < |run|
    ensures Linked(run[n])
  {
    hide Takes, Linked;
    if n == 0 {
      OpeningIsLinked(left, right);
    } else {
      RunIsLinked(left, right, run, turns, n - 1);
      TurnKeepsLinked(run[n - 1], turns[n - 1], run[n]);
    }
  }

  /** Every reliable number one side ever tracked is still pending, was purged as expired,
      or is among what the peer has received. */
  ghost predicate NothingLostSilently(x: Side, y: Side) {
    && x.history.tracked == x.history.state.sender.pending.Keys + x.history.acked + x.history.expired
    && x.history.state.sender.pending.Keys !! x.history.acked !! x.history.expired
    && x.history.acked <= y.history.state.receiver.received
    && x.history.state.sender.expired == |x.history.expired|
  }

  lemma TurnKeepsOptions(s: System, turn: Turn, s': System)
    requires Takes(s, turn, s')
    ensures s'.left.options == s.left.options && s'.right.options == s.right.options
  {
    hide Follows, Transmitted, Posted, Deliverable;
  }

  lemma {:induction false} RunKeepsOptions(left: SessionOptions, right: SessionOptions, run: seq<System>,
                                           turns: seq<Turn>, n: nat)
    requires IsSystemRun(left, right, run, turns) && n < |run|
    ensures run[n].left.options == left && run[n].right.options == right
  {
    hide Takes;
    if n > 0 {
      RunKeepsOptions(left, right, run, turns, n - 1);
      TurnKeepsOptions(run[n - 1], turns[n - 1], run[n]);
    }
  }

  /** No silent loss under drop, duplication and reordering: in each direction, if the sending side starts above 0. */
  lemma NoSilentLoss(left: SessionOptions, right: SessionOptions, run: seq<System>, turns: seq<Turn>, n: nat,
                     fromLeft: bool)
    requires IsSystemRun(left, right, run, turns) && n < |run|
    requires OptionsOf(left, right, fromLeft).initialSequence > 0
    ensures NothingLostSilently(SideOf(run[n], fromLeft), SideOf(run[n], !fromLeft))
  {
    RunIsLinked(left, right, run, turns, n);
    RunKeepsOptions(left, right, run, turns, n);
    hide Sound, Numbered, Truthful, OnWire, IsSystemRun;
  }

  function OptionsOf(left: SessionOptions, right: SessionOptions, isLeft: bool): SessionOptions {
    if isLeft then left else right
  }

  /** The invariant behind it: every packet on the wire, however stale, acknowledges only what its creator received. */
  lemma EveryAcknowledgementIsTrue(left: SessionOptions, right: SessionOptions, run: seq<System>, turns: seq<Turn>,
                                   n: nat, isLeft: bool, p: Packet)
    requires IsSystemRun(left, right, run, turns) && n < |run| && p in SideOf(run[n], isLeft).out
    ensures var received := SideOf(run[n], isLeft).history.state.receiver.received;
      Acknowledged(p.ack, p.ackMask) - {0} <= received && ReceivedFrom(received, SideOf(run[n], !isLeft).out)
  {
    hide IsSystemRun, Sound, Balanced;
    RunIsLinked(left, right, run, turns, n);
  }

  // ---- Exactly when nothing is lost silently

  /** Nothing a side tracks can ever be acknowledged: it may track nothing, its peer is on another connection, or the
      peer has no number left to send a packet under. */
  predicate NeverAcknowledged(mine: SessionOptions, peer: SessionOptions) {
    mine.maxPending == Some(0) || mine.connectionId != peer.connectionId || peer.initialSequence == U32_MAX
  }

  /** A side has kept to its options: the limit on what is pending, and the connection its packets name. */
  ghost predicate Configured(x: Side, options: SessionOptions) {
    && x.options == options
    && x.history.state.maxPending == options.maxPending && Bounded(x.history.state)
    && x.history.state.connectionId == options.connectionId
    && forall p :: p in x.out ==> p.connectionId == options.connectionId
  }

  lemma EmittedNameTheConnection(s: State, op: Op)
    requires CanStep(s, op)
    ensures Step(s, op).state.connectionId == s.connectionId
    ensures forall p :: p in Step(s, op).emitted ==> p.connectionId == s.connectionId
  {
    hide AckState, Intake, Acknowledged;
  }

  lemma ActingKeepsConfigured(x: Side, wire: set<Packet>, op: Op, x': Side, options: SessionOptions)
    requires Acts(x, wire, op, x') && Honest(x) && Configured(x, options)
    ensures Configured(x', options)
  {
    var s := x.history.state;
    EmittedNameTheConnection(s, op);
    StepIsBounded(s, op);
    TransmittedIsKnown(s, op, x.out);
    hide Step, CanStep, Transmitted, Posted, TrackedBy, AckedBy, ExpiredBy, ResendsBy, Numbered, Truthful, Books, Sound;
  }

  /** Where nothing can be acknowledged, nothing is. */
  lemma NothingToAcknowledge(x: Side, y: Side, op: Op, mine: SessionOptions, peer: SessionOptions)
    requires Configured(x, mine) && Configured(y, peer) && Honest(y) && NeverAcknowledged(mine, peer)
    requires Deliverable(op, y.out)
    ensures AckedBy(x.history.state, op) == {}
  {
    hide Acknowledged, Truthful, OnWire, Balanced, Sound;
    var s := x.history.state;
    if mine.maxPending == Some(0) { assert s.sender.pending == map[]; }
    if peer.initialSequence == U32_MAX { assert y.out == {}; }
  }

  /** Both sides have kept to their options, and the first found nothing acknowledged. */
  ghost predicate Unanswered(x: Side, y: Side, mine: SessionOptions, peer: SessionOptions) {
    Configured(x, mine) && Configured(y, peer) && x.history.acked == {}
  }

  lemma TurnKeepsUnanswered(s: System, turn: Turn, s': System, mine: SessionOptions, peer: SessionOptions,
                            fromLeft: bool)
    requires Takes(s, turn, s') && Linked(s) && NeverAcknowledged(mine, peer)
    requires Unanswered(SideOf(s, fromLeft), SideOf(s, !fromLeft), mine, peer)
    ensures Unanswered(SideOf(s', fromLeft), SideOf(s', !fromLeft), mine, peer)
  {
    hide Honest, Knows, Configured, Acts, Step, CanStep, Transmitted, AckedBy, NeverAcknowledged, Deliverable;
    var x, y := SideOf(s, fromLeft), SideOf(s, !fromLeft);
    if turn.leftActs == fromLeft {
      var x' := SideOf(s', fromLeft);
      ActingChanges(x, y.out, turn.op, x');
      ActingKeepsConfigured(x, y.out, turn.op, x', mine);
      NothingToAcknowledge(x, y, turn.op, mine, peer);
    } else {
      ActingKeepsConfigured(y, x.out, turn.op, SideOf(s', !fromLeft), peer);
    }
  }

  lemma {:induction false} RunStaysUnanswered(left: SessionOptions, right: SessionOptions, run: seq<System>,
                                              turns: seq<Turn>, n: nat, fromLeft: bool)
    requires IsSystemRun(left, right, run, turns) && n < |run|
    requires NeverAcknowledged(OptionsOf(left, right, fromLeft), OptionsOf(left, right, !fromLeft))
    ensures Unanswered(SideOf(run[n], fromLeft), SideOf(run[n], !fromLeft),
                       OptionsOf(left, right, fromLeft), OptionsOf(left, right, !fromLeft))
  {
    hide Takes, Linked, NeverAcknowledged;
    if n > 0 {
      hide Unanswered;
      RunStaysUnanswered(left, right, run, turns, n - 1, fromLeft);
      RunIsLinked(left, right, run, turns, n - 1);
      TurnKeepsUnanswered(run[n - 1], turns[n - 1], run[n], OptionsOf(left, right, fromLeft),
                          OptionsOf(left, right, !fromLeft), fromLeft);
    }
  }

  lemma AckOfNothing()
    ensures Acknowledged(AckState(None, {}).0, AckState(None, {}).1) == {0}
  {
    AckIsSoundOnceSomethingArrived(None, {});
  }

  /** One turn more, and what it does to the side that acts. */
  lemma OneMoreTurn(left: SessionOptions, right: SessionOptions, run: seq<System>, turns: seq<Turn>, turn: Turn)
    returns (s': System)
    requires IsSystemRun(left, right, run, turns) && !turn.op.ResetPeer?
    requires CanStep(SideOf(run[|turns|], turn.leftActs).history.state, turn.op)
    requires Deliverable(turn.op, SideOf(run[|turns|], !turn.leftActs).out)
    ensures IsSystemRun(left, right, run + [s'], turns + [turn])
    ensures SideOf(s', !turn.leftActs) == SideOf(run[|turns|], !turn.leftActs)
    ensures var x, x' := SideOf(run[|turns|], turn.leftActs), SideOf(s', turn.leftActs);
      && x'.history.state == Step(x.history.state, turn.op).state
      && x'.history.acked == x.history.acked + AckedBy(x.history.state, turn.op)
      && x'.out == x.out + Transmitted(x.history.state, turn.op)
  {
    s' := RunGoesOn(left, right, run, turns, turn);
    var run', turns' := run + [s'], turns + [turn];
    assert Takes(run'[|turns|], turns'[|turns|], run'[|turns| + 1]);
    hide Acts, IsSystemRun, Step, CanStep, Transmitted, AckedBy, Deliverable;
    ActingChanges(SideOf(run[|turns|], turn.leftActs), SideOf(run[|turns|], !turn.leftActs).out, turn.op,
                  SideOf(s', turn.leftActs));
  }

  /** Numbered 0, a connect packet is cleared by an acknowledgement of a peer that has received nothing. */
  lemma ConnectIsCleared(mine: SessionOptions, peer: SessionOptions)
    requires mine.initialSequence == 0 && !NeverAcknowledged(mine, peer)
    ensures CanStep(NewState(mine), Dial(0, [])) && CanStep(NewState(peer), MakeAck)
    ensures var ack := ControlPacket(NewState(peer), Ack, [], false);
      var dialed := Step(NewState(mine), Dial(0, [])).state;
      && Transmitted(NewState(peer), MakeAck) == {ack}
      && Step(NewState(peer), MakeAck).state.receiver == FreshReceiver
      && CanStep(dialed, TakePacket(ack, 0))
      && AckedBy(NewState(mine), Dial(0, [])) == {} && AckedBy(dialed, TakePacket(ack, 0)) == {0}
      && Step(dialed, TakePacket(ack, 0)).state.sender.pending == map[]
      && Step(dialed, TakePacket(ack, 0)).state.sender.expired == 0
  {
    hide Protocol.Receive, AckState, Acknowledged, Intake, HighestOf;
    var ack := ControlPacket(NewState(peer), Ack, [], false);
    var dialed := Step(NewState(mine), Dial(0, [])).state;
    AckOfNothing();
    ReceivedFields(dialed, ack, 0);
    assert ack in Step(NewState(peer), MakeAck).emitted;
    assert dialed.sender.pending.Keys == {0} && dialed.sender.pending - {0} == map[];
  }

  /** One side dials, and the other sends an acknowledgement before anything arrived. */
  lemma DialAndAnswer(left: SessionOptions, right: SessionOptions, fromLeft: bool)
    returns (run: seq<System>, turns: seq<Turn>)
    requires var mine, peer := OptionsOf(left, right, fromLeft), OptionsOf(left, right, !fromLeft);
      mine.initialSequence == 0 && !NeverAcknowledged(mine, peer)
    ensures IsSystemRun(left, right, run, turns) && |run| == 3 && |turns| == 2
    ensures var mine, peer := OptionsOf(left, right, fromLeft), OptionsOf(left, right, !fromLeft);
      var x, y := SideOf(run[2], fromLeft), SideOf(run[2], !fromLeft);
      && CanStep(NewState(mine), Dial(0, [])) && x.history.state == Step(NewState(mine), Dial(0, [])).state
      && x.history.acked == {}
      && y.out == {ControlPacket(NewState(peer), Ack, [], false)} && y.history.state.receiver == FreshReceiver
  {
    ConnectIsCleared(OptionsOf(left, right, fromLeft), OptionsOf(left, right, !fromLeft));
    hide Step, CanStep, Transmitted, AckedBy, NeverAcknowledged, ControlPacket;
    run, turns := [System(Opening(left), Opening(right))], [];
    var dialed := OneMoreTurn(left, right, run, turns, Turn(fromLeft, Dial(0, [])));
    hide IsSystemRun;
    run, turns := run + [dialed], turns + [Turn(fromLeft, Dial(0, []))];
    var answered := OneMoreTurn(left, right, run, turns, Turn(!fromLeft, MakeAck));
    run, turns := run + [answered], turns + [Turn(!fromLeft, MakeAck)];
  }

  /** The run in which that happens: the sender believes number 0 received, the peer has received nothing. */
  lemma ConnectIsLost(left: SessionOptions, right: SessionOptions, fromLeft: bool)
    returns (run: seq<System>, turns: seq<Turn>)
    requires var mine, peer := OptionsOf(left, right, fromLeft), OptionsOf(left, right, !fromLeft);
      mine.initialSequence == 0 && !NeverAcknowledged(mine, peer)
    ensures IsSystemRun(left, right, run, turns) && |run| == 4
    ensures var x, y := SideOf(run[3], fromLeft), SideOf(run[3], !fromLeft);
      && x.history.acked == {0} && y.history.state.receiver.received == {}
      && x.history.state.sender.pending == map[] && x.history.state.sender.expired == 0
  {
    hide IsSystemRun, Step, CanStep, Transmitted, AckedBy, NeverAcknowledged, ControlPacket;
    var mine, peer := OptionsOf(left, right, fromLeft), OptionsOf(left, right, !fromLeft);
    ConnectIsCleared(mine, peer);
    run, turns := DialAndAnswer(left, right, fromLeft);
    var turn := Turn(fromLeft, TakePacket(ControlPacket(NewState(peer), Ack, [], false), 0));
    var cleared := OneMoreTurn(left, right, run, turns, turn);
    run, turns := run + [cleared], turns + [turn];
  }

  /** In every run, nothing one side sends is lost silently. */
  ghost predicate NeverLosesSilently(left: SessionOptions, right: SessionOptions, fromLeft: bool) {
    forall run: seq<System>, turns: seq<Turn>, n: nat :: IsSystemRun(left, right, run, turns) && n < |run| ==>
      NothingLostSilently(SideOf(run[n], fromLeft), SideOf(run[n], !fromLeft))
  }

  /** Nothing is ever lost silently in one direction exactly if the sending side starts above 0, or nothing it sends
      can be acknowledged at all. An acknowledgement sent before anything was received names number 0. */
  lemma SilentLossExactlyFromZero(left: SessionOptions, right: SessionOptions, fromLeft: bool)
    ensures var mine, peer := OptionsOf(left, right, fromLeft), OptionsOf(left, right, !fromLeft);
      NeverLosesSilently(left, right, fromLeft) <==> mine.initialSequence > 0 || NeverAcknowledged(mine, peer)
  {
    hide IsSystemRun, NeverAcknowledged;
    var mine, peer := OptionsOf(left, right, fromLeft), OptionsOf(left, right, !fromLeft);
    if mine.initialSequence > 0 || NeverAcknowledged(mine, peer) {
      forall run: seq<System>, turns: seq<Turn>, n: nat | IsSystemRun(left, right, run, turns) && n < |run|
        ensures NothingLostSilently(SideOf(run[n], fromLeft), SideOf(run[n], !fromLeft))
      {
        if mine.initialSequence > 0 {
          NoSilentLoss(left, right, run, turns, n, fromLeft);
        } else {
          RunStaysUnanswered(left, right, run, turns, n, fromLeft);
          UnansweredIsNotLost(left, right, run, turns, n, fromLeft);
        }
      }
    } else {
      var run, turns := ConnectIsLost(left, right, fromLeft);
      var n := 3;
      assert !NothingLostSilently(SideOf(run[n], fromLeft), SideOf(run[n], !fromLeft));
    }
  }

  lemma UnansweredIsNotLost(left: SessionOptions, right: SessionOptions, run: seq<System>, turns: seq<Turn>, n: nat,
                            fromLeft: bool)
    requires IsSystemRun(left, right, run, turns) && n < |run| && SideOf(run[n], fromLeft).history.acked == {}
    ensures NothingLostSilently(SideOf(run[n], fromLeft), SideOf(run[n], !fromLeft))
  {
    RunIsLinked(left, right, run, turns, n);
    hide Sound, Numbered, Truthful, OnWire, IsSystemRun, Knows;
  }
}
