/** A whole session as a value, and every session operation as a function on it. */
module Protocol {
  import opened Prelude
  import opened Packets
  import opened AckWindow
  import opened Receivers

  datatype Pending = Pending(packet: Packet, lastSentAtMs: u64, expiresAtMs: Option<u64>)

  datatype Sender = Sender(
    nextSequence: u32,
    nextFragmentId: u16,
    pending: map<u32, Pending>,
    expired: nat)

  datatype State = State(
    connectionId: u32,
    resendDelayMs: u64,
    maxPending: Option<nat>,
    connected: bool,
    lastReceivedAtMs: Option<u64>,
    sender: Sender,
    receiver: Receiver)

  datatype SessionOptions = SessionOptions(
    connectionId: u32,
    initialSequence: u32,
    resendDelayMs: u64,
    maxPending: Option<nat>)

  datatype ReceiveResult = ReceiveResult(
    delivered: seq<Frame>,
    reply: Option<Packet>,
    pong: bool,
    pongPayload: Bytes,
    disconnected: bool,
    disconnectReason: Bytes)

  const Nothing := ReceiveResult([], None, false, [], false, [])

  function NewState(options: SessionOptions): State {
    State(options.connectionId, options.resendDelayMs, options.maxPending, false, None,
          Sender(options.initialSequence, 1, map[], 0), FreshReceiver)
  }

  /** Everything the peer told us, and everything it still owes us an acknowledgement for, is forgotten. */
  function ResetPeerState(s: State): State {
    s.(connected := false, lastReceivedAtMs := None,
       sender := s.sender.(pending := map[]), receiver := FreshReceiver)
  }

  function AssumeConnected(s: State, nowMs: u64): State {
    s.(connected := true, lastReceivedAtMs := Some(nowMs))
  }

  // ---- Creating packets

  /** n more sequence numbers can be handed out; running out of them is a panic in the original. */
  predicate HasRoom(s: State, n: nat) {
    s.sender.nextSequence + n <= U32_MAX
  }

  /** What every packet created in a state carries: the connection and the acknowledgement of what was received. */
  datatype Stamp = Stamp(connectionId: u32, ack: u32, ackMask: u32)

  function StampOf(connectionId: u32, highest: Option<u32>, received: set<u32>): Stamp {
    var (ack, ackMask) := AckState(highest, received);
    Stamp(connectionId, ack, ackMask)
  }

  function StampIn(s: State): Stamp {
    StampOf(s.connectionId, s.receiver.highest, s.receiver.received)
  }

  function PacketAt(stamp: Stamp, sequence: u32, packetType: PacketType, channelId: ChannelId, payload: Bytes,
                    reliable: bool, ordered: bool, sequenced: bool,
                    fragmentId: u16, fragmentIndex: u16, fragmentCount: u16): Packet
  {
    Packet(packetType, stamp.connectionId, sequence, stamp.ack, stamp.ackMask, channelId, reliable, ordered, sequenced,
           fragmentId, fragmentIndex, fragmentCount, payload)
  }

  function ControlPacket(s: State, packetType: PacketType, payload: Bytes, reliable: bool): Packet {
    PacketAt(StampIn(s), s.sender.nextSequence, packetType, CONTROL, payload, reliable, reliable, false, 0, 0, 0)
  }

  function Advanced(s: State, n: nat): State
    requires HasRoom(s, n)
  {
    s.(sender := s.sender.(nextSequence := s.sender.nextSequence + n))
  }

  function Entry(packet: Packet, nowMs: u64, expireAfterMs: Option<u64>): Pending {
    Pending(packet, nowMs,
            if expireAfterMs.Some? then Some(SaturatingAdd(nowMs, expireAfterMs.value)) else None)
  }

  function Tracked(s: State, packet: Packet, nowMs: u64, expireAfterMs: Option<u64>): State {
    s.(sender := s.sender.(pending := s.sender.pending[packet.sequence := Entry(packet, nowMs, expireAfterMs)]))
  }

  predicate HasCapacity(s: State, count: nat) {
    count == 0 || s.maxPending.None? || |s.sender.pending| + count <= s.maxPending.value
  }

  predicate Expired(pending: Pending, nowMs: u64) {
    pending.expiresAtMs.Some? && nowMs > pending.expiresAtMs.value
  }

  function ExpiredKeys(s: State, nowMs: u64): set<u32> {
    set k | k in s.sender.pending && Expired(s.sender.pending[k], nowMs)
  }

  function Purged(s: State, nowMs: u64): State {
    var gone := ExpiredKeys(s, nowMs);
    s.(sender := s.sender.(pending := s.sender.pending - gone, expired := s.sender.expired + |gone|))
  }

  // ---- Handshake

  function CreateConnect(s: State, nowMs: u64, payload: Bytes): (State, Result<Packet, Error>)
    requires HasCapacity(s, 1) ==> HasRoom(s, 1)
  {
    if !HasCapacity(s, 1) then (s, Err(QueueFull))
    else
      var packet := ControlPacket(s, Connect, payload, true);
      (Tracked(Advanced(s, 1), packet, nowMs, None), Ok(packet))
  }

  predicate WillAccept(s: State, p: Packet) {
    p.connectionId == s.connectionId && p.packetType == Connect && (s.connected || HasCapacity(s, 1))
  }

  function AcceptConnect(s: State, p: Packet, nowMs: u64, payload: Bytes): (State, Result<Packet, Error>)
    requires WillAccept(s, p) ==> HasRoom(s, 1)
  {
    if p.connectionId != s.connectionId then (s, Err(WrongConnection))
    else if p.packetType != Connect then (s, Err(NotAConnectPacket))
    else if !s.connected && !HasCapacity(s, 1) then (s, Err(QueueFull))
    else
      var heard := s.(receiver := Remember(s.receiver, p.sequence), lastReceivedAtMs := Some(nowMs), connected := true);
      var response := ControlPacket(heard, Accept, payload, true);
      var sent := Advanced(heard, 1);
      (if s.connected then sent else Tracked(sent, response, nowMs, None), Ok(response))
  }

  // ---- Sending

  /** A message goes out whole or as count fragments of at most size bytes. */
  datatype Plan = Whole | Fragmented(count: u16, size: nat)

  function PacketCount(plan: Plan): nat {
    if plan.Whole? then 1 else plan.count
  }

  function DivCeil(length: nat, size: nat): nat
    requires size > 0
  {
    (length + size - 1) / size
  }

  /** What send_many decides to do, after expired packets were purged. */
  function PlanFor(s: State, length: nat, reliable: bool, maxFragmentBytes: Option<nat>): Result<Plan, Error> {
    if maxFragmentBytes == Some(0) then Err(ZeroFragmentBytes)
    else if maxFragmentBytes.Some? && length > maxFragmentBytes.value then
      var count := DivCeil(length, maxFragmentBytes.value);
      if count > U16_MAX then Err(TooManyFragments)
      else if reliable && !HasCapacity(s, count) then Err(QueueFull)
      else
        assert count >= 0;
        Ok(Fragmented(count, maxFragmentBytes.value))
    else if reliable && !HasCapacity(s, 1) then Err(QueueFull)
    else Ok(Whole)
  }

  function SendPlan(s: State, length: nat, options: SendOptions, maxFragmentBytes: Option<nat>): Result<Plan, Error> {
    if !s.connected then Err(NotConnected)
    else PlanFor(Purged(s, options.nowMs), length, options.reliable, maxFragmentBytes)
  }

  /** The sequence numbers send_many takes can all be handed out. */
  predicate CanSend(s: State, length: nat, options: SendOptions, maxFragmentBytes: Option<nat>) {
    var plan := SendPlan(s, length, options, maxFragmentBytes);
    plan.Ok? ==> HasRoom(s, PacketCount(plan.value))
  }

  function Chunk(payload: Bytes, size: nat, index: nat): Bytes {
    payload[Min(index * size, |payload|)..Max(Min(index * size, |payload|), Min(index * size + size, |payload|))]
  }

  function NextFragmentId(id: u16): u16 {
    if id < U16_MAX then id + 1 else U16_MAX
  }

  /** The packet at one index of a message whose first packet takes the sequence first. */
  function DataPacket(stamp: Stamp, first: u32, fragmentId: u16, channelId: ChannelId, payload: Bytes,
                      options: SendOptions, plan: Plan, index: nat): Packet
    requires first + PacketCount(plan) <= U32_MAX && index < PacketCount(plan)
  {
    if plan.Whole? then
      PacketAt(stamp, first, Data, channelId, payload, options.reliable, options.ordered, options.sequenced, 0, 0, 0)
    else
      PacketAt(stamp, first + index, Data, channelId, Chunk(payload, plan.size, index),
               options.reliable, options.ordered, options.sequenced, fragmentId, index, plan.count)
  }

  function DataPackets(stamp: Stamp, first: u32, fragmentId: u16, channelId: ChannelId, payload: Bytes,
                       options: SendOptions, plan: Plan): (r: seq<Packet>)
    requires first + PacketCount(plan) <= U32_MAX
    ensures |r| == PacketCount(plan)
  {
    seq(PacketCount(plan), i requires 0 <= i < PacketCount(plan) =>
      DataPacket(stamp, first, fragmentId, channelId, payload, options, plan, i))
  }

  function PacketsOf(s: State, channelId: ChannelId, payload: Bytes, options: SendOptions, plan: Plan): seq<Packet>
    requires HasRoom(s, PacketCount(plan))
  {
    DataPackets(StampIn(s), s.sender.nextSequence, s.sender.nextFragmentId, channelId, payload, options, plan)
  }

  /** q is one of n consecutive numbers from first. */
  predicate InRun(first: u32, n: nat, q: u32) {
    first <= q < first + n
  }

  function Run(first: u32, n: nat): set<u32> {
    set q: u32 | first <= q < first + n && InRun(first, n, q)
  }

  /** The entries a reliable send adds to the pending table, one per packet, under that packet's sequence. */
  function Entries(packets: seq<Packet>, first: u32, options: SendOptions): map<u32, Pending> {
    map q: u32 | q in Run(first, |packets|) :: Entry(packets[q - first], options.nowMs, options.expireAfterMs)
  }

  function Sent(s: State, channelId: ChannelId, payload: Bytes, options: SendOptions, plan: Plan): State
    requires HasRoom(s, PacketCount(plan))
  {
    var packets := PacketsOf(s, channelId, payload, options, plan);
    var first := s.sender.nextSequence;
    s.(sender := s.sender.(
      nextSequence := first + |packets|,
      nextFragmentId := if plan.Whole? then s.sender.nextFragmentId else NextFragmentId(s.sender.nextFragmentId),
      pending := if options.reliable then s.sender.pending + Entries(packets, first, options) else s.sender.pending))
  }

  function SendMany(s: State, channelId: ChannelId, payload: Bytes, options: SendOptions, maxFragmentBytes: Option<nat>)
    : (State, Result<seq<Packet>, Error>)
    requires CanSend(s, |payload|, options, maxFragmentBytes)
  {
    var plan := SendPlan(s, |payload|, options, maxFragmentBytes);
    if plan.Err? then (if s.connected then Purged(s, options.nowMs) else s, Err(plan.error))
    else
      var purged := Purged(s, options.nowMs);
      (Sent(purged, channelId, payload, options, plan.value),
       Ok(PacketsOf(purged, channelId, payload, options, plan.value)))
  }

  // ---- Receiving

  function Acked(s: State, p: Packet): State {
    s.(sender := s.sender.(pending := s.sender.pending - Acknowledged(p.ack, p.ackMask)))
  }

  /** No sequence arithmetic of receive overflows, and a pong can be numbered. */
  predicate CanReceive(s: State, p: Packet) {
    && p.sequence < U32_MAX
    && (p.connectionId == s.connectionId && p.packetType == Ping ==> HasRoom(s, 1))
  }

  function ReleasedBy(s: State, p: Packet): seq<Release> {
    if p.connectionId != s.connectionId then [] else ReleasesOf(Intake(s.receiver, p).1)
  }

  function FramesOf(releases: seq<Release>): (frames: seq<Frame>)
    ensures |frames| == |releases| && forall i :: 0 <= i < |frames| ==> frames[i] == releases[i].frame
  {
    seq(|releases|, i requires 0 <= i < |releases| => releases[i].frame)
  }

  function Heard(s: State, p: Packet, nowMs: u64): State {
    var acked := Acked(s, p);
    acked.(
      lastReceivedAtMs := Some(nowMs),
      connected := if p.packetType == Accept then true else if p.packetType == Disconnect then false else s.connected,
      receiver := Intake(s.receiver, p).0)
  }

  /** What receive reports, given what became of the packet in the receiving half. */
  function Answer(p: Packet, stamp: Stamp, sequence: u32, intake: Result<seq<Release>, Error>)
    : Result<ReceiveResult, Error>
  {
    match p.packetType
    case Ping =>
      Ok(Nothing.(reply := Some(PacketAt(stamp, sequence, Pong, CONTROL, p.payload, false, false, false, 0, 0, 0))))
    case Pong => Ok(Nothing.(pong := true, pongPayload := p.payload))
    case Disconnect => Ok(Nothing.(disconnected := true, disconnectReason := p.payload))
    case _ => if intake.Err? then Err(intake.error) else Ok(Nothing.(delivered := FramesOf(intake.value)))
  }

  function Receive(s: State, p: Packet, nowMs: u64): (State, Result<ReceiveResult, Error>)
    requires CanReceive(s, p)
  {
    if p.connectionId != s.connectionId then (s, Err(WrongConnection))
    else
      var heard := Heard(s, p, nowMs);
      (if p.packetType == Ping then Advanced(heard, 1) else heard,
       Answer(p, StampIn(heard), s.sender.nextSequence, Intake(s.receiver, p).1))
  }

  // ---- Control packets, timeout and resends

  function CreateControl(s: State, packetType: PacketType, payload: Bytes): (State, Packet)
    requires HasRoom(s, 1)
  {
    (Advanced(s, 1), ControlPacket(s, packetType, payload, false))
  }

  function CreateDisconnect(s: State, reason: Bytes): (State, Packet)
    requires HasRoom(s, 1)
  {
    CreateControl(s.(connected := false), Disconnect, reason)
  }

  predicate TimedOut(s: State, nowMs: u64, timeoutMs: u64) {
    s.connected && s.lastReceivedAtMs.Some? && SaturatingSub(nowMs, s.lastReceivedAtMs.value) > timeoutMs
  }

  function CheckTimeout(s: State, nowMs: u64, timeoutMs: u64): State {
    s.(connected := s.connected && !TimedOut(s, nowMs, timeoutMs))
  }

  predicate IsDue(pending: Pending, resendDelayMs: u64, nowMs: u64) {
    SaturatingSub(nowMs, pending.lastSentAtMs) >= resendDelayMs
  }

  /** The unexpired packets that have waited at least the resend delay. */
  function DueKeys(s: State, nowMs: u64): set<u32> {
    set k | k in s.sender.pending && !Expired(s.sender.pending[k], nowMs)
            && IsDue(s.sender.pending[k], s.resendDelayMs, nowMs)
  }

  function Touch(entry: Pending, resendDelayMs: u64, nowMs: u64): Pending {
    if IsDue(entry, resendDelayMs, nowMs) then entry.(lastSentAtMs := nowMs) else entry
  }

  /** The pending table once every due entry was sent again. */
  function Touched(pending: map<u32, Pending>, resendDelayMs: u64, nowMs: u64): map<u32, Pending> {
    map k | k in pending :: Touch(pending[k], resendDelayMs, nowMs)
  }

  function Resent(s: State, nowMs: u64): State {
    var purged := Purged(s, nowMs);
    purged.(sender := purged.sender.(pending := Touched(purged.sender.pending, s.resendDelayMs, nowMs)))
  }

  // ---- One step of a session's life

  datatype Op =
    | Dial(nowMs: u64, payload: Bytes)
    | AnswerDial(packet: Packet, nowMs: u64, payload: Bytes)
    | SendMessage(channelId: ChannelId, payload: Bytes, options: SendOptions, maxFragmentBytes: Option<nat>)
    | TakePacket(packet: Packet, nowMs: u64)
    | MakeAck
    | MakePing(payload: Bytes)
    | HangUp(reason: Bytes)
    | ProbeTimeout(nowMs: u64, timeoutMs: u64)
    | ResendDue(nowMs: u64)
    | Assume(nowMs: u64)
    | ResetPeer

  /** The call does not run out of sequence numbers. */
  predicate CanStep(s: State, op: Op) {
    match op
    case Dial(_, _) => HasCapacity(s, 1) ==> HasRoom(s, 1)
    case AnswerDial(p, _, _) => p.sequence < U32_MAX && (WillAccept(s, p) ==> HasRoom(s, 1))
    case SendMessage(_, payload, options, max) => CanSend(s, |payload|, options, max)
    case TakePacket(p, _) => CanReceive(s, p)
    case MakeAck => HasRoom(s, 1)
    case MakePing(_) => HasRoom(s, 1)
    case HangUp(_) => HasRoom(s, 1)
    case _ => true
  }

  /** The state after an operation, the packets it created, and the frames it released. */
  datatype Outcome = Outcome(state: State, emitted: seq<Packet>, released: seq<Release>)

  function OneOf(r: (State, Result<Packet, Error>)): Outcome {
    Outcome(r.0, if r.1.Ok? then [r.1.value] else [], [])
  }

  function Step(s: State, op: Op): Outcome
    requires CanStep(s, op)
  {
    match op
    case Dial(now, payload) => OneOf(CreateConnect(s, now, payload))
    case AnswerDial(p, now, payload) => OneOf(AcceptConnect(s, p, now, payload))
    case SendMessage(channel, payload, options, max) =>
      var (s', r) := SendMany(s, channel, payload, options, max);
      Outcome(s', if r.Ok? then r.value else [], [])
    case TakePacket(p, now) =>
      var (s', r) := Receive(s, p, now);
      Outcome(s', if r.Ok? && r.value.reply.Some? then [r.value.reply.value] else [], ReleasedBy(s, p))
    case MakeAck => var (s', p) := CreateControl(s, Ack, []); Outcome(s', [p], [])
    case MakePing(payload) => var (s', p) := CreateControl(s, Ping, payload); Outcome(s', [p], [])
    case HangUp(reason) => var (s', p) := CreateDisconnect(s, reason); Outcome(s', [p], [])
    case ProbeTimeout(now, timeout) => Outcome(CheckTimeout(s, now, timeout), [], [])
    case ResendDue(now) => Outcome(Resent(s, now), [], [])
    case Assume(now) => Outcome(AssumeConnected(s, now), [], [])
    case ResetPeer => Outcome(ResetPeerState(s), [], [])
  }
}
