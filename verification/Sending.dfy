/** What a send and a handshake come to, told by their arguments and the pending table: when they succeed, with which
    error they fail otherwise, and into how many packets of which size a payload is cut. */
module Sending {
  import opened Prelude
  import opened Packets
  import opened Receivers
  import opened Protocol
  import opened Sessions
  import opened SenderRuns
  import opened Reassembly

  /** A payload of this length takes n packets: one if it is within the limit, else as few as hold it. */
  ghost predicate IsCutInto(length: nat, limit: Option<nat>, n: nat) {
    if limit.None? || length <= limit.value then n == 1
    else limit.value > 0 && n > 0 && (n - 1) * limit.value < length <= n * limit.value
  }

  /** The pending packets whose deadline is not over. */
  function Unexpired(s: State, nowMs: u64): set<u32> {
    set k | k in s.sender.pending && (var e := s.sender.pending[k].expiresAtMs; e.None? || nowMs <= e.value)
  }

  /** n more reliable packets fit behind these. */
  predicate HasPlace(s: State, pending: set<u32>, n: nat) {
    s.maxPending.None? || |pending| + n <= s.maxPending.value
  }

  lemma FewestPackets(length: nat, size: nat)
    requires 0 < size < length
    ensures IsCutInto(length, Some(size), DivCeil(length, size))
    ensures forall n :: IsCutInto(length, Some(size), n) ==> n == DivCeil(length, size)
  {
    var c := DivCeil(length, size);
    CeilingHolds(length, size);
    forall n | IsCutInto(length, Some(size), n) ensures n == c {
      if n < c { Monotone(n, c - 1, size); } else if n > c { Monotone(c, n - 1, size); }
    }
  }

  lemma CeilingHolds(length: nat, size: nat)
    requires 0 < size < length
    ensures var c := DivCeil(length, size); c > 0 && (c - 1) * size < length <= c * size
  {
    var x := length + size - 1;
    var c := x / size;
    assert x == c * size + x % size;
    assert x >= size;
    assert c * size == (c - 1) * size + size;
  }

  lemma UnexpiredAreLeft(s: State, nowMs: u64)
    ensures Purged(s, nowMs).sender.pending.Keys == Unexpired(s, nowMs)
    ensures |Purged(s, nowMs).sender.pending| == |Unexpired(s, nowMs)|
  {
    var pending := Purged(s, nowMs).sender.pending;
    assert pending.Keys == Unexpired(s, nowMs);
    assert |pending.Keys| == |pending|;
  }

  /** What comes of a send that takes n packets. */
  ghost predicate Comes(s: State, limit: Option<nat>, options: SendOptions, n: nat,
                        r: Result<seq<Packet>, Error>) {
    if !s.connected then r == Err(NotConnected)
    else if n > 65535 then r == Err(TooManyFragments)
    else if options.reliable && !HasPlace(s, Unexpired(s, options.nowMs), n) then r == Err(QueueFull)
    else r.Ok? && |r.value| == n
  }

  /** A send succeeds exactly if the session is connected, the limit is not 0, the payload takes at most 65535 packets
      and these fit the queue once expired packets are gone, if they are reliable. It is cut into as few packets as the
      limit allows, and fails with the error of the first condition that does not hold. */
  lemma SendSucceedsExactly(s: State, channelId: ChannelId, payload: Bytes, options: SendOptions, limit: Option<nat>,
                            n: nat)
    requires CanSend(s, |payload|, options, limit)
    requires limit != Some(0) && IsCutInto(|payload|, limit, n)
    ensures Comes(s, limit, options, n, SendMany(s, channelId, payload, options, limit).1)
  {
    hide SendMany, CanSend, Sent, DivCeil, Purged, Unexpired;
    UnexpiredAreLeft(s, options.nowMs);
    SendFollowsPlan(s, channelId, payload, options, limit);
    if limit.Some? && |payload| > limit.value { FewestPackets(|payload|, limit.value); }
    var plan, purged := SendPlan(s, |payload|, options, limit), Purged(s, options.nowMs);
    assert purged.maxPending == s.maxPending by { PurgingKeepsLimit(s, options.nowMs); }
    if plan.Ok? { SentAreCounted(purged, channelId, payload, options, plan.value); }
    hide PacketsOf;
  }

  lemma PurgingKeepsLimit(s: State, nowMs: u64)
    ensures Purged(s, nowMs).maxPending == s.maxPending && Purged(s, nowMs).connected == s.connected
  {
  }

  lemma SentAreCounted(s: State, channelId: ChannelId, payload: Bytes, options: SendOptions, plan: Plan)
    requires HasRoom(s, PacketCount(plan))
    ensures |PacketsOf(s, channelId, payload, options, plan)| == PacketCount(plan)
  {
  }

  /** With a limit of 0 a connected session sends nothing. */
  lemma ZeroLimitFails(s: State, channelId: ChannelId, payload: Bytes, options: SendOptions)
    requires CanSend(s, |payload|, options, Some(0))
    ensures SendMany(s, channelId, payload, options, Some(0)).1
      == Err(if s.connected then ZeroFragmentBytes else NotConnected)
  {
    hide Purged;
  }

  // ---- The packets of a send

  ghost predicate Carries(p: Packet, limit: Option<nat>) {
    limit.Some? ==> |p.payload| <= limit.value
  }

  function Payloads(packets: seq<Packet>): seq<Bytes> {
    seq(|packets|, i requires 0 <= i < |packets| => packets[i].payload)
  }

  lemma ChunkIsSmall(payload: Bytes, size: nat, index: nat)
    ensures |Chunk(payload, size, index)| <= size
  {
  }

  /** No packet of a send carries more than the limit, together they carry the payload in order, and a payload within
      the limit goes out whole, in a packet that belongs to no fragment set. */
  lemma PacketsKeepTheLimit(s: State, channelId: ChannelId, payload: Bytes, options: SendOptions, limit: Option<nat>)
    requires CanSend(s, |payload|, options, limit) && s.sender.nextFragmentId > 0
    requires SendMany(s, channelId, payload, options, limit).1.Ok?
    ensures var packets := SendMany(s, channelId, payload, options, limit).1.value;
      && (forall i :: 0 <= i < |packets| ==> Carries(packets[i], limit))
      && Concat(Payloads(packets)) == payload
      && (limit.None? || |payload| <= limit.value ==>
            |packets| == 1 && packets[0].payload == payload && packets[0].fragmentCount == 0)
  {
    hide SendMany, CanSend, Sent, Concat, SentMessage, StampOf;
    SendsAMessage(s, channelId, payload, options, limit);
    SendFollowsPlan(s, channelId, payload, options, limit);
    SentMessageIs(s, channelId, payload, options, limit);
    var packets := SendMany(s, channelId, payload, options, limit).1.value;
    var m := SentMessage(s, channelId, payload, options, limit);
    assert Payloads(packets) == m.chunks;
    var plan, purged := SendPlan(s, |payload|, options, limit).value, Purged(s, options.nowMs);
    SizeIsTheLimit(purged, |payload|, options.reliable, limit);
    forall i | 0 <= i < |packets| ensures Carries(packets[i], limit) {
      PacketIsSmall(purged, channelId, payload, options, plan, limit, i);
    }
    hide Chunk, PacketsOf;
    if plan.Whole? { ConcatOne(packets[0].payload); }
  }

  /** The size a plan cuts to is the caller's limit, and it cuts only what is beyond it. */
  lemma SizeIsTheLimit(s: State, length: nat, reliable: bool, limit: Option<nat>)
    ensures var plan := PlanFor(s, length, reliable, limit);
      && (plan.Ok? && plan.value.Fragmented? ==> limit == Some(plan.value.size) && length > plan.value.size)
      && (plan.Ok? && plan.value.Whole? ==> limit.None? || length <= limit.value)
  {
    hide DivCeil, HasCapacity;
  }

  lemma PacketIsSmall(s: State, channelId: ChannelId, payload: Bytes, options: SendOptions, plan: Plan,
                      limit: Option<nat>, i: nat)
    requires HasRoom(s, PacketCount(plan)) && i < PacketCount(plan)
    requires if plan.Whole? then limit.None? || |payload| <= limit.value else limit == Some(plan.size)
    ensures Carries(PacketsOf(s, channelId, payload, options, plan)[i], limit)
  {
    if plan.Fragmented? { ChunkIsSmall(payload, plan.size, i); }
    hide StampOf, Chunk;
  }

  // ---- The handshake

  /** A dial succeeds exactly if the queue has room for its packet. */
  lemma DialSucceedsExactly(s: State, nowMs: u64, payload: Bytes)
    requires CanStep(s, Dial(nowMs, payload))
    ensures var r := CreateConnect(s, nowMs, payload).1;
      if HasPlace(s, s.sender.pending.Keys, 1) then r.Ok? else r == Err(QueueFull)
  {
    assert |s.sender.pending.Keys| == |s.sender.pending|;
    hide StampOf;
  }

  /** An answer is given exactly to a connect packet of the connection, and the first one only if the queue has room. */
  lemma AnswerSucceedsExactly(s: State, p: Packet, nowMs: u64, payload: Bytes)
    requires CanStep(s, AnswerDial(p, nowMs, payload))
    ensures var r := AcceptConnect(s, p, nowMs, payload).1;
      if p.connectionId != s.connectionId then r == Err(WrongConnection)
      else if p.packetType != Connect then r == Err(NotAConnectPacket)
      else if !s.connected && !HasPlace(s, s.sender.pending.Keys, 1) then r == Err(QueueFull)
      else r.Ok?
  {
    assert |s.sender.pending.Keys| == |s.sender.pending|;
    hide StampOf, Remember;
  }
}
