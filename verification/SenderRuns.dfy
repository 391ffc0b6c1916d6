/** What becomes of every reliable packet a session sends, over every run. */
module SenderRuns {
  import opened Prelude
  import opened Packets
  import opened AckWindow
  import opened Protocol
  import opened Histories
  import opened Sessions

  // ---- What one operation does to the pending table

  lemma {:induction false} RunSize(first: u32, n: nat)
    requires first + n <= U32_MAX
    ensures |Run(first, n)| == n
  {
    if n == 0 {
      assert Run(first, n) == {};
    } else {
      RunSize(first, n - 1);
      var last: u32 := first + n - 1;
      forall q: u32 ensures q in Run(first, n) <==> q in Run(first, n - 1) || q == last {
        assert InRun(first, n, q) <==> InRun(first, n - 1, q) || q == last;
      }
      assert Run(first, n) == Run(first, n - 1) + {last};
    }
  }

  /** The packets of a message carry consecutive fresh sequences. */
  lemma PacketsAreConsecutive(s: State, channelId: ChannelId, payload: Bytes, options: SendOptions, plan: Plan)
    requires HasRoom(s, PacketCount(plan))
    ensures var packets := PacketsOf(s, channelId, payload, options, plan);
      && (forall i :: 0 <= i < |packets| ==> packets[i].sequence == s.sender.nextSequence + i)
      && NumbersOf(packets) == Run(s.sender.nextSequence, |packets|)
  {
    PacketsCountUp(s, channelId, payload, options, plan);
    hide PacketsOf;
    NumbersOfConsecutive(PacketsOf(s, channelId, payload, options, plan), s.sender.nextSequence);
  }

  lemma PacketsCountUp(s: State, channelId: ChannelId, payload: Bytes, options: SendOptions, plan: Plan)
    requires HasRoom(s, PacketCount(plan))
    ensures var packets := PacketsOf(s, channelId, payload, options, plan);
      |packets| == PacketCount(plan)
      && forall i :: 0 <= i < |packets| ==> packets[i].sequence == s.sender.nextSequence + i
  {
    hide StampOf, Chunk;
  }

  lemma NumbersOfConsecutive(packets: seq<Packet>, first: u32)
    requires first + |packets| <= U32_MAX
    requires forall i :: 0 <= i < |packets| ==> packets[i].sequence == first + i
    ensures NumbersOf(packets) == Run(first, |packets|)
  {
    forall q: u32
      ensures q in NumbersOf(packets) <==> q in Run(first, |packets|)
    {
      if InRun(first, |packets|, q) { assert packets[q - first] in packets; }
      if q in NumbersOf(packets) {
        var p :| p in packets && p.sequence == q;
        var i :| 0 <= i < |packets| && packets[i] == p;
        assert InRun(first, |packets|, q);
      }
    }
  }

  /** A step from s to s' that starts tracking t, and settles a as acknowledged, e as expired and b as abandoned:
      what it tracks is fresh, what it settles was pending, nothing else changes hands,
      and a packet that stays pending is the one first sent, with its first deadline. */
  ghost predicate Moves(s: Sender, s': Sender, t: set<u32>, a: set<u32>, e: set<u32>, b: set<u32>) {
    && s'.pending.Keys == (s.pending.Keys - (a + e + b)) + t
    && (forall q :: q in t ==> s.nextSequence <= q < s'.nextSequence)
    && a + e + b <= s.pending.Keys
    && a !! e !! b
    && s'.expired == s.expired + |e|
    && s.nextSequence <= s'.nextSequence
    && KeepsEntries(s.pending, s'.pending)
  }

  ghost predicate SamePacket(x: Pending, y: Pending) {
    x.packet == y.packet && x.expiresAtMs == y.expiresAtMs
  }

  ghost predicate KeepsEntries(before: map<u32, Pending>, after: map<u32, Pending>) {
    forall k :: k in after ==>
      if k in before then SamePacket(after[k], before[k]) else after[k].packet.sequence == k
  }

  /** Each entry sits under its own packet's number, which was handed out. */
  ghost predicate Keyed(s: Sender) {
    forall k :: k in s.pending ==> s.pending[k].packet.sequence == k < s.nextSequence
  }

  lemma MovesKeepKeyed(s: Sender, s': Sender, t: set<u32>, a: set<u32>, e: set<u32>, b: set<u32>)
    requires Keyed(s) && Moves(s, s', t, a, e, b)
    ensures Keyed(s')
  {
    forall k | k in s'.pending
      ensures s'.pending[k].packet.sequence == k < s'.nextSequence
    {
      if k in s.pending { assert SamePacket(s'.pending[k], s.pending[k]); }
    }
  }

  lemma IdleMoves(s: Sender, s': Sender)
    requires Keyed(s) && s'.pending == s.pending && s'.expired == s.expired && s.nextSequence <= s'.nextSequence
    ensures Moves(s, s', {}, {}, {}, {})
  {
  }

  /** Putting fresh entries into the table. */
  lemma AddMoves(s: Sender, s': Sender, added: map<u32, Pending>)
    requires Keyed(s) && s'.pending == s.pending + added && s'.expired == s.expired && s.nextSequence <= s'.nextSequence
    requires forall k :: k in added ==> s.nextSequence <= k < s'.nextSequence && added[k].packet.sequence == k
    ensures Moves(s, s', added.Keys, {}, {}, {})
  {
  }

  /** Taking acknowledged entries out of the table. */
  lemma RemoveMoves(s: Sender, s': Sender, gone: set<u32>)
    requires Keyed(s) && s'.pending == s.pending - gone && s'.expired == s.expired && s.nextSequence <= s'.nextSequence
    ensures Moves(s, s', {}, gone * s.pending.Keys, {}, {})
  {
  }

  lemma EntriesAreFresh(s: State, channelId: ChannelId, payload: Bytes, options: SendOptions, plan: Plan)
    requires HasRoom(s, PacketCount(plan))
    ensures var packets := PacketsOf(s, channelId, payload, options, plan);
      var first := s.sender.nextSequence;
      var added := Entries(packets, first, options);
      && added.Keys == NumbersOf(packets)
      && forall k :: k in added ==> first <= k < first + |packets| && added[k].packet.sequence == k
  {
    PacketsAreConsecutive(s, channelId, payload, options, plan);
    hide PacketsOf;
    EntriesOfConsecutive(PacketsOf(s, channelId, payload, options, plan), s.sender.nextSequence, options);
  }

  lemma EntriesOfConsecutive(packets: seq<Packet>, first: u32, options: SendOptions)
    requires first + |packets| <= U32_MAX
    requires forall i :: 0 <= i < |packets| ==> packets[i].sequence == first + i
    ensures var added := Entries(packets, first, options);
      && added.Keys == Run(first, |packets|)
      && (forall k: u32 :: k in added <==> first <= k < first + |packets|)
      && forall k :: k in added ==> added[k].packet.sequence == k && added[k].packet == packets[k - first]
  {
    forall k: u32 ensures k in Run(first, |packets|) <==> first <= k < first + |packets| {
      assert InRun(first, |packets|, k) <==> first <= k < first + |packets|;
    }
  }

  function TrackedIf(reliable: bool, packets: seq<Packet>): set<u32> {
    if reliable then NumbersOf(packets) else {}
  }

  lemma SentMoves(s: State, channelId: ChannelId, payload: Bytes, options: SendOptions, plan: Plan)
    requires HasRoom(s, PacketCount(plan)) && Keyed(s.sender)
    ensures Moves(s.sender, Sent(s, channelId, payload, options, plan).sender,
                  TrackedIf(options.reliable, PacketsOf(s, channelId, payload, options, plan)), {}, {}, {})
  {
    var packets := PacketsOf(s, channelId, payload, options, plan);
    var s' := Sent(s, channelId, payload, options, plan).sender;
    EntriesAreFresh(s, channelId, payload, options, plan);
    if options.reliable {
      AddMoves(s.sender, s', Entries(packets, s.sender.nextSequence, options));
    } else {
      IdleMoves(s.sender, s');
    }
    hide Moves;
  }

  lemma PurgeMoves(s: State, nowMs: u64)
    requires Keyed(s.sender)
    ensures Moves(s.sender, Purged(s, nowMs).sender, {}, {}, ExpiredKeys(s, nowMs), {})
  {
  }

  lemma MovesJoin(s: Sender, s1: Sender, s2: Sender, e: set<u32>, t: set<u32>)
    requires Keyed(s) && Moves(s, s1, {}, {}, e, {}) && Moves(s1, s2, t, {}, {}, {})
    ensures Moves(s, s2, t, {}, e, {})
  {
  }

  lemma SendMoves(s: State, channelId: ChannelId, payload: Bytes, options: SendOptions, max: Option<nat>)
    requires CanSend(s, |payload|, options, max) && Keyed(s.sender)
    ensures var (s', r) := SendMany(s, channelId, payload, options, max);
      Moves(s.sender, s'.sender, TrackedIf(options.reliable, if r.Ok? then r.value else []), {},
            if s.connected then ExpiredKeys(s, options.nowMs) else {}, {})
  {
    var plan := SendPlan(s, |payload|, options, max);
    var purged := Purged(s, options.nowMs);
    if !s.connected {
      IdleMoves(s.sender, s.sender);
    } else {
      PurgeMoves(s, options.nowMs);
      if plan.Ok? {
        MovesKeepKeyed(s.sender, purged.sender, {}, {}, ExpiredKeys(s, options.nowMs), {});
        SentMoves(purged, channelId, payload, options, plan.value);
        MovesJoin(s.sender, purged.sender, Sent(purged, channelId, payload, options, plan.value).sender,
                  ExpiredKeys(s, options.nowMs),
                  TrackedIf(options.reliable, PacketsOf(purged, channelId, payload, options, plan.value)));
      }
    }
    assert TrackedIf(options.reliable, []) == {};
    hide Moves, Keyed, Purged, Sent, PacketsOf, ExpiredKeys, TrackedIf;
  }

  lemma ReceiveMoves(s: State, p: Packet, nowMs: u64)
    requires CanReceive(s, p) && Keyed(s.sender)
    ensures Moves(s.sender, Protocol.Receive(s, p, nowMs).0.sender, {},
                  if p.connectionId == s.connectionId then Acknowledged(p.ack, p.ackMask) * s.sender.pending.Keys
                  else {},
                  {}, {})
  {
    if p.connectionId == s.connectionId {
      ReceivedFields(s, p, nowMs);
      hide Protocol.Receive, Acknowledged;
      RemoveMoves(s.sender, Protocol.Receive(s, p, nowMs).0.sender, Acknowledged(p.ack, p.ackMask));
    } else {
      IdleMoves(s.sender, s.sender);
    }
  }

  lemma NumbersOfOne(packets: seq<Packet>)
    requires |packets| <= 1
    ensures NumbersOf(packets) == if packets == [] then {} else {packets[0].sequence}
  {
    if packets != [] { assert packets[0] in packets; }
  }

  /** A control packet that is tracked goes under the number it was given. */
  lemma TrackMoves(s: Sender, s': Sender, packet: Packet, nowMs: u64)
    requires Keyed(s) && packet.sequence == s.nextSequence < U32_MAX
    requires s' == s.(nextSequence := s.nextSequence + 1,
               pending := s.pending[packet.sequence := Entry(packet, nowMs, None)])
    ensures Moves(s, s', {packet.sequence}, {}, {}, {})
  {
    var added := map[packet.sequence := Entry(packet, nowMs, None)];
    assert s.pending + added == s'.pending;
    AddMoves(s, s', added);
  }

  lemma DialMoves(s: State, nowMs: u64, payload: Bytes)
    requires (HasCapacity(s, 1) ==> HasRoom(s, 1)) && Keyed(s.sender)
    ensures var (s', r) := CreateConnect(s, nowMs, payload);
      Moves(s.sender, s'.sender, if r.Ok? then {r.value.sequence} else {}, {}, {}, {})
  {
    if HasCapacity(s, 1) {
      TrackMoves(s.sender, CreateConnect(s, nowMs, payload).0.sender, ControlPacket(s, Connect, payload, true), nowMs);
    } else {
      IdleMoves(s.sender, s.sender);
    }
    hide Moves;
  }

  lemma AnswerMoves(s: State, p: Packet, nowMs: u64, payload: Bytes)
    requires (WillAccept(s, p) ==> HasRoom(s, 1)) && Keyed(s.sender)
    ensures var (s', r) := AcceptConnect(s, p, nowMs, payload);
      Moves(s.sender, s'.sender, if r.Ok? && !s.connected then {r.value.sequence} else {}, {}, {}, {})
  {
    var (s', r) := AcceptConnect(s, p, nowMs, payload);
    if r.Ok? && !s.connected {
      TrackMoves(s.sender, s'.sender, r.value, nowMs);
    } else {
      IdleMoves(s.sender, s'.sender);
    }
    hide Moves;
  }

  lemma ResentMoves(s: State, nowMs: u64)
    requires Keyed(s.sender)
    ensures Moves(s.sender, Resent(s, nowMs).sender, {}, {}, ExpiredKeys(s, nowMs), {})
  {
    var purged, resent := Purged(s, nowMs), Resent(s, nowMs);
    PurgeMoves(s, nowMs);
    TouchingKeepsPackets(purged.sender.pending, s.resendDelayMs, nowMs);
    hide Touched, ExpiredKeys, SamePacket, Keyed, Purged;
    TouchMoves(purged.sender, resent.sender);
    hide Moves;
    MovesJoin(s.sender, purged.sender, resent.sender, ExpiredKeys(s, nowMs), {});
  }

  lemma TouchMoves(s: Sender, s': Sender)
    requires s'.pending.Keys == s.pending.Keys && s'.expired == s.expired && s'.nextSequence == s.nextSequence
    requires forall k :: k in s.pending ==> SamePacket(s'.pending[k], s.pending[k])
    ensures Moves(s, s', {}, {}, {}, {})
  {
  }

  lemma TouchingKeepsPackets(pending: map<u32, Pending>, resendDelayMs: u64, nowMs: u64)
    ensures var touched := Touched(pending, resendDelayMs, nowMs);
      touched.Keys == pending.Keys && forall k :: k in pending ==> SamePacket(touched[k], pending[k])
  {
  }

  lemma ResetMoves(s: State)
    requires Keyed(s.sender)
    ensures Moves(s.sender, ResetPeerState(s).sender, {}, {}, {}, s.sender.pending.Keys)
  {
  }

  lemma HandshakeTracks(s: State, op: Op)
    requires CanStep(s, op) && (op.Dial? || op.AnswerDial?)
    ensures TrackedBy(s, op) == match op
      case Dial(now, payload) => var r := CreateConnect(s, now, payload).1; if r.Ok? then {r.value.sequence} else {}
      case AnswerDial(p, now, payload) =>
        var r := AcceptConnect(s, p, now, payload).1; if r.Ok? && !s.connected then {r.value.sequence} else {}
      case _ => {}
  {
    NumbersOfOne(Step(s, op).emitted);
    hide NumbersOf;
  }

  lemma StepMoves(s: State, op: Op)
    requires CanStep(s, op) && Keyed(s.sender)
    ensures Moves(s.sender, Step(s, op).state.sender, TrackedBy(s, op), AckedBy(s, op), ExpiredBy(s, op),
                  if op.ResetPeer? then s.sender.pending.Keys else {})
  {
    hide Moves, SendMany, Protocol.Receive, CreateConnect, AcceptConnect, Resent, NumbersOf, ExpiredKeys,
      ResetPeerState;
    match op
    case SendMessage(channelId, payload, options, max) => SendMoves(s, channelId, payload, options, max);
    case TakePacket(p, now) => ReceiveMoves(s, p, now);
    case Dial(now, payload) => DialMoves(s, now, payload); HandshakeTracks(s, op);
    case AnswerDial(p, now, payload) => AnswerMoves(s, p, now, payload); HandshakeTracks(s, op);
    case ResendDue(now) => ResentMoves(s, now);
    case ResetPeer => ResetMoves(s);
    case _ => IdleMoves(s.sender, Step(s, op).state.sender);
  }

  // ---- The ledger

  /** Every number ever tracked is in exactly one book, and the expired book is counted. */
  ghost predicate Books(tracked: set<u32>, pending: set<u32>, acked: set<u32>, expired: set<u32>, abandoned: set<u32>,
                        counter: nat, next: u32)
  {
    && tracked == pending + acked + expired + abandoned
    && pending !! acked !! expired !! abandoned
    && |expired| == counter
    && (forall q :: q in tracked ==> q < next)
  }

  /** Settling pending numbers and tracking fresh ones keeps the books. */
  lemma SettlingKeepsBooks(tracked: set<u32>, pending: set<u32>, acked: set<u32>, expired: set<u32>,
                           abandoned: set<u32>, counter: nat, next: u32, t: set<u32>, a: set<u32>, e: set<u32>,
                           b: set<u32>, next': u32)
    requires Books(tracked, pending, acked, expired, abandoned, counter, next)
    requires a + e + b <= pending && a !! e !! b
    requires next <= next' && forall q :: q in t ==> next <= q < next'
    ensures Books(tracked + t, (pending - (a + e + b)) + t, acked + a, expired + e, abandoned + b, counter + |e|, next')
  {
    SettlingKeepsUnion(tracked, pending, acked, expired, abandoned, t, a, e, b);
    assert forall q :: q in t ==> q !in tracked;
    SettlingKeepsApart(pending, acked, expired, abandoned, t, a, e, b);
    assert expired !! e;
    assert |expired + e| == |expired| + |e|;
  }

  lemma SettlingKeepsUnion(tracked: set<u32>, pending: set<u32>, acked: set<u32>, expired: set<u32>,
                           abandoned: set<u32>, t: set<u32>, a: set<u32>, e: set<u32>, b: set<u32>)
    requires tracked == pending + acked + expired + abandoned && a + e + b <= pending
    ensures tracked + t == ((pending - (a + e + b)) + t) + (acked + a) + (expired + e) + (abandoned + b)
  {
  }

  lemma SettlingKeepsApart(pending: set<u32>, acked: set<u32>, expired: set<u32>, abandoned: set<u32>,
                           t: set<u32>, a: set<u32>, e: set<u32>, b: set<u32>)
    requires pending !! acked !! expired !! abandoned && a + e + b <= pending && a !! e !! b
    requires t !! (pending + acked + expired + abandoned)
    ensures ((pending - (a + e + b)) + t) !! (acked + a) !! (expired + e) !! (abandoned + b)
  {
  }

  ghost predicate Balanced(h: History) {
    && Keyed(h.state.sender)
    && Books(h.tracked, h.state.sender.pending.Keys, h.acked, h.expired, h.abandoned,
             h.state.sender.expired, h.state.sender.nextSequence)
  }

  lemma FollowsIsBalanced(h: History, op: Op, h': History)
    requires Follows(h, op, h') && Balanced(h)
    ensures Balanced(h')
  {
    hide Step, CanStep, TrackedBy, AckedBy, ExpiredBy, ResendsBy, KeepsEntries, Keyed, Books;
    var gone := if op.ResetPeer? then h.state.sender.pending.Keys else {};
    StepMoves(h.state, op);
    MovesKeepKeyed(h.state.sender, h'.state.sender, TrackedBy(h.state, op), AckedBy(h.state, op),
                   ExpiredBy(h.state, op), gone);
    SettlingKeepsBooks(h.tracked, h.state.sender.pending.Keys, h.acked, h.expired, h.abandoned,
                       h.state.sender.expired, h.state.sender.nextSequence,
                       TrackedBy(h.state, op), AckedBy(h.state, op), ExpiredBy(h.state, op),
                       gone, h'.state.sender.nextSequence);
  }

  lemma StartIsBalanced(options: SessionOptions)
    ensures Balanced(Start(options))
  {
  }

  lemma {:induction false} RunIsBalanced(options: SessionOptions, run: seq<History>, ops: seq<Op>, n: nat)
    requires IsRun(options, run, ops) && n < |run|
    ensures Balanced(run[n])
  {
    hide Balanced, Follows;
    if n == 0 {
      StartIsBalanced(options);
    } else {
      RunIsBalanced(options, run, ops, n - 1);
      FollowsIsBalanced(run[n - 1], ops[n - 1], run[n]);
    }
  }

  // ---- The bounded queue and all-or-nothing sends

  ghost predicate Bounded(s: State) {
    s.maxPending.Some? ==> |s.sender.pending| <= s.maxPending.value
  }

  lemma SmallerIsBounded<T>(m: map<u32, T>, gone: set<u32>)
    ensures |m - gone| <= |m|
  {
    SubsetSize((m - gone).Keys, m.Keys);
    assert |(m - gone).Keys| == |m - gone| && |m.Keys| == |m|;
  }

  lemma SubsetSize<T>(a: set<T>, b: set<T>)
    requires a <= b
    ensures |a| <= |b|
  {
    assert b == a + (b - a);
  }

  lemma UnionSize<T>(m: map<u32, T>, added: map<u32, T>)
    ensures |m + added| <= |m| + |added|
  {
    assert (m + added).Keys == m.Keys + added.Keys;
    assert |m.Keys + added.Keys| <= |m.Keys| + |added.Keys|;
    assert |(m + added).Keys| == |m + added| && |m.Keys| == |m| && |added.Keys| == |added|;
  }

  lemma SentIsBounded(s: State, channelId: ChannelId, payload: Bytes, options: SendOptions, plan: Plan)
    requires HasRoom(s, PacketCount(plan)) && Bounded(s)
    requires options.reliable ==> HasCapacity(s, PacketCount(plan)) && PacketCount(plan) > 0
    ensures Bounded(Sent(s, channelId, payload, options, plan))
  {
    var packets := PacketsOf(s, channelId, payload, options, plan);
    var entries := Entries(packets, s.sender.nextSequence, options);
    UnionSize(s.sender.pending, entries);
    RunSize(s.sender.nextSequence, |packets|);
    assert entries.Keys == Run(s.sender.nextSequence, |packets|);
    assert |entries.Keys| == |entries|;
    hide Run, PacketsOf, Entries;
  }

  lemma SendIsBounded(s: State, channelId: ChannelId, payload: Bytes, options: SendOptions, max: Option<nat>)
    requires CanSend(s, |payload|, options, max) && Bounded(s)
    ensures Bounded(SendMany(s, channelId, payload, options, max).0)
  {
    var plan := SendPlan(s, |payload|, options, max);
    SmallerIsBounded(s.sender.pending, ExpiredKeys(s, options.nowMs));
    if plan.Ok? {
      var purged := Purged(s, options.nowMs);
      assert plan.value.Fragmented? ==> plan.value.count > 0
        by { DivCeilCovers(|payload|, if max.Some? then max.value else 1); }
      SentIsBounded(purged, channelId, payload, options, plan.value);
    }
    hide Sent, ExpiredKeys;
  }

  lemma DivCeilCovers(length: nat, size: nat)
    requires size > 0 || length == 0
    ensures length > size > 0 ==> DivCeil(length, size) > 1
  {
    if length > size > 0 {
      var x := length + size - 1;
      var q := x / size;
      assert x == q * size + x % size;
      if q <= 1 {
        Monotone(q, 1, size);
        assert false;
      }
    }
  }

  lemma StepIsBounded(s: State, op: Op)
    requires CanStep(s, op) && Bounded(s)
    ensures Bounded(Step(s, op).state) && Step(s, op).state.maxPending == s.maxPending
  {
    hide SendMany, Protocol.Receive;
    match op
    case SendMessage(channelId, payload, options, max) =>
      SendIsBounded(s, channelId, payload, options, max);
      SendKeepsLimits(s, channelId, payload, options, max);
    case TakePacket(p, now) =>
      if p.connectionId == s.connectionId {
        ReceivedFields(s, p, now);
        SmallerIsBounded(s.sender.pending, Acknowledged(p.ack, p.ackMask));
      } else {
        ForeignPacketIsRefused(s, p, now);
      }
    case ResendDue(now) =>
      SmallerIsBounded(s.sender.pending, ExpiredKeys(s, now));
      TouchedSize(s.sender.pending - ExpiredKeys(s, now), s.resendDelayMs, now);
    case _ =>
  }

  lemma SendKeepsLimits(s: State, channelId: ChannelId, payload: Bytes, options: SendOptions, max: Option<nat>)
    requires CanSend(s, |payload|, options, max)
    ensures var s' := SendMany(s, channelId, payload, options, max).0;
      s'.maxPending == s.maxPending && s'.resendDelayMs == s.resendDelayMs && s'.connected == s.connected
      && s'.receiver == s.receiver && s'.connectionId == s.connectionId
  {
  }

  lemma ForeignPacketIsRefused(s: State, p: Packet, nowMs: u64)
    requires CanReceive(s, p) && p.connectionId != s.connectionId
    ensures Protocol.Receive(s, p, nowMs) == (s, Err(WrongConnection))
  {
  }

  lemma TouchedSize(pending: map<u32, Pending>, resendDelayMs: u64, nowMs: u64)
    ensures |Touched(pending, resendDelayMs, nowMs)| == |pending|
  {
    assert Touched(pending, resendDelayMs, nowMs).Keys == pending.Keys;
    assert |pending.Keys| == |pending|;
    assert |Touched(pending, resendDelayMs, nowMs).Keys| == |Touched(pending, resendDelayMs, nowMs)|;
  }

  /** With a limit set, no run of any operations ever has more reliable packets pending than the limit. */
  lemma {:induction false} QueueIsBounded(options: SessionOptions, run: seq<History>, ops: seq<Op>, n: nat)
    requires IsRun(options, run, ops) && n < |run|
    ensures run[n].state.maxPending == options.maxPending
    ensures Bounded(run[n].state)
  {
    hide Bounded, Step;
    if n == 0 {
      StartIsBounded(options);
    } else {
      QueueIsBounded(options, run, ops, n - 1);
      assert Follows(run[n - 1], ops[n - 1], run[n]);
      StepIsBounded(run[n - 1].state, ops[n - 1]);
    }
  }

  lemma StartIsBounded(options: SessionOptions)
    ensures Bounded(Start(options).state) && Start(options).state.maxPending == options.maxPending
  {
  }

  /** A send that fails has consumed no sequence number and no fragment id and tracked nothing: it only purged.
      A send that succeeds hands out consecutive fresh numbers and, if reliable, tracks every packet under its own. */
  lemma SendIsAllOrNothing(s: State, channelId: ChannelId, payload: Bytes, options: SendOptions, max: Option<nat>)
    requires CanSend(s, |payload|, options, max) && Keyed(s.sender)
    ensures var (s', r) := SendMany(s, channelId, payload, options, max);
      var left := s.sender.pending - ExpiredKeys(s, options.nowMs);
      && (r.Err? ==>
            && s'.sender.nextSequence == s.sender.nextSequence && s'.sender.nextFragmentId == s.sender.nextFragmentId
            && s'.sender.pending == if s.connected then left else s.sender.pending)
      && (r.Ok? ==>
            && |r.value| > 0
            && s'.sender.nextSequence == s.sender.nextSequence + |r.value|
            && (forall i :: 0 <= i < |r.value| ==> r.value[i].sequence == s.sender.nextSequence + i)
            && (forall k :: k in s'.sender.pending <==>
                  k in left || (options.reliable && s.sender.nextSequence <= k < s'.sender.nextSequence))
            && (forall k :: k in left ==> s'.sender.pending[k] == left[k])
            && (options.reliable ==> forall i :: 0 <= i < |r.value| ==>
                  s.sender.nextSequence + i in s'.sender.pending
                  && s'.sender.pending[s.sender.nextSequence + i].packet == r.value[i]))
  {
    hide SendMany, CanSend, Sent, PacketsOf, ExpiredKeys, SendPlan;
    PlanIsNotEmpty(s, |payload|, options, max);
    SendFollowsPlan(s, channelId, payload, options, max);
    var plan := SendPlan(s, |payload|, options, max);
    if plan.Ok? {
      var purged := Purged(s, options.nowMs);
      SentExactly(purged, channelId, payload, options, plan.value);
      assert forall k :: k in purged.sender.pending ==> k < s.sender.nextSequence;
    }
  }

  /** A send purges first if connected, and then carries out its plan, if it has one. */
  lemma SendFollowsPlan(s: State, channelId: ChannelId, payload: Bytes, options: SendOptions, max: Option<nat>)
    requires CanSend(s, |payload|, options, max)
    ensures var (s', r) := SendMany(s, channelId, payload, options, max);
      var plan, purged := SendPlan(s, |payload|, options, max), Purged(s, options.nowMs);
      && (plan.Err? ==> r == Err(plan.error) && s' == if s.connected then purged else s)
      && (plan.Ok? ==>
            && HasRoom(purged, PacketCount(plan.value))
            && s' == Sent(purged, channelId, payload, options, plan.value)
            && r == Ok(PacketsOf(purged, channelId, payload, options, plan.value)))
  {
    hide SendPlan, Sent, PacketsOf, ExpiredKeys;
  }

  /** A send that will succeed has a packet to send, and only a connected session plans one. */
  lemma PlanIsNotEmpty(s: State, length: nat, options: SendOptions, max: Option<nat>)
    ensures var plan := SendPlan(s, length, options, max); plan.Ok? ==> s.connected && PacketCount(plan.value) > 0
  {
    hide Purged, HasCapacity;
    if max.Some? && max.value > 0 { DivCeilCovers(length, max.value); }
  }

  /** all is the table pending with entries put in for packets under consecutive numbers. */
  ghost predicate HasAdded(all: map<u32, Pending>, pending: map<u32, Pending>, packets: seq<Packet>, first: u32) {
    && (forall k :: k in all <==> k in pending || first <= k < first + |packets|)
    && (forall k :: k in pending && k < first ==> all[k] == pending[k])
    && (forall i :: 0 <= i < |packets| && first + i <= U32_MAX ==>
          first + i in all && all[first + i].packet == packets[i])
  }

  lemma EntriesAdded(pending: map<u32, Pending>, added: map<u32, Pending>, packets: seq<Packet>, first: u32)
    requires first + |packets| <= U32_MAX
    requires forall k: u32 :: k in added <==> first <= k < first + |packets|
    requires forall k :: k in added ==> added[k].packet == packets[k - first]
    ensures HasAdded(pending + added, pending, packets, first)
  {
  }

  lemma SentFields(s: State, channelId: ChannelId, payload: Bytes, options: SendOptions, plan: Plan)
    requires HasRoom(s, PacketCount(plan))
    ensures var packets := PacketsOf(s, channelId, payload, options, plan);
      var first, s' := s.sender.nextSequence, Sent(s, channelId, payload, options, plan);
      && first + |packets| <= U32_MAX && s'.sender.nextSequence == first + |packets|
      && s'.sender.pending
           == if options.reliable then s.sender.pending + Entries(packets, first, options) else s.sender.pending
  {
    hide Entries, Run;
  }

  lemma SentExactly(s: State, channelId: ChannelId, payload: Bytes, options: SendOptions, plan: Plan)
    requires HasRoom(s, PacketCount(plan))
    ensures var packets := PacketsOf(s, channelId, payload, options, plan);
      var s' := Sent(s, channelId, payload, options, plan);
      var first := s.sender.nextSequence;
      && |packets| == PacketCount(plan)
      && s'.sender.nextSequence == first + |packets|
      && (forall i :: 0 <= i < |packets| ==> packets[i].sequence == first + i)
      && (if options.reliable then HasAdded(s'.sender.pending, s.sender.pending, packets, first)
          else s'.sender.pending == s.sender.pending)
  {
    hide Sent, PacketsOf, Entries, Run, HasAdded, PacketCount;
    SentFields(s, channelId, payload, options, plan);
    PacketsCountUp(s, channelId, payload, options, plan);
    var packets := PacketsOf(s, channelId, payload, options, plan);
    EntriesOfConsecutive(packets, s.sender.nextSequence, options);
    EntriesAdded(s.sender.pending, Entries(packets, s.sender.nextSequence, options), packets, s.sender.nextSequence);
  }

  // ---- Resends

  /** What any one operation does to the sending half. */
  ghost predicate Progress(s: State, s': State) {
    && s.sender.nextSequence <= s'.sender.nextSequence
    && s'.resendDelayMs == s.resendDelayMs
    && KeepsEntries(s.sender.pending, s'.sender.pending)
    && (forall k :: k in s'.sender.pending && k < s.sender.nextSequence ==> k in s.sender.pending)
  }

  lemma FollowsIsProgress(h: History, op: Op, h': History)
    requires Follows(h, op, h') && Balanced(h)
    ensures Progress(h.state, h'.state)
  {
    hide Step, CanStep, TrackedBy, AckedBy, ExpiredBy, ResendsBy, KeepsEntries, Keyed, Books;
    StepMoves(h.state, op);
    DelayIsFixed(h.state, op);
  }

  lemma DelayIsFixed(s: State, op: Op)
    requires CanStep(s, op)
    ensures Step(s, op).state.resendDelayMs == s.resendDelayMs
  {
    hide SendMany;
    if op.SendMessage? { SendKeepsLimits(s, op.channelId, op.payload, op.options, op.maxFragmentBytes); }
  }

  /** An old packet still pending after an operation was pending before it, unchanged. */
  lemma ProgressKeepsOld(s: State, s': State, k: u32)
    requires Progress(s, s') && k in s'.sender.pending && k < s.sender.nextSequence
    ensures k in s.sender.pending && SamePacket(s'.sender.pending[k], s.sender.pending[k])
  {
  }

  lemma RunProgress(options: SessionOptions, run: seq<History>, ops: seq<Op>, n: nat)
    requires IsRun(options, run, ops) && n < |ops|
    ensures Balanced(run[n]) && Progress(run[n].state, run[n + 1].state)
  {
    hide Follows, Balanced, Progress;
    RunIsBalanced(options, run, ops, n);
    FollowsIsProgress(run[n], ops[n], run[n + 1]);
  }

  lemma {:induction false} NumbersOnlyGrow(options: SessionOptions, run: seq<History>, ops: seq<Op>, i: nat, j: nat)
    requires IsRun(options, run, ops) && i <= j < |run|
    ensures run[i].state.sender.nextSequence <= run[j].state.sender.nextSequence
    decreases j
  {
    hide Follows, Balanced;
    if i < j {
      NumbersOnlyGrow(options, run, ops, i, j - 1);
      RunProgress(options, run, ops, j - 1);
    }
  }

  lemma PendingIsNumbered(options: SessionOptions, run: seq<History>, ops: seq<Op>, n: nat, k: u32)
    requires IsRun(options, run, ops) && n < |run| && k in run[n].state.sender.pending
    ensures k < run[n].state.sender.nextSequence
  {
    RunIsBalanced(options, run, ops, n);
    hide Follows, Books;
  }

  /** While a packet is pending it never changes: whenever it is sent again it is the packet first sent,
      and its deadline is the first one. */
  lemma {:induction false} PendingPacketsNeverChange(options: SessionOptions, run: seq<History>, ops: seq<Op>, i: nat,
                                                     j: nat, k: u32)
    requires IsRun(options, run, ops) && i <= j < |run|
    requires k in run[i].state.sender.pending && k in run[j].state.sender.pending
    ensures SamePacket(run[j].state.sender.pending[k], run[i].state.sender.pending[k])
    decreases j
  {
    hide Follows, Balanced, Progress, Start;
    if i < j {
      PendingIsNumbered(options, run, ops, i, k);
      NumbersOnlyGrow(options, run, ops, i, j - 1);
      RunProgress(options, run, ops, j - 1);
      hide IsRun;
      ProgressKeepsOld(run[j - 1].state, run[j].state, k);
      PendingPacketsNeverChange(options, run, ops, i, j - 1, k);
    }
  }

  /** A packet is never sent again after its deadline. */
  lemma NoResendAfterTheDeadline(options: SessionOptions, run: seq<History>, ops: seq<Op>, i: nat, j: nat, k: u32)
    requires IsRun(options, run, ops) && i <= j < |ops|
    requires k in run[i].state.sender.pending && run[i].state.sender.pending[k].expiresAtMs.Some?
    requires ops[j].ResendDue? && k in DueKeys(run[j].state, ops[j].nowMs)
    ensures ops[j].nowMs <= run[i].state.sender.pending[k].expiresAtMs.value
  {
    PendingPacketsNeverChange(options, run, ops, i, j, k);
  }

  /** Every resend of a packet still pending happened no later than the time the table remembers;
      resends of one packet are spaced by the delay. */
  ghost predicate Spaced(s: State, resends: seq<Resend>) {
    && (forall i :: 0 <= i < |resends| ==> RememberedBy(s.sender, resends[i]))
    && (forall i, j :: 0 <= i < j < |resends| && resends[i].sequence == resends[j].sequence ==>
          resends[j].atMs >= resends[i].atMs + s.resendDelayMs)
  }

  ghost predicate RememberedBy(s: Sender, x: Resend) {
    && x.sequence < s.nextSequence
    && (x.sequence in s.pending ==> s.pending[x.sequence].lastSentAtMs >= x.atMs)
  }

  /** An operation other than a resend leaves the send times of what stays pending alone. */
  ghost predicate KeepsTimes(s: Sender, s': Sender) {
    forall k :: k in s'.pending && k < s.nextSequence ==>
      k in s.pending && s'.pending[k].lastSentAtMs == s.pending[k].lastSentAtMs
  }

  lemma StepKeepsTimes(s: State, op: Op)
    requires CanStep(s, op) && Keyed(s.sender) && !op.ResendDue?
    ensures KeepsTimes(s.sender, Step(s, op).state.sender)
  {
    hide SendMany, Protocol.Receive;
    match op
    case SendMessage(channelId, payload, options, max) =>
      SendKeepsTimes(s, channelId, payload, options, max);
    case TakePacket(p, now) =>
      if p.connectionId == s.connectionId { ReceivedFields(s, p, now); } else { ForeignPacketIsRefused(s, p, now); }
    case _ =>
  }

  lemma SendKeepsTimes(s: State, channelId: ChannelId, payload: Bytes, options: SendOptions, max: Option<nat>)
    requires CanSend(s, |payload|, options, max) && Keyed(s.sender)
    ensures KeepsTimes(s.sender, SendMany(s, channelId, payload, options, max).0.sender)
  {
    hide SendMany, SendPlan, CanSend, ExpiredKeys;
    SendIsAllOrNothing(s, channelId, payload, options, max);
    var left := s.sender.pending - ExpiredKeys(s, options.nowMs);
    var sent := SendMany(s, channelId, payload, options, max).0.sender.pending;
    forall k | k in sent && k < s.sender.nextSequence
      ensures k in s.sender.pending && sent[k].lastSentAtMs == s.sender.pending[k].lastSentAtMs
    {
      if k in left { assert left[k] == s.sender.pending[k]; }
    }
  }

  lemma OthersKeepSpacing(s: State, s': State, resends: seq<Resend>)
    requires Spaced(s, resends) && KeepsTimes(s.sender, s'.sender)
    requires s'.resendDelayMs == s.resendDelayMs && s.sender.nextSequence <= s'.sender.nextSequence
    ensures Spaced(s', resends)
  {
    forall i | 0 <= i < |resends|
      ensures RememberedBy(s'.sender, resends[i])
    {
      assert RememberedBy(s.sender, resends[i]);
    }
  }

  ghost predicate NoLaterThan(resends: seq<Resend>, nowMs: u64) {
    forall i :: 0 <= i < |resends| ==> resends[i].atMs <= nowMs
  }

  lemma ResendKeepsSpacing(s: State, nowMs: u64, resends: seq<Resend>, more: seq<Resend>)
    requires Spaced(s, resends) && Keyed(s.sender)
    requires s.resendDelayMs > 0 || NoLaterThan(resends, nowMs)
    requires ResendsBy(s, ResendDue(nowMs), more)
    ensures Spaced(Resent(s, nowMs), resends + more)
  {
    var s' := Resent(s, nowMs);
    var all := resends + more;
    forall i | 0 <= i < |all|
      ensures RememberedBy(s'.sender, all[i])
    {
      if i < |resends| { assert RememberedBy(s.sender, resends[i]); } else { assert all[i] in more; }
    }
    assert forall x :: 0 <= x < |all| ==> all[x] == if x < |resends| then resends[x] else more[x - |resends|];
    assert forall x, y :: 0 <= x < y < |more| ==> more[x].sequence != more[y].sequence;
    forall i, j | 0 <= i < j < |all| && all[i].sequence == all[j].sequence
      ensures all[j].atMs >= all[i].atMs + s.resendDelayMs
    {
      if j >= |resends| {
        assert all[j] in more;
        assert RememberedBy(s.sender, all[i]);
      }
    }
  }

  lemma FollowsIsSpaced(h: History, op: Op, h': History)
    requires Follows(h, op, h') && Balanced(h)
    requires Spaced(h.state, h.resends)
    requires op.ResendDue? ==> h.state.resendDelayMs > 0 || NoLaterThan(h.resends, op.nowMs)
    ensures Spaced(h'.state, h'.resends)
  {
    hide Spaced, TrackedBy, AckedBy, ExpiredBy, Books;
    FollowsIsProgress(h, op, h');
    hide Balanced;
    var more := h'.resends[|h.resends|..];
    assert h'.resends == h.resends + more;
    if op.ResendDue? {
      ResendKeepsSpacing(h.state, op.nowMs, h.resends, more);
    } else {
      assert h'.resends == h.resends;
      StepKeepsTimes(h.state, op);
      hide Step;
      OthersKeepSpacing(h.state, h'.state, h.resends);
    }
  }

  /** The clock readings given to due_resends never decrease. */
  ghost predicate MonotoneClock(ops: seq<Op>) {
    forall i, j :: 0 <= i < j < |ops| && ops[i].ResendDue? && ops[j].ResendDue? ==> ops[i].nowMs <= ops[j].nowMs
  }

  lemma {:induction false} ResendsPrecedeLaterReadings(options: SessionOptions, run: seq<History>, ops: seq<Op>,
                                                       n: nat, m: nat)
    requires IsRun(options, run, ops) && MonotoneClock(ops) && n <= m < |ops| && ops[m].ResendDue?
    ensures NoLaterThan(run[n].resends, ops[m].nowMs)
  {
    if n > 0 {
      ResendsPrecedeLaterReadings(options, run, ops, n - 1, m);
      assert Follows(run[n - 1], ops[n - 1], run[n]);
      hide Follows;
      NewResendsAreNow(run[n - 1], ops[n - 1], run[n], ops[m].nowMs);
    }
  }

  lemma NewResendsAreNow(h: History, op: Op, h': History, nowMs: u64)
    requires Follows(h, op, h') && NoLaterThan(h.resends, nowMs) && (op.ResendDue? ==> op.nowMs <= nowMs)
    ensures NoLaterThan(h'.resends, nowMs)
  {
    hide Step, CanStep, TrackedBy, AckedBy, ExpiredBy, DueKeys;
    var more := h'.resends[|h.resends|..];
    assert forall i :: 0 <= i < |more| ==> more[i] in more;
    assert h'.resends == h.resends + more;
  }

  /** Two resends of one packet are at least the resend delay apart under a monotone clock, and with a positive
      delay even if the clock runs backwards between them. */
  lemma {:induction false} ResendsAreSpaced(options: SessionOptions, run: seq<History>, ops: seq<Op>, n: nat)
    requires IsRun(options, run, ops) && n < |run|
    requires options.resendDelayMs > 0 || MonotoneClock(ops)
    ensures run[n].state.resendDelayMs == options.resendDelayMs
    ensures Spaced(run[n].state, run[n].resends)
  {
    hide Spaced, Follows, Balanced, MonotoneClock;
    if n == 0 {
      StartIsSpaced(options);
    } else {
      ResendsAreSpaced(options, run, ops, n - 1);
      RunProgress(options, run, ops, n - 1);
      if options.resendDelayMs == 0 && ops[n - 1].ResendDue? {
        ResendsPrecedeLaterReadings(options, run, ops, n - 1, n - 1);
      }
      FollowsIsSpaced(run[n - 1], ops[n - 1], run[n]);
    }
  }

  lemma StartIsSpaced(options: SessionOptions)
    ensures Spaced(Start(options).state, Start(options).resends)
  {
  }
}
