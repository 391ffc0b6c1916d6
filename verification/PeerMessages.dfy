/** The messages an endpoint sent, and what its peer makes of them over a lossy network: it buffers, holds and hands
    over these messages and nothing else. */
module PeerMessages {
  import opened Prelude
  import opened Packets
  import opened AckWindow
  import opened Receivers
  import opened Protocol
  import opened Histories
  import opened ReceiverRuns
  import opened SenderRuns
  import opened Reassembly
  import opened OrderedRefinement
  import opened TwoEndpoints

  // ---- Fragment ids

  function FragmentedCount(messages: seq<Message>): nat {
    if messages == [] then 0
    else FragmentedCount(messages[..|messages| - 1]) + if IsFragmented(messages[|messages| - 1]) then 1 else 0
  }

  /** The id given to the n-th fragmented message, counted from 0. */
  function IdAt(n: nat): u16 {
    Min(n + 1, U16_MAX)
  }

  /** Ids are handed out in order and saturate. */
  ghost predicate IdsFollow(messages: seq<Message>, nextFragmentId: u16) {
    && nextFragmentId == IdAt(FragmentedCount(messages))
    && forall k :: 0 <= k < |messages| ==> IdFollows(messages, k)
  }

  ghost predicate IdFollows(messages: seq<Message>, k: nat)
    requires k < |messages|
  {
    IsFragmented(messages[k]) ==> messages[k].fragmentId == IdAt(FragmentedCount(messages[..k]))
  }

  lemma {:induction false} CountGrows(messages: seq<Message>, j: nat, k: nat)
    requires j <= k <= |messages|
    ensures FragmentedCount(messages[..j]) <= FragmentedCount(messages[..k])
    ensures j < k && IsFragmented(messages[j]) ==> FragmentedCount(messages[..j]) < FragmentedCount(messages[..k])
    decreases k
  {
    if j < k {
      CountGrows(messages, j, k - 1);
      assert messages[..k][..k - 1] == messages[..k - 1];
    }
  }

  /** Two fragmented messages have different ids exactly when the earlier is among the first 65534 fragmented. */
  lemma IdsDiffer(messages: seq<Message>, nextFragmentId: u16, j: nat, k: nat)
    requires IdsFollow(messages, nextFragmentId) && j < k < |messages|
    requires IsFragmented(messages[j]) && IsFragmented(messages[k])
    ensures messages[j].fragmentId != messages[k].fragmentId <==> FragmentedCount(messages[..j]) + 1 < U16_MAX
  {
    CountGrows(messages, j, k);
    assert IdFollows(messages, j) && IdFollows(messages, k);
  }

  ghost predicate BothFragmented(messages: seq<Message>, j: nat, k: nat)
    requires j < |messages| && k < |messages|
  {
    IsFragmented(messages[j]) && IsFragmented(messages[k])
  }

  ghost predicate IdsDistinct(messages: seq<Message>) {
    forall j, k :: 0 <= j < k < |messages| && BothFragmented(messages, j, k) ==>
      messages[j].fragmentId != messages[k].fragmentId
  }

  /** No two fragmented messages of one channel share a fragment id. */
  ghost predicate KeysDistinct(messages: seq<Message>) {
    forall j, k :: 0 <= j < k < |messages| ==> Distinguished(messages, j, k)
  }

  lemma {:induction false} LastFragmented(messages: seq<Message>, n: nat) returns (k: nat)
    requires n < FragmentedCount(messages)
    ensures k < |messages| && IsFragmented(messages[k]) && FragmentedCount(messages[..k]) == n
  {
    var last := |messages| - 1;
    if n < FragmentedCount(messages[..last]) {
      k := LastFragmented(messages[..last], n);
      assert messages[..last][..k] == messages[..k];
    } else {
      k := last;
    }
  }

  /** Fragment ids are distinct exactly for the first 65535 fragmented messages. */
  lemma IdsAreDistinctUpToSaturation(messages: seq<Message>, nextFragmentId: u16)
    requires IdsFollow(messages, nextFragmentId)
    ensures IdsDistinct(messages) <==> FragmentedCount(messages) <= U16_MAX
  {
    if FragmentedCount(messages) <= U16_MAX {
      forall j, k | 0 <= j < k < |messages| && BothFragmented(messages, j, k)
        ensures messages[j].fragmentId != messages[k].fragmentId
      {
        CountGrows(messages, j, k);
        CountGrows(messages, k, |messages|);
        assert messages[..|messages|] == messages;
        IdsDiffer(messages, nextFragmentId, j, k);
      }
    } else {
      var j := LastFragmented(messages, U16_MAX - 1);
      var k := LastFragmented(messages, U16_MAX);
      if k <= j { CountGrows(messages, k, j); }
      assert BothFragmented(messages, j, k);
      assert !IdsDistinct(messages) by { IdsDiffer(messages, nextFragmentId, j, k); }
    }
  }

  /** Ids saturate only on the last fragmented message of a channel: any before it was among the first 65534
      fragmented. */
  ghost predicate SaturatesLast(messages: seq<Message>) {
    forall j, k :: 0 <= j < k < |messages| && BothFragmented(messages, j, k)
                   && messages[j].channelId == messages[k].channelId ==>
      FragmentedCount(messages[..j]) + 1 < U16_MAX
  }

  /** What reassembly needs, exactly: buffers are told apart as long as no channel has two fragmented messages of which
      the earlier one already got the last id. */
  lemma KeysAreDistinctUpToSaturation(messages: seq<Message>, nextFragmentId: u16)
    requires IdsFollow(messages, nextFragmentId)
    ensures KeysDistinct(messages) <==> SaturatesLast(messages)
    ensures FragmentedCount(messages) <= U16_MAX ==> KeysDistinct(messages)
  {
    IdsAreDistinctUpToSaturation(messages, nextFragmentId);
    forall j, k | 0 <= j < k < |messages| && BothFragmented(messages, j, k)
      ensures messages[j].fragmentId != messages[k].fragmentId <==> FragmentedCount(messages[..j]) + 1 < U16_MAX
    {
      IdsDiffer(messages, nextFragmentId, j, k);
    }
    if FragmentedCount(messages) <= U16_MAX {
      forall j, k | 0 <= j < k < |messages| ensures Distinguished(messages, j, k) {
        assert BothFragmented(messages, j, k) ==> messages[j].fragmentId != messages[k].fragmentId;
      }
    }
    if SaturatesLast(messages) {
      forall j, k | 0 <= j < k < |messages| ensures Distinguished(messages, j, k) {
        assert BothFragmented(messages, j, k) <==> IsFragmented(messages[j]) && IsFragmented(messages[k]);
      }
    } else {
      var j, k :| 0 <= j < k < |messages| && BothFragmented(messages, j, k)
                  && messages[j].channelId == messages[k].channelId
                  && !(FragmentedCount(messages[..j]) + 1 < U16_MAX);
      assert !Distinguished(messages, j, k);
    }
  }

  // ---- The messages an endpoint sent

  ghost predicate Inside(m: Message, q: u32) {
    m.base <= q < End(m)
  }

  /** A packet numbered inside a message is that part of it. */
  ghost predicate PartIfInside(p: Packet, m: Message) {
    Inside(m, p.sequence) ==> IsPart(p, m, p.sequence - m.base)
  }

  ghost predicate OfSomeMessage(p: Packet, messages: seq<Message>) {
    exists k :: 0 <= k < |messages| && Inside(messages[k], p.sequence)
  }

  ghost predicate Placed(messages: seq<Message>, next: u32) {
    && (forall k :: 0 <= k < |messages| ==> WellFormed(messages[k]) && End(messages[k]) <= next)
    && (forall j, k :: 0 <= j < k < |messages| ==> Precedes(messages, j, k))
  }

  /** The packets on the wire are the parts of the messages sent, and control packets numbered elsewhere. */
  ghost predicate Partitioned(wire: set<Packet>, messages: seq<Message>) {
    && (forall p, k :: p in wire && 0 <= k < |messages| ==> PartIfInside(p, messages[k]))
    && (forall p :: p in wire && p.packetType == Data ==> OfSomeMessage(p, messages))
  }

  ghost predicate PayloadsMatch(messages: seq<Message>, payloads: seq<Bytes>) {
    && |payloads| == |messages|
    && forall k :: 0 <= k < |messages| ==> Concat(messages[k].chunks) == payloads[k]
  }

  ghost predicate CatalogueOf(out: set<Packet>, messages: seq<Message>, payloads: seq<Bytes>, next: u32,
                              nextFragmentId: u16) {
    && Placed(messages, next)
    && Partitioned(out, messages)
    && IdsFollow(messages, nextFragmentId)
    && PayloadsMatch(messages, payloads)
  }

  ghost predicate Catalogued(x: Side) {
    CatalogueOf(x.out, x.messages, x.payloads, x.history.state.sender.nextSequence,
                x.history.state.sender.nextFragmentId)
  }

  lemma ControlIsNotData(s: State, op: Op)
    requires CanStep(s, op) && !op.SendMessage?
    ensures Step(s, op).state.sender.nextFragmentId == s.sender.nextFragmentId
    ensures forall p :: p in Step(s, op).emitted ==> p.packetType != Data
  {
    hide AckState, Intake;
  }

  /** Packets numbered from next on are outside every message sent before. */
  lemma NewPacketsAreOutside(messages: seq<Message>, next: u32, emitted: seq<Packet>, r: Receiver)
    requires Placed(messages, next) && AllFresh(emitted, next, r)
    ensures forall p, k :: p in emitted && 0 <= k < |messages| ==> !Inside(messages[k], p.sequence)
  {
    forall p, k | p in emitted && 0 <= k < |messages| ensures !Inside(messages[k], p.sequence) {
      var i :| 0 <= i < |emitted| && emitted[i] == p;
      assert IsFresh(emitted[i], next + i, r);
    }
  }

  lemma ControlKeepsPartition(wire: set<Packet>, messages: seq<Message>, next: u32, emitted: seq<Packet>, r: Receiver,
                              more: set<Packet>)
    requires Partitioned(wire, messages) && Placed(messages, next) && AllFresh(emitted, next, r)
    requires forall p :: p in emitted ==> p.packetType != Data
    requires forall p :: p in more ==> p in wire || p in emitted
    ensures Partitioned(wire + more, messages)
  {
    NewPacketsAreOutside(messages, next, emitted, r);
    hide AllFresh, Placed, IsPart;
  }

  /** A new message takes its place behind the ones sent before, and its packets are its parts. */
  lemma PostingKeepsPartition(wire: set<Packet>, messages: seq<Message>, next: u32, emitted: seq<Packet>, r: Receiver,
                              m: Message)
    requires Partitioned(wire, messages) && Placed(messages, next) && AllFresh(emitted, next, r)
    requires forall p :: p in wire ==> p.sequence < next
    requires WellFormed(m) && m.base == next && |emitted| == |m.chunks|
    requires forall i :: 0 <= i < |emitted| ==> IsPart(emitted[i], m, i)
    ensures Partitioned(wire + (set p | p in emitted), messages + [m])
    ensures End(m) <= U32_MAX && Placed(messages + [m], End(m))
  {
    NewPacketsAreOutside(messages, next, emitted, r);
    var all := messages + [m];
    forall p | p in emitted ensures Inside(m, p.sequence) && IsPart(p, m, p.sequence - m.base) {
      var i :| 0 <= i < |emitted| && emitted[i] == p;
    }
    hide IsPart, WellFormed;
    forall p, k | (p in wire || p in emitted) && 0 <= k < |all| ensures PartIfInside(p, all[k]) {
      if k < |messages| && p in wire { assert PartIfInside(p, messages[k]); }
    }
    forall p | (p in wire || p in emitted) && p.packetType == Data ensures OfSomeMessage(p, all) {
      if p in emitted {
        assert Inside(all[|messages|], p.sequence);
      } else {
        assert OfSomeMessage(p, messages);
        var k :| 0 <= k < |messages| && Inside(messages[k], p.sequence);
        assert Inside(all[k], p.sequence);
      }
    }
    PostingKeepsPlaces(messages, next, m);
  }

  lemma PostingKeepsPlaces(messages: seq<Message>, next: u32, m: Message)
    requires Placed(messages, next) && WellFormed(m) && m.base == next
    ensures End(m) <= U32_MAX && Placed(messages + [m], End(m))
  {
    var all := messages + [m];
    forall j, k | 0 <= j < k < |all| ensures Precedes(all, j, k) {
      if k < |messages| { assert Precedes(messages, j, k); }
    }
  }

  lemma PostingKeepsIds(messages: seq<Message>, nextFragmentId: u16, m: Message)
    requires IdsFollow(messages, nextFragmentId)
    requires IsFragmented(m) ==> m.fragmentId == nextFragmentId
    ensures IdsFollow(messages + [m], if IsFragmented(m) then NextFragmentId(nextFragmentId) else nextFragmentId)
  {
    var all := messages + [m];
    assert all[..|messages|] == messages;
    forall k | 0 <= k < |all| ensures IdFollows(all, k) {
      if k < |messages| {
        assert IdFollows(messages, k);
        assert all[..k] == messages[..k];
      }
    }
  }

  /** What a send posts: nothing if it fails, else one message whose parts it puts on the wire. */
  lemma SendPosts(s: State, channelId: ChannelId, payload: Bytes, options: SendOptions, max: Option<nat>)
    requires CanSend(s, |payload|, options, max) && Keyed(s.sender) && s.sender.nextFragmentId > 0
    ensures var (s', r) := SendMany(s, channelId, payload, options, max);
      && r.Ok? == SendPlan(s, |payload|, options, max).Ok?
      && (r.Err? ==> s'.sender.nextFragmentId == s.sender.nextFragmentId)
      && (r.Ok? ==>
            var m := SentMessage(s, channelId, payload, options, max);
            && WellFormed(m) && m.base == s.sender.nextSequence && |r.value| == |m.chunks|
            && Concat(m.chunks) == payload
            && (forall i :: 0 <= i < |r.value| ==> IsPart(r.value[i], m, i))
            && (IsFragmented(m) ==> m.fragmentId == s.sender.nextFragmentId)
            && s'.sender.nextFragmentId
                 == if IsFragmented(m) then NextFragmentId(s.sender.nextFragmentId) else s.sender.nextFragmentId)
  {
    var plan := SendPlan(s, |payload|, options, max);
    SendIsAllOrNothing(s, channelId, payload, options, max);
    if plan.Ok? {
      SendsAMessage(s, channelId, payload, options, max);
      SentMessageIs(s, channelId, payload, options, max);
    }
    hide IsPart, WellFormed, PacketsOf, PlanFor, Concat, SentMessage;
  }

  lemma LaterCounterIsEnough(messages: seq<Message>, next: u32, next': u32)
    requires Placed(messages, next) && next <= next'
    ensures Placed(messages, next')
  {
  }

  lemma ControlKeepsCatalogue(out: set<Packet>, messages: seq<Message>, payloads: seq<Bytes>, next: u32, id: u16,
                              emitted: seq<Packet>, r: Receiver, more: set<Packet>, next': u32)
    requires CatalogueOf(out, messages, payloads, next, id) && AllFresh(emitted, next, r) && next <= next'
    requires forall p :: p in emitted ==> p.packetType != Data
    requires forall p :: p in more ==> p in out || p in emitted
    ensures CatalogueOf(out + more, messages, payloads, next', id)
  {
    hide Placed, Partitioned, AllFresh;
    ControlKeepsPartition(out, messages, next, emitted, r, more);
    LaterCounterIsEnough(messages, next, next');
  }

  lemma PostingKeepsCatalogue(out: set<Packet>, messages: seq<Message>, payloads: seq<Bytes>, next: u32, id: u16,
                              emitted: seq<Packet>, r: Receiver, m: Message)
    requires CatalogueOf(out, messages, payloads, next, id) && AllFresh(emitted, next, r)
    requires forall p :: p in out ==> p.sequence < next
    requires WellFormed(m) && m.base == next && |emitted| == |m.chunks| && (IsFragmented(m) ==> m.fragmentId == id)
    requires forall i :: 0 <= i < |emitted| ==> IsPart(emitted[i], m, i)
    ensures End(m) <= U32_MAX
    ensures CatalogueOf(out + (set p | p in emitted), messages + [m], payloads + [Concat(m.chunks)],
                        End(m), if IsFragmented(m) then NextFragmentId(id) else id)
  {
    hide Placed, Partitioned, AllFresh, IsPart, IdsFollow, Concat;
    PostingKeepsPartition(out, messages, next, emitted, r, m);
    PostingKeepsIds(messages, id, m);
  }

  lemma ControlKeepsCatalogued(x: Side, wire: set<Packet>, op: Op, x': Side)
    requires Acts(x, wire, op, x') && Honest(x) && Catalogued(x) && !op.SendMessage?
    ensures Catalogued(x')
  {
    var s := x.history.state;
    hide Step, CanStep, Transmitted, TrackedBy, AckedBy, ExpiredBy, ResendsBy, CatalogueOf, Books, Sound, Numbered,
      Truthful;
    EmittedAreFresh(s, op);
    ControlIsNotData(s, op);
    TransmittedIsKnown(s, op, x.out);
    var o := Step(s, op);
    assert AllFresh(o.emitted, s.sender.nextSequence, o.state.receiver);
    hide Honest, AllFresh;
    assert Posted(s, op) == [] && x'.messages == x.messages && x'.payloads == x.payloads;
    ControlKeepsCatalogue(x.out, x.messages, x.payloads, s.sender.nextSequence, s.sender.nextFragmentId,
                          o.emitted, o.state.receiver, Transmitted(s, op), o.state.sender.nextSequence);
  }

  lemma SendingActs(x: Side, wire: set<Packet>, op: Op, x': Side)
    requires Acts(x, wire, op, x') && op.SendMessage?
    ensures CanSend(x.history.state, |op.payload|, op.options, op.maxFragmentBytes)
    ensures var (s', r) := SendMany(x.history.state, op.channelId, op.payload, op.options, op.maxFragmentBytes);
      && x'.history.state == s'
      && x'.out == (if r.Ok? then x.out + (set p | p in r.value) else x.out)
      && r.Ok? == SendPlan(x.history.state, |op.payload|, op.options, op.maxFragmentBytes).Ok?
      && (r.Ok? ==>
            && x'.messages == x.messages
                 + [SentMessage(x.history.state, op.channelId, op.payload, op.options, op.maxFragmentBytes)]
            && x'.payloads == x.payloads + [op.payload])
      && (r.Err? ==> x'.messages == x.messages && x'.payloads == x.payloads)
  {
    SendingTransmits(x.history.state, op);
    hide SendMany, SendPlan, SentMessage, Step, Transmitted, TrackedBy, AckedBy, ExpiredBy, ResendsBy;
    assert x.out + {} == x.out && x.messages + [] == x.messages && x.payloads + [] == x.payloads;
  }

  lemma SendingTransmits(s: State, op: Op)
    requires CanStep(s, op) && op.SendMessage?
    ensures CanSend(s, |op.payload|, op.options, op.maxFragmentBytes)
    ensures var (s', r) := SendMany(s, op.channelId, op.payload, op.options, op.maxFragmentBytes);
      && Step(s, op).state == s'
      && Transmitted(s, op) == (if r.Ok? then set p | p in r.value else {})
      && r.Ok? == SendPlan(s, |op.payload|, op.options, op.maxFragmentBytes).Ok?
  {
    var (s', r) := SendMany(s, op.channelId, op.payload, op.options, op.maxFragmentBytes);
    assert Step(s, op) == Outcome(s', if r.Ok? then r.value else [], []);
    var sent := if r.Ok? then r.value else [];
    assert Transmitted(s, op) == set p | p in sent;
    hide SendPlan, Sent, PacketsOf;
  }

  lemma IdIsPositive(x: Side)
    requires Catalogued(x)
    ensures x.history.state.sender.nextFragmentId > 0
  {
  }

  lemma OutIsBelowCounter(x: Side)
    requires Honest(x)
    ensures forall p :: p in x.out ==> p.sequence < x.history.state.sender.nextSequence
  {
  }

  lemma SendingKeepsCatalogued(x: Side, wire: set<Packet>, op: Op, x': Side)
    requires Acts(x, wire, op, x') && Honest(x) && Catalogued(x) && op.SendMessage?
    ensures Catalogued(x')
  {
    var s := x.history.state;
    hide Acts, SendMany, SendPlan, SentMessage, Numbered, CatalogueOf, IsPart, WellFormed, Concat, Sound, Truthful,
      OnWire, Books, Step, Follows, CanSend, IsFresh;
    IdIsPositive(x);
    OutIsBelowCounter(x);
    SendingActs(x, wire, op, x');
    SendPosts(s, op.channelId, op.payload, op.options, op.maxFragmentBytes);
    SentAreFresh(s, op.channelId, op.payload, op.options, op.maxFragmentBytes);
    var (s', r) := SendMany(s, op.channelId, op.payload, op.options, op.maxFragmentBytes);
    if r.Ok? {
      var m := SentMessage(s, op.channelId, op.payload, op.options, op.maxFragmentBytes);
      PostingKeepsCatalogue(x.out, x.messages, x.payloads, s.sender.nextSequence, s.sender.nextFragmentId, r.value,
                            s'.receiver, m);
    }
  }

  lemma ActingKeepsCatalogued(x: Side, wire: set<Packet>, op: Op, x': Side)
    requires Acts(x, wire, op, x') && Honest(x) && Catalogued(x)
    ensures Catalogued(x')
  {
    hide Acts, Catalogued, Honest;
    if op.SendMessage? { SendingKeepsCatalogued(x, wire, op, x'); } else { ControlKeepsCatalogued(x, wire, op, x'); }
  }

  // ---- What the peer makes of them

  function ModeOf(m: Message): Mode {
    if m.ordered then InOrder else if m.sequenced then Latest else Plain
  }

  function ReleasedAs(m: Message): Release {
    Release(ModeOf(m), FrameOf(m), End(m))
  }

  ghost predicate KnownKey(key: FragmentKey, messages: seq<Message>) {
    exists k :: 0 <= k < |messages| && IsFragmented(messages[k]) && MessageKey(messages[k]) == key
  }

  ghost predicate KnownHeld(channel: ChannelId, q: u32, held: PendingOrdered, messages: seq<Message>) {
    exists k :: 0 <= k < |messages| && messages[k].ordered && messages[k].channelId == channel
                && messages[k].base == q && HeldEntry(messages[k]) == held
  }

  ghost predicate KnownRelease(x: Release, messages: seq<Message>) {
    exists k :: 0 <= k < |messages| && ReleasedAs(messages[k]) == x
  }

  ghost predicate KeysKnown(fragments: map<FragmentKey, FragmentBuffer>, messages: seq<Message>) {
    forall key :: key in fragments ==> KnownKey(key, messages)
  }

  ghost predicate BufferKnown(channel: ChannelId, buffer: ReorderBuffer, messages: seq<Message>) {
    forall q :: q in buffer ==> KnownHeld(channel, q, buffer[q], messages)
  }

  ghost predicate ReorderKnown(reorder: map<ChannelId, ReorderBuffer>, messages: seq<Message>) {
    forall c :: c in reorder ==> BufferKnown(c, reorder[c], messages)
  }

  ghost predicate LogKnown(log: seq<Release>, messages: seq<Message>) {
    forall i :: 0 <= i < |log| ==> KnownRelease(log[i], messages)
  }

  /** The receiver's buffers hold parts of the peer's messages and nothing else, and it has released only them. */
  ghost predicate Filed(messages: seq<Message>, r: Receiver, log: seq<Release>) {
    && BuffersMatch(r.fragments, messages, r.received)
    && KeysKnown(r.fragments, messages)
    && ReorderKnown(r.reorder, messages)
    && LogKnown(log, messages)
  }

  lemma HeldIsReleased(channel: ChannelId, q: u32, held: PendingOrdered, messages: seq<Message>)
    requires KnownHeld(channel, q, held, messages)
    ensures KnownRelease(Release(InOrder, held.frame, held.next), messages)
  {
    hide FrameOf;
    var k :| 0 <= k < |messages| && messages[k].ordered && messages[k].channelId == channel
             && messages[k].base == q && HeldEntry(messages[k]) == held;
    assert ReleasedAs(messages[k]) == Release(InOrder, held.frame, held.next);
  }

  lemma {:induction false} DrainIsKnown(channel: ChannelId, buffer: ReorderBuffer, next: nat, messages: seq<Message>)
    requires BufferKnown(channel, buffer, messages)
    ensures var (rest, cursor, releases) := Drain(buffer, next);
      BufferKnown(channel, rest, messages) && LogKnown(releases, messages)
    decreases |buffer|
  {
    hide KnownHeld, KnownRelease;
    if next in buffer {
      var rest := buffer - {next};
      assert KnownHeld(channel, next, buffer[next], messages);
      forall q | q in rest ensures KnownHeld(channel, q, rest[q], messages) {
        assert KnownHeld(channel, q, buffer[q], messages);
      }
      DrainIsKnown(channel, rest, buffer[next].next, messages);
      HeldIsReleased(channel, next, buffer[next], messages);
    }
  }

  lemma LogsJoin(a: seq<Release>, b: seq<Release>, messages: seq<Message>)
    requires LogKnown(a, messages) && LogKnown(b, messages)
    ensures LogKnown(a + b, messages)
  {
  }

  /** Delivering a completed message in order releases and holds only known messages. */
  lemma OrderedIsKnown(r: Receiver, messages: seq<Message>, k: nat, expected: nat)
    requires k < |messages| && messages[k].ordered && ReorderKnown(r.reorder, messages)
    ensures var (r', releases) := DeliverOrdered(r, ReadyOf(messages[k]), expected);
      && ReorderKnown(r'.reorder, messages) && LogKnown(releases, messages)
      && r'.fragments == r.fragments && r'.received == r.received
  {
    hide KnownRelease, KnownHeld, BufferKnown, Concat, Drain;
    var m := messages[k];
    var buffer := BufferOf(r, m.channelId);
    ChannelIsKnown(r, messages, k);
    DrainIsKnown(m.channelId, buffer, End(m), messages);
    assert forall c :: c in r.reorder ==> BufferKnown(c, r.reorder[c], messages);
  }

  /** What a channel holds is known, with one more message or without. */
  lemma ChannelIsKnown(r: Receiver, messages: seq<Message>, k: nat)
    requires k < |messages| && messages[k].ordered && ReorderKnown(r.reorder, messages)
    ensures var m := messages[k];
      var buffer := BufferOf(r, m.channelId);
      && BufferKnown(m.channelId, buffer, messages)
      && BufferKnown(m.channelId, buffer[m.base := HeldEntry(m)], messages)
      && KnownRelease(ReleasedAs(m), messages)
  {
    var m := messages[k];
    assert KnownHeld(m.channelId, m.base, HeldEntry(m), messages);
    hide FrameOf;
  }

  /** Handing over a completed message releases and holds only known messages. */
  lemma DispatchIsKnown(r: Receiver, messages: seq<Message>, k: nat, expected: nat)
    requires k < |messages| && ReorderKnown(r.reorder, messages)
    ensures var (r', releases) := Dispatch(r, ReadyOf(messages[k]), messages[k].sequenced, expected);
      && ReorderKnown(r'.reorder, messages) && LogKnown(releases, messages)
      && r'.fragments == r.fragments && r'.received == r.received
  {
    assert KnownRelease(ReleasedAs(messages[k]), messages);
    hide KnownRelease, BufferKnown, Concat, Drain, DeliverOrdered;
    if messages[k].ordered { OrderedIsKnown(r, messages, k, expected); }
  }

  /** A number outside every message changes nothing of them. */
  lemma OutsideKeepsFiled(messages: seq<Message>, r: Receiver, log: seq<Release>, q: u32)
    requires Filed(messages, r, log) && Apart(messages)
    requires forall k :: 0 <= k < |messages| ==> !Inside(messages[k], q)
    ensures Filed(messages, Remember(r, q), log)
  {
    var received' := r.received + {q};
    hide KeysKnown, ReorderKnown, LogKnown;
    forall k | 0 <= k < |messages|
      ensures Buffered(r.fragments, messages[k], received')
    {
      assert !Inside(messages[k], q);
      assert Buffered(r.fragments, messages[k], r.received);
      if IsFragmented(messages[k]) { OtherNumbersKeepBuffer(r.fragments, messages[k], r.received, q); }
    }
  }

  lemma PartKeepsKeys(fragments: map<FragmentKey, FragmentBuffer>, after: map<FragmentKey, FragmentBuffer>,
                      messages: seq<Message>, k: nat)
    requires KeysKnown(fragments, messages) && k < |messages|
    requires after - {MessageKey(messages[k])} == fragments - {MessageKey(messages[k])}
    requires !IsFragmented(messages[k]) ==> after == fragments
    ensures KeysKnown(after, messages)
  {
    forall key | key in after ensures KnownKey(key, messages) {
      if key != MessageKey(messages[k]) { assert key in after - {MessageKey(messages[k])}; }
    }
  }

  /** A new part of a message: it fills the message's buffer, or completes and hands over the message. */
  lemma PartKeepsFiled(messages: seq<Message>, r: Receiver, log: seq<Release>, p: Packet, k: nat, i: nat)
    requires Filed(messages, r, log) && Apart(messages)
    requires k < |messages| && IsPart(p, messages[k], i) && p.sequence !in r.received
    ensures var (r', outcome) := Intake(r, p); Filed(messages, r', log + ReleasesOf(outcome))
  {
    hide Reassemble, BuffersMatch, KeysKnown, ReorderKnown, LogKnown, Complete, Apart, ReadyOf, Dispatch, ReleasedAs,
      ModeOf;
    var m := messages[k];
    PartArrives(r.fragments, messages, r.received, p, k, i);
    var received' := r.received + {p.sequence};
    var (fragments, outcome) := Reassemble(r.fragments, p);
    PartKeepsKeys(r.fragments, fragments, messages, k);
    var reassembled := Remember(r, p.sequence).(fragments := fragments);
    assert log + [] == log;
    if Complete(m, received') {
      DispatchIsKnown(reassembled, messages, k, Expected(r, p));
      var releases := Dispatch(reassembled, ReadyOf(m), m.sequenced, Expected(r, p)).1;
      LogsJoin(log, releases, messages);
    }
  }

  /** Any packet the peer put on the wire, at any time and however often, keeps the receiver in order. */
  lemma IntakeKeepsFiled(messages: seq<Message>, wire: set<Packet>, r: Receiver, log: seq<Release>, p: Packet)
    requires Filed(messages, r, log) && Apart(messages) && Partitioned(wire, messages) && p in wire
    ensures var (r', outcome) := Intake(r, p); Filed(messages, r', log + ReleasesOf(outcome))
  {
    assert log + [] == log;
    hide Filed, Apart;
    if p.packetType == Data {
      assert OfSomeMessage(p, messages);
      var k :| 0 <= k < |messages| && Inside(messages[k], p.sequence);
      assert PartIfInside(p, messages[k]);
      if p.sequence in r.received {
        RepeatKeepsFiled(messages, r, log, p.sequence);
      } else {
        PartKeepsFiled(messages, r, log, p, k, p.sequence - messages[k].base);
      }
    } else {
      ControlIsOutside(messages, wire, p);
      OutsideKeepsFiled(messages, r, log, p.sequence);
    }
  }

  lemma ControlIsOutside(messages: seq<Message>, wire: set<Packet>, p: Packet)
    requires Partitioned(wire, messages) && p in wire && p.packetType != Data
    ensures forall k :: 0 <= k < |messages| ==> !Inside(messages[k], p.sequence)
  {
    forall k | 0 <= k < |messages| ensures !Inside(messages[k], p.sequence) {
      assert PartIfInside(p, messages[k]);
    }
  }

  lemma RepeatKeepsFiled(messages: seq<Message>, r: Receiver, log: seq<Release>, q: u32)
    requires Filed(messages, r, log) && q in r.received
    ensures Filed(messages, Remember(r, q), log)
  {
    assert r.received + {q} == r.received;
  }

  lemma NewKeyIsUnknown(messages: seq<Message>, m: Message, fragments: map<FragmentKey, FragmentBuffer>)
    requires KeysKnown(fragments, messages) && Apart(messages + [m])
    ensures IsFragmented(m) ==> MessageKey(m) !in fragments
  {
    forall key | key in fragments ensures IsFragmented(m) ==> key != MessageKey(m) {
      assert KnownKey(key, messages);
      var k :| 0 <= k < |messages| && IsFragmented(messages[k]) && MessageKey(messages[k]) == key;
      assert Distinguished(messages + [m], k, |messages|);
    }
  }

  /** A message just sent has left no trace at the receiver. */
  lemma PostingKeepsFiled(messages: seq<Message>, m: Message, r: Receiver, log: seq<Release>)
    requires Filed(messages, r, log) && Apart(messages + [m])
    requires forall q :: q in r.received ==> q < m.base
    ensures Filed(messages + [m], r, log)
  {
    var all := messages + [m];
    assert WellFormed(all[|messages|]);
    assert !Arrived(m, r.received, 0) && Untouched(m, r.received);
    NewKeyIsUnknown(messages, m, r.fragments);
    KnownStaysKnown(messages, m, r, log);
    forall k | 0 <= k < |all| ensures Buffered(r.fragments, all[k], r.received) {
      if k < |messages| { assert Buffered(r.fragments, messages[k], r.received); }
    }
  }

  lemma KnownStaysKnown(messages: seq<Message>, m: Message, r: Receiver, log: seq<Release>)
    requires KeysKnown(r.fragments, messages) && ReorderKnown(r.reorder, messages) && LogKnown(log, messages)
    ensures var all := messages + [m]; KeysKnown(r.fragments, all) && ReorderKnown(r.reorder, all) && LogKnown(log, all)
  {
    var all := messages + [m];
    assert forall k :: 0 <= k < |messages| ==> all[k] == messages[k];
    forall key | key in r.fragments ensures KnownKey(key, all) {
      assert KnownKey(key, messages);
      var k :| 0 <= k < |messages| && IsFragmented(messages[k]) && MessageKey(messages[k]) == key;
      assert IsFragmented(all[k]) && MessageKey(all[k]) == key;
    }
    forall c, q | c in r.reorder && q in r.reorder[c] ensures KnownHeld(c, q, r.reorder[c][q], all) {
      assert BufferKnown(c, r.reorder[c], messages);
      assert KnownHeld(c, q, r.reorder[c][q], messages);
      var k :| 0 <= k < |messages| && messages[k].ordered && messages[k].channelId == c
               && messages[k].base == q && HeldEntry(messages[k]) == r.reorder[c][q];
      assert HeldEntry(all[k]) == r.reorder[c][q];
    }
    forall i | 0 <= i < |log| ensures KnownRelease(log[i], all) {
      assert KnownRelease(log[i], messages);
      var k :| 0 <= k < |messages| && ReleasedAs(messages[k]) == log[i];
      assert ReleasedAs(all[k]) == log[i];
    }
  }

  // ---- Runs

  /** x's messages are catalogued, and y files them rightly as long as their buffers can be told apart. */
  ghost predicate Conveys(x: Side, y: Side) {
    Catalogued(x) && (KeysDistinct(x.messages) ==> Filed(x.messages, y.history.state.receiver, y.history.log))
  }

  lemma CataloguedIsApart(x: Side)
    requires Catalogued(x) && KeysDistinct(x.messages)
    ensures Apart(x.messages)
  {
  }

  lemma ArrivalIsOnWire(op: Op, wire: set<Packet>)
    requires Deliverable(op, wire)
    ensures op.TakePacket? || op.AnswerDial? ==> op.packet in wire
  {
  }

  /** The receiving side acts: at most a packet of the peer arrives. */
  lemma ActingKeepsFiled(x: Side, y: Side, op: Op, y': Side)
    requires Acts(y, x.out, op, y') && Catalogued(x) && KeysDistinct(x.messages)
    requires Filed(x.messages, y.history.state.receiver, y.history.log)
    ensures Filed(x.messages, y'.history.state.receiver, y'.history.log)
  {
    hide Step, CanStep, Filed, Transmitted, Posted, TrackedBy, AckedBy, ExpiredBy, ResendsBy, Intake, Partitioned,
      Placed, IdsFollow, Apart, KeysDistinct, Acts, Deliverable;
    ActingChanges(y, x.out, op, y');
    var r, log := y.history.state.receiver, y.history.log;
    CataloguedIsApart(x);
    StepOnReceiver(y.history.state, op);
    assert log + [] == log;
    assert (op.TakePacket? || op.AnswerDial?) ==> op.packet in x.out by { ArrivalIsOnWire(op, x.out); }
    match op
    case TakePacket(p, _) => IntakeKeepsFiled(x.messages, x.out, r, log, p);
    case AnswerDial(p, _, _) =>
      if WillAccept(y.history.state, p) {
        ControlIsOutside(x.messages, x.out, p);
        OutsideKeepsFiled(x.messages, r, log, p.sequence);
      }
    case _ =>
  }

  lemma ReceivedIsBelow(received: set<u32>, wire: set<Packet>, next: u32)
    requires ReceivedFrom(received, wire) && forall p :: p in wire ==> p.sequence < next
    ensures forall q :: q in received ==> q < next
  {
    forall q | q in received ensures q < next {
      assert OnWireAs(q, wire);
    }
  }

  lemma FewerKeysAreDistinct(messages: seq<Message>, m: Message)
    requires KeysDistinct(messages + [m])
    ensures KeysDistinct(messages)
  {
    forall j, k | 0 <= j < k < |messages| ensures Distinguished(messages, j, k) {
      assert Distinguished(messages + [m], j, k);
    }
  }

  /** The sending side acts: at most it sends one more message. */
  lemma SendingKeepsConveys(x: Side, y: Side, op: Op, x': Side)
    requires Acts(x, y.out, op, x') && Honest(x) && Knows(x, y) && Conveys(x, y)
    ensures Conveys(x', y)
  {
    ActingKeepsCatalogued(x, y.out, op, x');
    var s := x.history.state;
    var r, log := y.history.state.receiver, y.history.log;
    ReceivedIsBelow(r.received, x.out, s.sender.nextSequence);
    PostedIsNext(x, y.out, op, x');
    hide Acts, Catalogued, Filed, KeysDistinct, Honest, Apart;
    if x'.messages != x.messages && KeysDistinct(x'.messages) {
      var m := x'.messages[|x.messages|];
      FewerKeysAreDistinct(x.messages, m);
      CataloguedIsApart(x');
      PostingKeepsFiled(x.messages, m, r, log);
    }
  }

  lemma PostedIsNext(x: Side, wire: set<Packet>, op: Op, x': Side)
    requires Acts(x, wire, op, x')
    ensures x'.messages == x.messages
      || (|x'.messages| == |x.messages| + 1 && x'.messages == x.messages + [x'.messages[|x.messages|]]
          && x'.messages[|x.messages|].base == x.history.state.sender.nextSequence)
  {
    var s := x.history.state;
    if op.SendMessage? && SendPlan(s, |op.payload|, op.options, op.maxFragmentBytes).Ok? {
      SentMessageIs(s, op.channelId, op.payload, op.options, op.maxFragmentBytes);
    }
    hide SentMessage, Follows, Transmitted, SendPlan;
  }

  lemma TurnConveys(s: System, turn: Turn, s': System)
    requires Takes(s, turn, s') && Linked(s) && Conveys(s.left, s.right) && Conveys(s.right, s.left)
    ensures Conveys(s'.left, s'.right) && Conveys(s'.right, s'.left)
  {
    hide Acts, Honest, Knows, Filed, Catalogued, KeysDistinct;
    if turn.leftActs {
      SendingKeepsConveys(s.left, s.right, turn.op, s'.left);
      if KeysDistinct(s.right.messages) { ActingKeepsFiled(s.right, s.left, turn.op, s'.left); }
    } else {
      SendingKeepsConveys(s.right, s.left, turn.op, s'.right);
      if KeysDistinct(s.left.messages) { ActingKeepsFiled(s.left, s.right, turn.op, s'.right); }
    }
  }

  lemma OpeningConveys(left: SessionOptions, right: SessionOptions)
    ensures Conveys(Opening(left), Opening(right))
  {
  }

  lemma {:induction false} RunConveys(left: SessionOptions, right: SessionOptions, run: seq<System>, turns: seq<Turn>,
                                      n: nat)
    requires IsSystemRun(left, right, run, turns) && n < |run|
    ensures Conveys(run[n].left, run[n].right) && Conveys(run[n].right, run[n].left)
  {
    hide Takes, Linked, Conveys;
    if n == 0 {
      OpeningConveys(left, right);
      OpeningConveys(right, left);
    } else {
      RunConveys(left, right, run, turns, n - 1);
      RunIsLinked(left, right, run, turns, n - 1);
      TurnConveys(run[n - 1], turns[n - 1], run[n]);
    }
  }

  /** Ordered messages sent one after the other on a channel are in the form ordered delivery is complete for. */
  lemma ConsecutiveSendsAreInSequence(x: Side, from: nat, to: nat, channel: ChannelId)
    requires Catalogued(x) && from < to <= |x.messages| && KeysDistinct(x.messages[from..to])
    requires forall k :: from <= k < to ==> x.messages[k].ordered && x.messages[k].channelId == channel
    requires forall k :: from < k < to ==> x.messages[k].base == End(x.messages[k - 1])
    ensures InSequence(x.messages[from..to], channel, x.messages[from].base)
  {
    var msgs := x.messages[from..to];
    forall k | 0 <= k < |msgs| ensures InPlace(msgs, channel, x.messages[from].base, k) {
      assert msgs[k] == x.messages[from + k];
      if k > 0 { assert msgs[k - 1] == x.messages[from + k - 1]; }
    }
  }
}
