/** What happens when two fragmented messages of one channel share a fragment id, as they do once the ids are used up:
    exactly then reassembly can lose a message or make one up. */
module SharedKeys {
  import opened Prelude
  import opened Packets
  import opened Receivers
  import opened Sessions
  import opened HostileReceiver
  import opened Reassembly
  import opened OrderedRefinement
  import opened CursorGuess
  import opened PeerMessages
  import opened SystemDelivery

  function WireOf(packets: seq<Packet>): set<Packet> {
    set p | p in packets
  }

  /** An arrival history of one peer: parts of its messages in any order, any number of times or never, among control
      packets numbered outside them. */
  ghost predicate IsFromPeer(packets: seq<Packet>, messages: seq<Message>) {
    Partitioned(WireOf(packets), messages) && forall p :: p in packets ==> p.sequence < U32_MAX
  }

  /** Whatever a new receiver released is a message sent, and every message that arrived completely is accounted for. */
  ghost predicate DeliversFaithfully(messages: seq<Message>, packets: seq<Packet>) {
    var (r, log) := Absorb(FreshReceiver, packets);
    && LogKnown(log, messages)
    && forall k :: 0 <= k < |messages| && Complete(messages[k], r.received) ==> Accounted(messages[k], r, log)
  }

  // ---- With distinct keys

  lemma FreshIsFiled(messages: seq<Message>)
    requires Apart(messages)
    ensures Filed(messages, FreshReceiver, []) && AllSettled(messages, FreshReceiver, []) && Shaped(FreshReceiver)
  {
    forall k | 0 <= k < |messages|
      ensures Buffered(map[], messages[k], {}) && !Complete(messages[k], {})
    {
      assert WellFormed(messages[k]) && !Arrived(messages[k], {}, 0);
    }
  }

  lemma {:induction false} DistinctKeysKeepFaith(messages: seq<Message>, wire: set<Packet>, packets: seq<Packet>)
    requires Apart(messages) && Partitioned(wire, messages)
    requires forall p :: p in packets ==> p in wire && p.sequence < U32_MAX
    ensures var (r, log) := Absorb(FreshReceiver, packets);
      Shaped(r) && Filed(messages, r, log) && AllSettled(messages, r, log)
  {
    hide Intake, Apart, Partitioned, ShapedFragments, KeysKnown, ReorderKnown, LogKnown, BuffersMatch, AllSettled;
    if packets == [] {
      FreshIsFiled(messages);
    } else {
      var n := |packets| - 1;
      DistinctKeysKeepFaith(messages, wire, packets[..n]);
      var (before, log) := Absorb(FreshReceiver, packets[..n]);
      IntakeIsShaped(before, packets[n]);
      IntakeKeepsFiled(messages, wire, before, log, packets[n]);
      IntakeKeepsSettled(messages, wire, before, log, packets[n]);
    }
  }

  // ---- Two messages with one key

  /** Two fragmented messages that cannot be told apart, the first sent before the second. */
  ghost predicate Clash(a: Message, b: Message) {
    && WellFormed(a) && WellFormed(b) && End(a) <= b.base
    && IsFragmented(a) && IsFragmented(b) && MessageKey(a) == MessageKey(b)
  }

  ghost predicate SameShape(a: Message, b: Message) {
    |a.chunks| == |b.chunks| && a.ordered == b.ordered
  }

  /** A receiver that has taken data but completed nothing. */
  ghost predicate Idle(r: Receiver) {
    r.cursors == map[] && r.reorder == map[] && r.newest == map[]
  }

  // ---- Different shapes: the second message is rejected and lost

  /** The buffer a part of m would go into belongs to a message of another shape. */
  ghost predicate Rejects(r: Receiver, m: Message) {
    && MessageKey(m) in r.fragments
    && var buffer := r.fragments[MessageKey(m)];
       buffer.fragmentCount != |m.chunks| || buffer.ordered != m.ordered
  }

  lemma RejectedPart(r: Receiver, m: Message, i: nat)
    requires WellFormed(m) && IsFragmented(m) && i < |m.chunks| && Rejects(r, m) && Idle(r)
    ensures var (r', outcome) := Intake(r, PartOf(m, i));
      && ReleasesOf(outcome) == [] && Rejects(r', m) && Idle(r')
      && r'.received == r.received + {PartOf(m, i).sequence}
  {
    hide Fill;
  }

  lemma {:induction false} RejectedParts(r: Receiver, m: Message, n: nat)
    requires WellFormed(m) && IsFragmented(m) && n <= |m.chunks| && Rejects(r, m) && Idle(r)
    ensures var (r', log) := Absorb(r, Parts(m, n));
      && log == [] && Rejects(r', m) && Idle(r')
      && forall i :: 0 <= i < n ==> Arrived(m, r'.received, i)
  {
    hide Intake, Absorb, PartOf;
    AbsorbNone(r);
    if n > 0 {
      RejectedParts(r, m, n - 1);
      AbsorbOneMore(r, Parts(m, n - 1), PartOf(m, n - 1));
      var before := Absorb(r, Parts(m, n - 1)).0;
      RejectedPart(before, m, n - 1);
      PartIsPart(m, n - 1);
      var r' := Absorb(r, Parts(m, n)).0;
      forall i | 0 <= i < n ensures Arrived(m, r'.received, i) {
        if i < n - 1 { assert Arrived(m, before.received, i); }
      }
    }
  }

  /** The buffer that one part of m alone opens. */
  lemma FirstPartOpens(m: Message)
    requires WellFormed(m) && IsFragmented(m)
    ensures var (r, outcome) := Intake(FreshReceiver, PartOf(m, 0));
      && outcome == Ok([]) && Idle(r) && r.received == {m.base} && r.highest == Some(m.base)
      && r.fragments == map[MessageKey(m) := Begun(m)]
  {
    hide IsComplete, Begun, PartOf;
    PartIsPart(m, 0);
    FirstPartWaits(m);
  }

  lemma FirstPartWaits(m: Message)
    requires WellFormed(m) && IsFragmented(m)
    ensures Reassemble(map[], PartOf(m, 0)) == (map[MessageKey(m) := Begun(m)], Ok(None))
  {
    var p, last: u16 := PartOf(m, 0), |m.chunks| - 1;
    assert Filled(BufferFor(map[], p), p) == Begun(m) && last !in Begun(m).payloads;
    assert !IsComplete(Begun(m));
    hide IsComplete, Filled, Begun;
  }

  function Begun(m: Message): FragmentBuffer
    requires 0 < |m.chunks| <= U16_MAX
  {
    FragmentBuffer(m.channelId, m.ordered, |m.chunks|, map[0 := m.chunks[0]], map[0 := m.base])
  }

  /** One part of a, then all of b. */
  function Displacing(a: Message, b: Message): seq<Packet>
    requires WellFormed(a) && WellFormed(b)
  {
    [PartOf(a, 0)] + Parts(b, |b.chunks|)
  }

  lemma DisplacedMessageIsLost(a: Message, b: Message)
    requires Clash(a, b) && !SameShape(a, b)
    ensures var (r, log) := Absorb(FreshReceiver, Displacing(a, b)); Complete(b, r.received) && !Accounted(b, r, log)
  {
    hide Intake, Absorb, PartOf, Parts;
    var none: seq<Packet> := [];
    AbsorbNone(FreshReceiver);
    AbsorbOneMore(FreshReceiver, none, PartOf(a, 0));
    assert none + [PartOf(a, 0)] == [PartOf(a, 0)];
    FirstPartOpens(a);
    RejectedParts(Absorb(FreshReceiver, [PartOf(a, 0)]).0, b, |b.chunks|);
    AbsorbJoins(FreshReceiver, [PartOf(a, 0)], Parts(b, |b.chunks|));
  }

  // ---- The same shape: a mixture is released

  /** The first part of b, then parts of a from the second on. */
  function Mixing(a: Message, b: Message, i: nat): seq<Packet>
    requires WellFormed(a) && WellFormed(b) && i < |a.chunks|
  {
    if i == 0 then [PartOf(b, 0)] else Mixing(a, b, i - 1) + [PartOf(a, i)]
  }

  function MixedPayload(a: Message, b: Message, x: u16): Bytes
    requires x < |a.chunks| && 0 < |b.chunks|
  {
    if x == 0 then b.chunks[0] else a.chunks[x]
  }

  function MixedSequence(a: Message, b: Message, x: u16): u32
    requires WellFormed(a) && x < |a.chunks|
  {
    if x == 0 then b.base else a.base + x
  }

  function Mixed(a: Message, b: Message, i: u16): FragmentBuffer
    requires WellFormed(a) && WellFormed(b) && IsFragmented(a) && i < |a.chunks|
  {
    FragmentBuffer(a.channelId, a.ordered, |a.chunks|,
                   map x: u16 | 0 <= x <= i :: MixedPayload(a, b, x),
                   map x: u16 | 0 <= x <= i :: MixedSequence(a, b, x))
  }

  /** What a receiver holds of a mixture still incomplete. */
  ghost predicate HoldsMixture(r: Receiver, a: Message, b: Message, i: u16)
    requires WellFormed(a) && WellFormed(b) && IsFragmented(a) && i < |a.chunks|
  {
    && Idle(r) && r.highest == Some(b.base) && r.fragments == map[MessageKey(a) := Mixed(a, b, i)]
    && forall q :: q in r.received ==> q == b.base || q <= a.base + i
  }

  lemma MixingOneMore(a: Message, b: Message, i: u16)
    requires Clash(a, b) && SameShape(a, b) && 0 < i < |a.chunks|
    ensures Filled(Mixed(a, b, i - 1), PartOf(a, i)) == Mixed(a, b, i)
  {
    assert Filled(Mixed(a, b, i - 1), PartOf(a, i)).payloads == Mixed(a, b, i).payloads;
    assert Filled(Mixed(a, b, i - 1), PartOf(a, i)).sequences == Mixed(a, b, i).sequences;
  }

  /** One more part of a goes into the mixture, and completes it or not. */
  lemma MixtureFills(a: Message, b: Message, i: u16)
    requires Clash(a, b) && SameShape(a, b) && 0 < i < |a.chunks|
    ensures var (after, outcome) := Reassemble(map[MessageKey(a) := Mixed(a, b, i - 1)], PartOf(a, i));
      if IsComplete(Mixed(a, b, i)) then outcome == Ok(Some(Completed(Mixed(a, b, i))))
      else outcome == Ok(None) && after == map[MessageKey(a) := Mixed(a, b, i)]
  {
    MixingOneMore(a, b, i);
    MixtureShape(a, b, i - 1);
    MixtureShape(a, b, i);
    hide Mixed, Filled, Completed, IsComplete;
    var fragments := map[MessageKey(a) := Mixed(a, b, i - 1)];
    assert BufferFor(fragments, PartOf(a, i)) == Mixed(a, b, i - 1);
    UpdateOne(MessageKey(a), Mixed(a, b, i - 1), Mixed(a, b, i));
  }

  lemma MixtureWaits(r: Receiver, a: Message, b: Message, i: u16)
    requires Clash(a, b) && SameShape(a, b) && 0 < i < |a.chunks| - 1 && HoldsMixture(r, a, b, i - 1)
    ensures var (r', outcome) := Intake(r, PartOf(a, i)); outcome == Ok([]) && HoldsMixture(r', a, b, i)
  {
    hide Mixed, Filled, IsComplete, Reassemble;
    MixtureFills(a, b, i);
    MixtureHasRoom(a, b, i);
  }

  lemma UpdateOne<K, V>(k: K, v: V, w: V)
    ensures map[k := v][k := w] == map[k := w]
  {
  }

  lemma MixtureHasRoom(a: Message, b: Message, i: u16)
    requires Clash(a, b) && i < |a.chunks| - 1
    ensures !IsComplete(Mixed(a, b, i))
  {
    var missing: u16 := i + 1;
    assert missing !in Mixed(a, b, i).payloads;
  }

  lemma MixtureBegins(a: Message, b: Message)
    requires Clash(a, b) && SameShape(a, b)
    ensures var (r, log) := Absorb(FreshReceiver, Mixing(a, b, 0)); log == [] && HoldsMixture(r, a, b, 0)
  {
    hide Intake, Absorb, PartOf;
    var none: seq<Packet> := [];
    AbsorbNone(FreshReceiver);
    AbsorbOneMore(FreshReceiver, none, PartOf(b, 0));
    assert none + [PartOf(b, 0)] == [PartOf(b, 0)];
    FirstPartOpens(b);
    var zero: u16 := 0;
    assert Mixed(a, b, zero).payloads == Begun(b).payloads && Mixed(a, b, zero).sequences == Begun(b).sequences;
  }

  lemma {:induction false} MixtureGrows(a: Message, b: Message, i: u16)
    requires Clash(a, b) && SameShape(a, b) && i < |a.chunks| - 1
    ensures var (r, log) := Absorb(FreshReceiver, Mixing(a, b, i)); log == [] && HoldsMixture(r, a, b, i)
  {
    hide Intake, Absorb, PartOf, HoldsMixture;
    if i == 0 {
      MixtureBegins(a, b);
    } else {
      MixtureGrows(a, b, i - 1);
      AbsorbOneMore(FreshReceiver, Mixing(a, b, i - 1), PartOf(a, i));
      MixtureWaits(Absorb(FreshReceiver, Mixing(a, b, i - 1)).0, a, b, i);
    }
  }

  lemma MixtureFillsUp(a: Message, b: Message)
    requires Clash(a, b) && SameShape(a, b)
    ensures IsComplete(Mixed(a, b, |a.chunks| - 1))
  {
    AllIndexes(Mixed(a, b, |a.chunks| - 1).payloads.Keys, |a.chunks|);
  }

  lemma MixtureNumbers(a: Message, b: Message, n: u16)
    requires Clash(a, b) && SameShape(a, b) && n == |a.chunks|
    ensures var sequences := Mixed(a, b, n - 1).sequences;
      && HasIndexes(sequences, n)
      && (forall x: u16 :: 0 <= x < n ==> sequences[x] >= a.base + 1)
      && exists x: u16 :: 0 <= x < n && sequences[x] == a.base + 1
  {
    var one: u16 := 1;
    assert Mixed(a, b, n - 1).sequences[one] == a.base + 1;
  }

  /** The complete mixture starts at the second number of a. */
  lemma MixtureIsComplete(a: Message, b: Message)
    requires Clash(a, b) && SameShape(a, b)
    ensures var full := Mixed(a, b, |a.chunks| - 1);
      IsComplete(full) && Completed(full).frame.sequence == a.base + 1 && Completed(full).ordered == a.ordered
  {
    var n: u16 := |a.chunks|;
    var full := Mixed(a, b, n - 1);
    MixtureFillsUp(a, b);
    MixtureNumbers(a, b, n);
    MixtureShape(a, b, n - 1);
    hide Mixed, LeastSequence, GreatestSequence, Assemble;
    LeastIsLeast(full.sequences, n);
  }

  /** A message completed at an idle receiver is released at once, if its number is not ahead of the expected one. */
  lemma IdleReleases(r: Receiver, ready: Ready, sequenced: bool, expected: nat)
    requires Idle(r) && ready.frame.sequence <= expected
    ensures var releases := Dispatch(r, ready, sequenced, expected).1;
      releases != [] && releases[0].frame == ready.frame
  {
  }

  lemma MixtureReleases(r: Receiver, a: Message, b: Message, i: u16)
    requires Clash(a, b) && SameShape(a, b) && i == |a.chunks| - 1 && HoldsMixture(r, a, b, i - 1)
    ensures var releases := ReleasesOf(Intake(r, PartOf(a, i)).1);
      releases != [] && releases[0].frame.sequence == a.base + 1
  {
    MixtureIsComplete(a, b);
    MixtureFills(a, b, i);
    hide Mixed, Filled, Completed, IsComplete, Dispatch, Reassemble;
    var p := PartOf(a, i);
    var reassembled := Remember(r, p.sequence).(fragments := Reassemble(r.fragments, p).0);
    IdleReleases(reassembled, Completed(Mixed(a, b, i)), p.sequenced, Expected(r, p));
  }

  /** The first releases of a history are those of its last packet. */
  lemma FirstReleases(r: Receiver, packets: seq<Packet>, p: Packet)
    requires Absorb(r, packets).1 == []
    ensures Absorb(r, packets + [p]).1 == ReleasesOf(Intake(Absorb(r, packets).0, p).1)
  {
    hide Intake, Absorb;
    AbsorbOneMore(r, packets, p);
  }

  lemma MixtureIsReleased(a: Message, b: Message, i: u16)
    requires Clash(a, b) && SameShape(a, b) && i == |a.chunks| - 1
    ensures var log := Absorb(FreshReceiver, Mixing(a, b, i)).1; log != [] && log[0].frame.sequence == a.base + 1
  {
    hide Absorb, Intake, HoldsMixture, PartOf, Mixed, SameShape, ReleasesOf, Clash;
    ClashIsFragmented(a, b);
    MixtureGrows(a, b, i - 1);
    var r := Absorb(FreshReceiver, Mixing(a, b, i - 1)).0;
    FirstReleases(FreshReceiver, Mixing(a, b, i - 1), PartOf(a, i));
    MixtureReleases(r, a, b, i);
  }

  lemma ClashIsFragmented(a: Message, b: Message)
    requires Clash(a, b)
    ensures WellFormed(a) && WellFormed(b) && IsFragmented(a) && IsFragmented(b)
  {
  }

  lemma MixtureShape(a: Message, b: Message, i: u16)
    requires Clash(a, b) && i < |a.chunks|
    ensures Mixed(a, b, i).fragmentCount == |a.chunks| && Mixed(a, b, i).ordered == a.ordered
  {
  }

  // ---- Exactly then

  lemma PartIsFromPeer(messages: seq<Message>, next: u32, k: nat, i: nat)
    requires Placed(messages, next) && k < |messages| && i < |messages[k].chunks|
    ensures var p := PartOf(messages[k], i);
      && p.packetType == Data && p.sequence < U32_MAX && OfSomeMessage(p, messages)
      && forall j :: 0 <= j < |messages| ==> PartIfInside(p, messages[j])
  {
    var p := PartOf(messages[k], i);
    PartIsPart(messages[k], i);
    assert Inside(messages[k], p.sequence);
    forall j | 0 <= j < |messages| ensures PartIfInside(p, messages[j]) {
      if j < k { assert Precedes(messages, j, k); } else if k < j { assert Precedes(messages, k, j); }
    }
  }

  ghost predicate IsSomePartOf(p: Packet, m: Message)
    requires WellFormed(m)
  {
    exists i :: 0 <= i < |m.chunks| && p == PartOf(m, i)
  }

  ghost predicate OnlyPartsOf(packets: seq<Packet>, a: Message, b: Message)
    requires WellFormed(a) && WellFormed(b)
  {
    forall p :: p in packets ==> IsSomePartOf(p, a) || IsSomePartOf(p, b)
  }

  lemma PartsAreFromPeer(messages: seq<Message>, next: u32, j: nat, k: nat, packets: seq<Packet>)
    requires Placed(messages, next) && j < |messages| && k < |messages|
    requires OnlyPartsOf(packets, messages[j], messages[k])
    ensures IsFromPeer(packets, messages)
  {
    hide PartIfInside, OfSomeMessage, PartOf;
    forall p | p in packets
      ensures p.packetType == Data && p.sequence < U32_MAX && OfSomeMessage(p, messages)
      ensures forall x :: 0 <= x < |messages| ==> PartIfInside(p, messages[x])
    {
      if IsSomePartOf(p, messages[j]) {
        var i :| 0 <= i < |messages[j].chunks| && p == PartOf(messages[j], i);
        PartIsFromPeer(messages, next, j, i);
      } else {
        var i :| 0 <= i < |messages[k].chunks| && p == PartOf(messages[k], i);
        PartIsFromPeer(messages, next, k, i);
      }
    }
  }

  lemma {:induction false} PartsAreOnlyParts(a: Message, b: Message, n: nat)
    requires WellFormed(a) && WellFormed(b) && n <= |b.chunks|
    ensures OnlyPartsOf(Parts(b, n), a, b)
  {
    hide PartOf;
    if n > 0 { PartsAreOnlyParts(a, b, n - 1); }
  }

  lemma {:induction false} MixingIsOnlyParts(a: Message, b: Message, i: nat)
    requires WellFormed(a) && WellFormed(b) && i < |a.chunks|
    ensures OnlyPartsOf(Mixing(a, b, i), a, b)
  {
    hide PartOf;
    if i > 0 { MixingIsOnlyParts(a, b, i - 1); }
  }

  /** The mixture is no message that was sent: its number lies inside the first one. */
  lemma MixtureWasNotSent(messages: seq<Message>, next: u32, j: nat, x: Release)
    requires Placed(messages, next) && j < |messages| && |messages[j].chunks| > 1
    requires x.frame.sequence == messages[j].base + 1
    ensures !KnownRelease(x, messages)
  {
    forall k | 0 <= k < |messages| ensures ReleasedAs(messages[k]) != x {
      ReleaseEnds(messages[k]);
      if j < k {
        assert Precedes(messages, j, k);
      } else if k < j {
        assert Precedes(messages, k, j) && WellFormed(messages[k]);
      }
    }
  }

  /** Two messages of one key: a history after which a message is lost or one was made up. */
  lemma SharedKeyBreaksFaith(messages: seq<Message>, next: u32, j: nat, k: nat) returns (packets: seq<Packet>)
    requires Placed(messages, next) && j < k < |messages| && !Distinguished(messages, j, k)
    ensures IsFromPeer(packets, messages) && !DeliversFaithfully(messages, packets)
  {
    hide Absorb, KnownRelease, PartOf, Accounted, Complete, IsFromPeer;
    var a, b := messages[j], messages[k];
    assert Clash(a, b) by { assert Precedes(messages, j, k); }
    if SameShape(a, b) {
      packets := Mixing(a, b, |a.chunks| - 1);
      MixingIsOnlyParts(a, b, |a.chunks| - 1);
      MixtureIsReleased(a, b, |a.chunks| - 1);
      MixtureWasNotSent(messages, next, j, Absorb(FreshReceiver, packets).1[0]);
    } else {
      packets := Displacing(a, b);
      PartsAreOnlyParts(a, b, |b.chunks|);
      DisplacedMessageIsLost(a, b);
    }
    PartsAreFromPeer(messages, next, j, k, packets);
  }

  /** Delivery between a peer's messages and a new receiver is faithful for every arrival history, releasing only
      messages that were sent and accounting for each that arrived completely, exactly if no two fragmented messages of
      one channel share a fragment id. Otherwise a history that starts with a part of one loses the other, if they
      differ in ordering or in the number of their parts, or else releases a mixture of both. */
  lemma FaithfulExactlyWithDistinctKeys(messages: seq<Message>, next: u32)
    requires Placed(messages, next)
    ensures (forall packets :: IsFromPeer(packets, messages) ==> DeliversFaithfully(messages, packets))
        <==> KeysDistinct(messages)
  {
    if KeysDistinct(messages) {
      assert Apart(messages);
      forall packets | IsFromPeer(packets, messages) ensures DeliversFaithfully(messages, packets) {
        DistinctKeysKeepFaith(messages, WireOf(packets), packets);
      }
    } else {
      var j, k :| 0 <= j < k < |messages| && !Distinguished(messages, j, k);
      var packets := SharedKeyBreaksFaith(messages, next, j, k);
    }
  }
}
