/** When ordered delivery is complete on a channel whose cursor is still to be guessed from the highest sequence
    seen. */
module CursorGuess {
  import opened Prelude
  import opened Packets
  import opened AckWindow
  import opened Receivers
  import opened HostileReceiver
  import opened DeliveryOrder
  import opened Reassembly
  import opened OrderedRefinement

  /** A channel with no cursor yet, and nothing of the messages received. */
  ghost predicate Unstarted(r: Receiver, msgs: seq<Message>, channel: ChannelId, first: nat) {
    Untroubled(r, msgs, channel, first) && channel !in r.cursors
  }

  /** The messages' own packets, in any order and number, and repeats of what was received before. */
  ghost predicate IsOwnArrival(packets: seq<Packet>, msgs: seq<Message>, earlier: set<u32>) {
    forall p :: p in packets ==> IsOwn(p, msgs) || p.sequence in earlier
  }

  /** An arrival history with or without other traffic. */
  ghost predicate IsHistory(packets: seq<Packet>, msgs: seq<Message>, channel: ChannelId, first: nat,
                            earlier: set<u32>, others: bool) {
    if others then IsArrival(packets, msgs, channel, first, earlier) else IsOwnArrival(packets, msgs, earlier)
  }

  /** Everything sent is whole. */
  ghost predicate AllWhole(msgs: seq<Message>) {
    forall k :: 0 <= k < |msgs| ==> !IsFragmented(msgs[k])
  }

  /** Will the guess be right, whatever of the messages arrives? Either the number before the first message is the
      highest seen and nothing is fragmented, or there is at most one message, which is not ahead of an expected one. */
  ghost predicate GuessIsSafe(highest: Option<u32>, msgs: seq<Message>, first: nat) {
    || msgs == []
    || (|msgs| == 1 && (IsFragmented(msgs[0]) || highest.None? || highest.value + 1 >= first))
    || (highest.Some? && highest.value + 1 == first && AllWhole(msgs))
  }

  /** Will it be right among other traffic too? A number beyond several messages spoils it, so none may be left; and so
      does a first number short of a single whole message. */
  ghost predicate GuessWithstands(highest: Option<u32>, msgs: seq<Message>, first: nat) {
    || msgs == []
    || (|msgs| == 1 && (IsFragmented(msgs[0]) || (if highest.Some? then highest.value + 1 >= first else first <= 1)))
    || (highest.Some? && highest.value + 1 == first && AllWhole(msgs) && AllEnd(msgs, first) == U32_MAX)
  }

  ghost predicate IsSafe(highest: Option<u32>, msgs: seq<Message>, first: nat, others: bool) {
    if others then GuessWithstands(highest, msgs, first) else GuessIsSafe(highest, msgs, first)
  }

  // ---- The guess is safe

  /** The receiver as it would be had the cursor been set at the first message. */
  function Primed(r: Receiver, channel: ChannelId, first: nat): Receiver {
    r.(cursors := r.cursors[channel := first])
  }

  lemma UpdateTwice(m: map<ChannelId, nat>, c: ChannelId, a: nat, b: nat)
    ensures m[c := a][c := b] == m[c := b]
  {
  }

  lemma GuessingRightIsPriming(r: Receiver, ready: Ready, expected: nat, first: nat)
    requires ready.frame.channelId !in r.cursors && Min(expected, ready.frame.sequence) == first
    ensures DeliverOrdered(r, ready, expected)
      == DeliverOrdered(Primed(r, ready.frame.channelId, first), ready, expected)
  {
    var drained := Drain(BufferOf(r, ready.frame.channelId), ready.next).1;
    UpdateTwice(r.cursors, ready.frame.channelId, first, first);
    UpdateTwice(r.cursors, ready.frame.channelId, first, drained);
  }

  /** Still no cursor, and the guess will be right for the next message that completes. */
  ghost predicate Dormant(r: Receiver, msgs: seq<Message>, channel: ChannelId, first: nat, others: bool) {
    channel !in r.cursors && IsSafe(r.highest, msgs, first, others)
  }

  lemma SafeGuess(r: Receiver, msgs: seq<Message>, channel: ChannelId, first: nat, p: Packet, k: nat, i: nat)
    requires InSequence(msgs, channel, first) && k < |msgs| && IsPart(p, msgs[k], i)
    requires GuessIsSafe(r.highest, msgs, first)
    requires Complete(msgs[k], r.received + {p.sequence}) && p.sequence !in r.received
    requires HighestOf(r.highest, r.received)
    ensures Min(Expected(r, p), msgs[k].base) == first
  {
    StartsIncrease(msgs, channel, first, k, |msgs|);
    if k == 0 {
      if IsFragmented(msgs[0]) {
        var j := if i == 0 then 1 else 0;
        assert Arrived(msgs[0], r.received + {p.sequence}, j);
        assert msgs[0].base + j in r.received;
      }
    } else {
      StartsIncrease(msgs, channel, first, 0, k);
    }
  }

  lemma IncompleteKeepsDormant(r: Receiver, msgs: seq<Message>, channel: ChannelId, first: nat, p: Packet, k: nat,
                               i: nat, others: bool)
    requires InSequence(msgs, channel, first) && k < |msgs| && IsPart(p, msgs[k], i)
    requires IsSafe(r.highest, msgs, first, others) && !Complete(msgs[k], r.received + {p.sequence})
    ensures IsSafe(HighestAfter(r.highest, p.sequence), msgs, first, others)
  {
    StartsIncrease(msgs, channel, first, k, |msgs|);
    if !IsFragmented(msgs[k]) { WholeArrives(msgs[k], p, i, r.received); }
  }

  lemma WholeArrives(m: Message, p: Packet, i: nat, received: set<u32>)
    requires WellFormed(m) && !IsFragmented(m) && IsPart(p, m, i)
    ensures Complete(m, received + {p.sequence})
  {
  }

  /** An own packet treats the unprimed and the primed receiver alike. */
  lemma OwnPacketGuessesRight(r: Receiver, msgs: seq<Message>, channel: ChannelId, first: nat, p: Packet, k: nat,
                              i: nat, others: bool)
    requires InSequence(msgs, channel, first) && k < |msgs| && IsPart(p, msgs[k], i) && Shaped(r)
    requires Dormant(r, msgs, channel, first, others) && BuffersMatch(r.fragments, msgs, r.received)
    requires p.sequence !in r.received
    ensures var (r', outcome) := Intake(r, p);
      var (t', outcome') := Intake(Primed(r, channel, first), p);
      outcome == outcome'
        && (r' == t' || (Dormant(r', msgs, channel, first, others) && t' == Primed(r', channel, first)))
  {
    var primed := Primed(r, channel, first);
    NewPart(r.fragments, msgs, channel, first, r.received, p, k, i);
    var reassembled := Remember(r, p.sequence).(fragments := Reassemble(r.fragments, p).0);
    assert Remember(primed, p.sequence).(fragments := Reassemble(r.fragments, p).0)
      == Primed(reassembled, channel, first);
    assert GuessIsSafe(r.highest, msgs, first);
    hide Reassemble, BuffersMatch, InSequence, Complete, IsPart, DeliverOrdered, GuessIsSafe, GuessWithstands;
    if Complete(msgs[k], r.received + {p.sequence}) {
      SafeGuess(r, msgs, channel, first, p, k, i);
      GuessingRightIsPriming(reassembled, ReadyOf(msgs[k]), Expected(r, p), first);
    } else {
      IncompleteKeepsDormant(r, msgs, channel, first, p, k, i, others);
    }
  }

  lemma UpdatesCommute(m: map<ChannelId, nat>, a: ChannelId, x: nat, b: ChannelId, y: nat)
    requires a != b
    ensures m[a := x][b := y] == m[b := y][a := x]
  {
  }

  /** What is delivered unordered or on another channel treats the unprimed and the primed receiver alike. */
  lemma ElsewhereIsUnprimed(r: Receiver, ready: Ready, sequenced: bool, expected: nat, channel: ChannelId, first: nat)
    requires channel !in r.cursors && (!ready.ordered || ready.frame.channelId != channel)
    ensures var (r', releases) := Dispatch(r, ready, sequenced, expected);
      && Dispatch(Primed(r, channel, first), ready, sequenced, expected) == (Primed(r', channel, first), releases)
      && channel !in r'.cursors && r'.highest == r.highest
  {
    if ready.ordered {
      var c, q := ready.frame.channelId, ready.frame.sequence;
      hide Drain;
      UpdatesCommute(r.cursors, channel, first, c, CursorOr(r, c, expected, q));
      UpdatesCommute(r.cursors, channel, first, c, Drain(BufferOf(r, c), ready.next).1);
    }
  }

  /** A number outside the messages' spoils no guess that withstands other traffic. */
  lemma ForeignKeepsWithstanding(highest: Option<u32>, msgs: seq<Message>, channel: ChannelId, first: nat, p: Packet)
    requires GuessWithstands(highest, msgs, first) && IsForeign(p, msgs, channel, first)
    ensures GuessWithstands(HighestAfter(highest, p.sequence), msgs, first)
  {
  }

  /** New data of other messages treats the unprimed and the primed receiver alike. */
  lemma ForeignDataGuessesRight(r: Receiver, msgs: seq<Message>, channel: ChannelId, first: nat, p: Packet)
    requires IsForeign(p, msgs, channel, first) && Shaped(r) && channel !in r.cursors
    requires p.packetType == Data && p.sequence !in r.received
    ensures var (r', outcome) := Intake(r, p);
      && Intake(Primed(r, channel, first), p) == (Primed(r', channel, first), outcome)
      && channel !in r'.cursors && r'.highest == HighestAfter(r.highest, p.sequence)
  {
    hide Reassemble, Dispatch, Shaped, ShapedFragments, ShapedReady;
    ShapedHasShapedParts(r);
    ReassembleIsShaped(r.fragments, p);
    ReassemblyKeepsOrdering(r.fragments, p);
    var (fragments, outcome) := Reassemble(r.fragments, p);
    var reassembled := Remember(r, p.sequence).(fragments := fragments);
    assert Remember(Primed(r, channel, first), p.sequence).(fragments := fragments)
      == Primed(reassembled, channel, first);
    hide IsForeign, Primed;
    if outcome.Ok? && outcome.value.Some? {
      ElsewhereIsUnprimed(reassembled, outcome.value.value, p.sequenced, Expected(r, p), channel, first);
    }
  }

  /** A foreign packet treats the unprimed and the primed receiver alike. */
  lemma ForeignPacketGuessesRight(r: Receiver, msgs: seq<Message>, channel: ChannelId, first: nat, p: Packet)
    requires IsForeign(p, msgs, channel, first) && Shaped(r) && Dormant(r, msgs, channel, first, true)
    ensures var (r', outcome) := Intake(r, p);
      && Intake(Primed(r, channel, first), p) == (Primed(r', channel, first), outcome)
      && Dormant(r', msgs, channel, first, true)
  {
    ForeignKeepsWithstanding(r.highest, msgs, channel, first, p);
    hide Reassemble, Dispatch, Shaped, GuessWithstands, IsForeign;
    if p.packetType == Data && p.sequence !in r.received { ForeignDataGuessesRight(r, msgs, channel, first, p); }
  }

  /** r follows t, the same receiver with its cursor set at the first message. */
  ghost predicate Shadows(r: Receiver, t: Receiver, msgs: seq<Message>, channel: ChannelId, first: nat, others: bool) {
    r == t || (Dormant(r, msgs, channel, first, others) && t == Primed(r, channel, first))
  }

  lemma PrimingKeepsShape(r: Receiver, channel: ChannelId, first: nat)
    requires Shaped(r) && BufferOf(r, channel) == map[] && first <= U32_MAX
    ensures Shaped(Primed(r, channel, first))
  {
  }

  lemma ArrivalKeepsShadow(r: Receiver, t: Receiver, msgs: seq<Message>, channel: ChannelId, first: nat, p: Packet,
                           others: bool)
    requires InSequence(msgs, channel, first) && Shadows(r, t, msgs, channel, first, others) && Shaped(r) && Shaped(t)
    requires Tracks(t, msgs, channel, first)
    requires IsOwn(p, msgs) || p.sequence in r.received || (others && IsForeign(p, msgs, channel, first))
    ensures Intake(r, p).1 == Intake(t, p).1 && Shadows(Intake(r, p).0, Intake(t, p).0, msgs, channel, first, others)
  {
    hide Intake, InSequence, Shaped, AtChannel, BuffersMatch, IsPart, IsForeign, IsSafe;
    if p.sequence in r.received {
      RepeatChangesNothing(r, p);
      RepeatChangesNothing(t, p);
    } else if r != t {
      if IsOwn(p, msgs) {
        var k, i :| 0 <= k < |msgs| && IsPart(p, msgs[k], i);
        OwnPacketGuessesRight(r, msgs, channel, first, p, k, i, others);
      } else {
        ForeignPacketGuessesRight(r, msgs, channel, first, p);
      }
    }
  }

  lemma {:induction false} ShadowedThroughout(r: Receiver, t: Receiver, msgs: seq<Message>, channel: ChannelId,
                                              first: nat, packets: seq<Packet>, others: bool)
    requires InSequence(msgs, channel, first) && Shadows(r, t, msgs, channel, first, others) && Shaped(r) && Shaped(t)
    requires Tracks(t, msgs, channel, first) && Prefix(msgs, t.received, 0) == 0
    requires IsHistory(packets, msgs, channel, first, r.received, others)
    ensures Absorb(r, packets).1 == Absorb(t, packets).1
    ensures Shadows(Absorb(r, packets).0, Absorb(t, packets).0, msgs, channel, first, others)
    ensures Shaped(Absorb(r, packets).0) && r.received <= Absorb(r, packets).0.received
  {
    hide Intake, InSequence, Shaped, Tracks, Prefix, IsPart, IsOwn, IsForeign;
    if packets != [] {
      var n := |packets| - 1;
      ShadowedThroughout(r, t, msgs, channel, first, packets[..n], others);
      TrackedThroughout(t, msgs, channel, first, packets[..n]);
      var before := Absorb(r, packets[..n]).0;
      ArrivalKeepsShadow(before, Absorb(t, packets[..n]).0, msgs, channel, first, packets[n], others);
      IntakeRemembers(before, packets[n]);
      ArrivalFits(before, msgs, channel, first, packets[n]);
      IntakeIsShaped(before, packets[n]);
    }
  }

  lemma ArrivalFits(r: Receiver, msgs: seq<Message>, channel: ChannelId, first: nat, p: Packet)
    requires InSequence(msgs, channel, first) && Shaped(r)
    requires IsOwn(p, msgs) || IsForeign(p, msgs, channel, first) || p.sequence in r.received
    ensures p.sequence < U32_MAX
  {
    if IsOwn(p, msgs) {
      var k, i :| 0 <= k < |msgs| && IsPart(p, msgs[k], i);
      PartFits(p, msgs, channel, first, k, i);
    }
  }

  /** A safe guess: the receiver that guesses behaves as one whose cursor was set at the first message. */
  lemma SafeGuessSuffices(r: Receiver, msgs: seq<Message>, channel: ChannelId, first: nat, packets: seq<Packet>,
                          others: bool)
    requires Shaped(r) && InSequence(msgs, channel, first) && Unstarted(r, msgs, channel, first) && first <= U32_MAX
    requires IsSafe(r.highest, msgs, first, others) && IsHistory(packets, msgs, channel, first, r.received, others)
    ensures ReleasesPrefix(r, msgs, channel, packets)
  {
    hide IsOwn, IsForeign, IsSafe, Shaped, InSequence;
    var t := Primed(r, channel, first);
    PrimingKeepsShape(r, channel, first);
    AwaitingIsTracked(t, msgs, channel, first);
    ShadowedThroughout(r, t, msgs, channel, first, packets, others);
    OrderedDeliveryReleasesPrefix(t, msgs, channel, first, packets);
  }

  // ---- The guess is not safe

  function PartOf(m: Message, i: nat): Packet
    requires i < |m.chunks| <= U16_MAX && m.base + i <= U32_MAX
  {
    Packet(Data, 0, m.base + i, 0, 0, m.channelId, true, m.ordered, m.sequenced, m.fragmentId,
           if IsFragmented(m) then i else 0, if IsFragmented(m) then |m.chunks| else 0, m.chunks[i])
  }

  /** The first n packets of a message, in order. */
  function Parts(m: Message, n: nat): seq<Packet>
    requires n <= |m.chunks| <= U16_MAX && m.base + n <= U32_MAX
  {
    if n == 0 then [] else Parts(m, n - 1) + [PartOf(m, n - 1)]
  }

  /** Exactly the first n packets of a message arrived on top of what was received. */
  ghost predicate Grown(before: set<u32>, after: set<u32>, m: Message, n: nat) {
    forall q: u32 :: q in after <==> q in before || m.base <= q < m.base + n
  }

  lemma AbsorbOneMore(r: Receiver, packets: seq<Packet>, p: Packet)
    ensures var (before, log) := Absorb(r, packets);
      var (after, outcome) := Intake(before, p);
      Absorb(r, packets + [p]) == (after, log + ReleasesOf(outcome))
  {
    assert (packets + [p])[..|packets|] == packets;
  }

  /** One more packet of a message that stays incomplete. */
  lemma PartWaits(r: Receiver, msgs: seq<Message>, channel: ChannelId, first: nat, k: nat, i: nat, p: Packet)
    requires InSequence(msgs, channel, first) && k < |msgs| && IsPart(p, msgs[k], i)
    requires HighestOf(r.highest, r.received) && BuffersMatch(r.fragments, msgs, r.received)
    requires p.sequence !in r.received && !Complete(msgs[k], r.received + {p.sequence})
    ensures var (r', outcome) := Intake(r, p);
      && outcome == Ok([]) && r'.cursors == r.cursors && r'.reorder == r.reorder
      && r'.received == r.received + {p.sequence}
      && BuffersMatch(r'.fragments, msgs, r'.received) && HighestOf(r'.highest, r'.received)
  {
    NewPart(r.fragments, msgs, channel, first, r.received, p, k, i);
    hide Reassemble, BuffersMatch, InSequence, Complete;
  }

  lemma PrefixIsIncomplete(m: Message, before: set<u32>, received: set<u32>, n: nat)
    requires WellFormed(m) && n < |m.chunks| && Untouched(m, before) && Grown(before, received, m, n)
    ensures !Complete(m, received) && m.base + n !in received
  {
    assert !Arrived(m, before, n);
    assert !Arrived(m, received, n);
  }

  /** r' is r after the first n packets of message k: they only filled its buffer. */
  ghost predicate Waits(r: Receiver, r': Receiver, msgs: seq<Message>, k: nat, n: nat)
    requires k < |msgs|
  {
    && r'.cursors == r.cursors && r'.reorder == r.reorder
    && BuffersMatch(r'.fragments, msgs, r'.received) && HighestOf(r'.highest, r'.received)
    && Grown(r.received, r'.received, msgs[k], n) && (n == 0 ==> r' == r)
  }

  lemma NextPartWaits(r: Receiver, before: Receiver, msgs: seq<Message>, channel: ChannelId, first: nat, k: nat, n: nat)
    requires InSequence(msgs, channel, first) && k < |msgs| && WellFormed(msgs[k]) && n + 1 < |msgs[k].chunks|
    requires Untouched(msgs[k], r.received) && Waits(r, before, msgs, k, n)
    ensures var (after, outcome) := Intake(before, PartOf(msgs[k], n));
      outcome == Ok([]) && Waits(r, after, msgs, k, n + 1)
  {
    hide Intake, BuffersMatch, InSequence, Complete, HighestOf, Untouched, Grown, IsPart;
    var m, p := msgs[k], PartOf(msgs[k], n);
    PartIsPart(m, n);
    PrefixIsIncomplete(m, r.received, before.received, n);
    GrownSoFar(r.received, before.received, m, n + 1);
    PrefixIsIncomplete(m, r.received, before.received + {p.sequence}, n + 1);
    PartWaits(before, msgs, channel, first, k, n, p);
  }

  /** While a message is incomplete, its packets only fill its buffer. */
  lemma {:induction false} PartialMessageWaits(r: Receiver, msgs: seq<Message>, channel: ChannelId, first: nat, k: nat,
                                               n: nat)
    requires InSequence(msgs, channel, first) && k < |msgs| && WellFormed(msgs[k]) && n < |msgs[k].chunks|
    requires HighestOf(r.highest, r.received) && BuffersMatch(r.fragments, msgs, r.received)
    requires Untouched(msgs[k], r.received)
    ensures var (r', log) := Absorb(r, Parts(msgs[k], n)); log == [] && Waits(r, r', msgs, k, n)
  {
    hide Absorb, Intake, InSequence, BuffersMatch, HighestOf, Untouched, Grown, PartOf;
    AbsorbNone(r);
    GrownSoFar(r.received, r.received, msgs[k], 0);
    if n > 0 {
      var before := Absorb(r, Parts(msgs[k], n - 1)).0;
      PartialMessageWaits(r, msgs, channel, first, k, n - 1);
      NextPartWaits(r, before, msgs, channel, first, k, n - 1);
      hide Waits;
      AbsorbOneMore(r, Parts(msgs[k], n - 1), PartOf(msgs[k], n - 1));
    }
  }

  lemma AbsorbNone(r: Receiver)
    ensures Absorb(r, []) == (r, [])
  {
  }

  lemma PartIsPart(m: Message, i: nat)
    requires WellFormed(m) && i < |m.chunks|
    ensures IsPart(PartOf(m, i), m, i) && PartOf(m, i).sequence == m.base + i
  {
  }

  lemma GrownSoFar(before: set<u32>, after: set<u32>, m: Message, n: nat)
    requires if n == 0 then after == before else Grown(before, after, m, n - 1) && m.base + n - 1 <= U32_MAX
    ensures n == 0 ==> Grown(before, after, m, 0)
    ensures n > 0 ==> Grown(before, after + {m.base + n - 1}, m, n)
  {
  }

  lemma {:induction false} PartsAreOwn(m: Message, n: nat)
    requires n <= |m.chunks| <= U16_MAX && m.base + n <= U32_MAX
    ensures |Parts(m, n)| == n
    ensures forall p :: p in Parts(m, n) ==> exists i :: IsPart(p, m, i)
    ensures forall q :: q in NumbersOf(Parts(m, n)) <==> m.base <= q < m.base + n
  {
    if n > 0 {
      PartsAreOwn(m, n - 1);
      assert IsPart(PartOf(m, n - 1), m, n - 1);
      NumbersOfAppend(Parts(m, n - 1), PartOf(m, n - 1));
    }
  }

  /** The last packet of a message delivers it. */
  lemma LastPartDelivers(r: Receiver, msgs: seq<Message>, channel: ChannelId, first: nat, k: nat, i: nat, p: Packet)
    returns (mid: Receiver)
    requires InSequence(msgs, channel, first) && k < |msgs| && IsPart(p, msgs[k], i)
    requires HighestOf(r.highest, r.received) && BuffersMatch(r.fragments, msgs, r.received)
    requires p.sequence !in r.received && Complete(msgs[k], r.received + {p.sequence})
    ensures mid.cursors == r.cursors && mid.reorder == r.reorder && mid.received == r.received + {p.sequence}
    ensures HighestOf(mid.highest, mid.received) && BuffersMatch(mid.fragments, msgs, mid.received)
    ensures var (r', releases) := DeliverOrdered(mid, ReadyOf(msgs[k]), Expected(r, p));
      Intake(r, p) == (r', Ok(releases))
  {
    NewPart(r.fragments, msgs, channel, first, r.received, p, k, i);
    mid := Remember(r, p.sequence).(fragments := Reassemble(r.fragments, p).0);
    hide Reassemble, BuffersMatch, InSequence, Complete, DeliverOrdered;
  }

  /** A wrong guess puts the cursor past the first message, or short of it, for good. */
  lemma WrongGuess(r: Receiver, ready: Ready, expected: nat, first: nat)
    requires ready.frame.channelId !in r.cursors && BufferOf(r, ready.frame.channelId) == map[]
    requires Min(expected, ready.frame.sequence) != first && first < ready.next
    ensures var (r', releases) := DeliverOrdered(r, ready, expected);
      && ready.frame.channelId in r'.cursors && r'.cursors[ready.frame.channelId] != first
      && (releases == [] || releases == [Release(InOrder, ready.frame, ready.next)])
      && (Min(expected, ready.frame.sequence) != ready.frame.sequence ==>
            releases == [] && r'.cursors[ready.frame.channelId] == Min(expected, ready.frame.sequence))
      && (forall q :: q in BufferOf(r', ready.frame.channelId) ==> q == ready.frame.sequence)
      && r'.fragments == r.fragments && r'.received == r.received && r'.highest == r.highest
  {
  }

  lemma {:induction false} AbsorbJoins(r: Receiver, a: seq<Packet>, b: seq<Packet>)
    ensures var (middle, log) := Absorb(r, a);
      Absorb(r, a + b) == (Absorb(middle, b).0, log + Absorb(middle, b).1)
  {
    hide Intake;
    if b == [] {
      assert a + b == a;
      assert Absorb(r, a).1 + [] == Absorb(r, a).1;
    } else {
      assert (a + b)[..|a + b| - 1] == a + b[..|b| - 1];
      AbsorbJoins(r, a, b[..|b| - 1]);
      var (middle, log) := Absorb(r, a);
      var (before, more) := Absorb(middle, b[..|b| - 1]);
      var last := ReleasesOf(Intake(before, b[|b| - 1]).1);
      assert log + (more + last) == log + more + last;
    }
  }

  /** All packets of a message but the last. */
  function AllButLast(m: Message): seq<Packet>
    requires 0 < |m.chunks| <= U16_MAX && m.base + |m.chunks| <= U32_MAX
  {
    Parts(m, |m.chunks| - 1)
  }

  function LastOf(m: Message): Packet
    requires 0 < |m.chunks| <= U16_MAX && m.base + |m.chunks| <= U32_MAX
  {
    PartOf(m, |m.chunks| - 1)
  }

  lemma LastCompletes(m: Message, before: set<u32>, received: set<u32>)
    requires WellFormed(m) && Untouched(m, before) && Grown(before, received, m, |m.chunks| - 1)
    ensures LastOf(m).sequence !in received && Complete(m, received + {LastOf(m).sequence})
    ensures IsPart(LastOf(m), m, |m.chunks| - 1)
  {
    assert !Arrived(m, before, |m.chunks| - 1);
  }

  /** Distinct messages do not touch each other's numbers. */
  lemma OthersStayUntouched(msgs: seq<Message>, channel: ChannelId, first: nat, before: set<u32>, after: set<u32>,
                            j: nat, k: nat, n: nat)
    requires InSequence(msgs, channel, first) && j < |msgs| && k < |msgs| && j != k && n <= |msgs[j].chunks|
    requires Untouched(msgs[k], before) && Grown(before, after, msgs[j], n)
    ensures Untouched(msgs[k], after)
  {
    StartsIncrease(msgs, channel, first, k, |msgs|);
    StartsIncrease(msgs, channel, first, j, |msgs|);
    forall i | 0 <= i < |msgs[k].chunks| ensures !Arrived(msgs[k], after, i) {
      assert !Arrived(msgs[k], before, i);
      var q: u32 := msgs[k].base + i;
      if msgs[j].base <= q < End(msgs[j]) { PartIsOutsideOthers(msgs, channel, first, j, k, q); }
    }
  }

  /** The guess made when message k completes before the first one. */
  lemma GuessIsWrong(highest: Option<u32>, a: Receiver, b: Receiver, msgs: seq<Message>, channel: ChannelId,
                     first: nat, k: nat)
    requires InSequence(msgs, channel, first) && 0 < k < |msgs| && WellFormed(msgs[0]) && WellFormed(msgs[k])
    requires IsFragmented(msgs[0]) || IsFragmented(msgs[k]) || !(highest.Some? && highest.value + 1 == first)
    requires HighestOf(b.highest, b.received) && a.received <= b.received
    requires IsFragmented(msgs[0]) ==> msgs[0].base in a.received
    requires IsFragmented(msgs[k]) ==> msgs[k].base in b.received
    requires !IsFragmented(msgs[0]) && !IsFragmented(msgs[k]) ==> b.highest == highest
    ensures Min(Expected(b, LastOf(msgs[k])), msgs[k].base) != first && first == msgs[0].base < msgs[k].base
  {
    StartsIncrease(msgs, channel, first, 0, k);
    StartsIncrease(msgs, channel, first, k, |msgs|);
  }

  /** Both messages are about to complete. */
  lemma AllButTheLastPackets(r: Receiver, msgs: seq<Message>, channel: ChannelId, first: nat, k: nat)
    returns (a: Receiver, b: Receiver)
    requires HighestOf(r.highest, r.received) && InSequence(msgs, channel, first)
    requires 0 < k < |msgs| && WellFormed(msgs[0]) && WellFormed(msgs[k])
    requires Untouched(msgs[0], r.received) && Untouched(msgs[k], r.received)
    requires BuffersMatch(r.fragments, msgs, r.received)
    ensures var (b', log) := Absorb(r, AllButLast(msgs[0]) + AllButLast(msgs[k])); b' == b && log == []
    ensures b.cursors == r.cursors && b.reorder == r.reorder
    ensures HighestOf(b.highest, b.received) && BuffersMatch(b.fragments, msgs, b.received)
    ensures Grown(r.received, a.received, msgs[0], |msgs[0].chunks| - 1)
    ensures Grown(a.received, b.received, msgs[k], |msgs[k].chunks| - 1) && Untouched(msgs[k], a.received)
    ensures !IsFragmented(msgs[0]) && !IsFragmented(msgs[k]) ==> b == r
    ensures a.received <= b.received
    ensures IsFragmented(msgs[0]) ==> msgs[0].base in a.received
    ensures IsFragmented(msgs[k]) ==> msgs[k].base in b.received
  {
    hide InSequence, BuffersMatch, Intake, HighestOf, Untouched, Grown, Absorb;
    var n0: nat, nk: nat := |msgs[0].chunks| - 1, |msgs[k].chunks| - 1;
    PartialMessageWaits(r, msgs, channel, first, 0, n0);
    a := Absorb(r, AllButLast(msgs[0])).0;
    OthersStayUntouched(msgs, channel, first, r.received, a.received, 0, k, n0);
    PartialMessageWaits(a, msgs, channel, first, k, nk);
    b := Absorb(a, AllButLast(msgs[k])).0;
    AbsorbJoins(r, AllButLast(msgs[0]), AllButLast(msgs[k]));
    assert [] + [] == Absorb(r, AllButLast(msgs[0]) + AllButLast(msgs[k])).1;
    StartsArrive(r.received, a.received, msgs[0]);
    StartsArrive(a.received, b.received, msgs[k]);
  }

  lemma StartsArrive(before: set<u32>, after: set<u32>, m: Message)
    requires WellFormed(m) && Grown(before, after, m, |m.chunks| - 1)
    ensures before <= after && (IsFragmented(m) ==> m.base in after)
  {
  }

  /** A message completes on a channel without a cursor, and the guess is wrong. */
  lemma LastPartGuessesWrong(b: Receiver, msgs: seq<Message>, channel: ChannelId, first: nat, k: nat, p: Packet, i: nat)
    requires InSequence(msgs, channel, first) && k < |msgs| && IsPart(p, msgs[k], i)
    requires HighestOf(b.highest, b.received) && BuffersMatch(b.fragments, msgs, b.received)
    requires channel !in b.cursors && BufferOf(b, channel) == map[]
    requires p.sequence !in b.received && Complete(msgs[k], b.received + {p.sequence})
    requires Min(Expected(b, p), msgs[k].base) != first && msgs[k].base != first
    ensures var (c, outcome) := Intake(b, p);
      && channel in c.cursors && c.cursors[channel] != first && first !in BufferOf(c, channel)
      && HighestOf(c.highest, c.received) && BuffersMatch(c.fragments, msgs, c.received)
      && c.received == b.received + {p.sequence}
      && outcome.Ok? && (outcome.value == [] || outcome.value == [ReleaseOf(msgs[k])])
  {
    OrderedOnChannel(msgs, channel, first, k);
    hide InSequence, BuffersMatch, Intake, Complete, DeliverOrdered, Expected, HighestOf;
    var mid := LastPartDelivers(b, msgs, channel, first, k, i, p);
    WrongGuess(mid, ReadyOf(msgs[k]), Expected(b, p), first);
  }

  /** Message k completes before the first one: the state then, and the at most one frame released. */
  lemma LaterMessageFirst(r: Receiver, msgs: seq<Message>, channel: ChannelId, first: nat, k: nat) returns (c: Receiver)
    requires HighestOf(r.highest, r.received) && InSequence(msgs, channel, first)
    requires channel !in r.cursors && BufferOf(r, channel) == map[]
    requires 0 < k < |msgs| && WellFormed(msgs[0]) && WellFormed(msgs[k])
    requires IsFragmented(msgs[0]) || IsFragmented(msgs[k]) || !(r.highest.Some? && r.highest.value + 1 == first)
    requires Untouched(msgs[0], r.received) && Untouched(msgs[k], r.received)
    requires BuffersMatch(r.fragments, msgs, r.received)
    ensures channel in c.cursors && c.cursors[channel] != first && first == msgs[0].base < msgs[k].base
    ensures first !in BufferOf(c, channel)
    ensures HighestOf(c.highest, c.received) && BuffersMatch(c.fragments, msgs, c.received)
    ensures LastOf(msgs[0]).sequence !in c.received && Complete(msgs[0], c.received + {LastOf(msgs[0]).sequence})
    ensures var (c', log) := Absorb(r, AllButLast(msgs[0]) + AllButLast(msgs[k]) + [LastOf(msgs[k])]);
      c' == c && (log == [] || log == [ReleaseOf(msgs[k])])
  {
    hide InSequence, BuffersMatch, Intake, Complete, DeliverOrdered, Absorb, Untouched, AllButLast, Grown, LastOf,
      Expected, HighestOf;
    var a, b := AllButTheLastPackets(r, msgs, channel, first, k);
    AbsorbOneMore(r, AllButLast(msgs[0]) + AllButLast(msgs[k]), LastOf(msgs[k]));
    LastCompletes(msgs[k], a.received, b.received);
    GuessIsWrong(r.highest, a, b, msgs, channel, first, k);
    LastPartGuessesWrong(b, msgs, channel, first, k, LastOf(msgs[k]), |msgs[k].chunks| - 1);
    c := Intake(b, LastOf(msgs[k])).0;
    FirstStaysOpen(r.received, a.received, b.received, msgs, channel, first, k);
  }

  lemma OrderedOnChannel(msgs: seq<Message>, channel: ChannelId, first: nat, k: nat)
    requires InSequence(msgs, channel, first) && k < |msgs|
    ensures msgs[k].channelId == channel && msgs[k].ordered && first <= msgs[k].base < End(msgs[k])
    ensures WellFormed(msgs[k])
  {
    StartsIncrease(msgs, channel, first, k, |msgs|);
  }

  /** The first message's last packet is still missing after all of message k arrived. */
  lemma FirstStaysOpen(r: set<u32>, a: set<u32>, b: set<u32>, msgs: seq<Message>, channel: ChannelId, first: nat,
                       k: nat)
    requires InSequence(msgs, channel, first) && 0 < k < |msgs| && WellFormed(msgs[0]) && WellFormed(msgs[k])
    requires Untouched(msgs[0], r)
    requires Grown(r, a, msgs[0], |msgs[0].chunks| - 1) && Grown(a, b, msgs[k], |msgs[k].chunks| - 1)
    ensures var c := b + {LastOf(msgs[k]).sequence};
      LastOf(msgs[0]).sequence !in c && Complete(msgs[0], c + {LastOf(msgs[0]).sequence})
  {
    LastCompletes(msgs[0], r, a);
    var q := LastOf(msgs[0]).sequence;
    PartIsOutsideOthers(msgs, channel, first, 0, k, q);
    var c := b + {LastOf(msgs[k]).sequence};
    forall i | 0 <= i < |msgs[0].chunks| ensures Arrived(msgs[0], c + {q}, i) {
      assert Arrived(msgs[0], a + {q}, i);
    }
  }

  lemma MessageArrives(m: Message, middle: seq<Packet>)
    requires WellFormed(m)
    ensures Complete(m, NumbersOf(AllButLast(m) + middle + [LastOf(m)]))
  {
    var packets := AllButLast(m) + middle + [LastOf(m)];
    PartsAreOwn(m, |m.chunks| - 1);
    forall i | 0 <= i < |m.chunks|
      ensures Arrived(m, NumbersOf(packets), i)
    {
      if i == |m.chunks| - 1 {
        assert LastOf(m) in packets;
      } else {
        var q: u32 := m.base + i;
        assert q in NumbersOf(AllButLast(m));
        var p :| p in AllButLast(m) && p.sequence == q;
        assert p in packets;
      }
    }
  }

  /** The first message all but its last packet, then message k, then that last packet. */
  function Overtaking(m0: Message, mk: Message): seq<Packet>
    requires 0 < |m0.chunks| <= U16_MAX && m0.base + |m0.chunks| <= U32_MAX
    requires 0 < |mk.chunks| <= U16_MAX && mk.base + |mk.chunks| <= U32_MAX
  {
    AllButLast(m0) + (AllButLast(mk) + [LastOf(mk)]) + [LastOf(m0)]
  }

  lemma OvertakingIsOwn(msgs: seq<Message>, k: nat)
    requires k < |msgs| && WellFormed(msgs[0]) && WellFormed(msgs[k])
    ensures IsOwnArrival(Overtaking(msgs[0], msgs[k]), msgs, {})
  {
    PartsAreOwn(msgs[0], |msgs[0].chunks| - 1);
    PartsAreOwn(msgs[k], |msgs[k].chunks| - 1);
    assert IsPart(LastOf(msgs[0]), msgs[0], |msgs[0].chunks| - 1);
    assert IsPart(LastOf(msgs[k]), msgs[k], |msgs[k].chunks| - 1);
    hide IsPart, Parts, LastOf, AllButLast;
  }

  lemma LastIsPart(m: Message)
    requires WellFormed(m)
    ensures IsPart(LastOf(m), m, |m.chunks| - 1)
  {
  }

  lemma NothingBuffered(r: Receiver, msgs: seq<Message>, channel: ChannelId, first: nat)
    requires InSequence(msgs, channel, first) && Untroubled(r, msgs, channel, first) && HighestOf(r.highest, r.received)
    ensures BuffersMatch(r.fragments, msgs, r.received)
  {
    forall k | 0 <= k < |msgs|
      ensures Buffered(r.fragments, msgs[k], r.received)
    {
      NothingArrived(r, msgs, channel, first, k);
    }
  }

  lemma WholeCompletes(m: Message, received: set<u32>)
    requires WellFormed(m) && !IsFragmented(m) && Untouched(m, received)
    ensures LastOf(m).sequence !in received && Complete(m, received + {LastOf(m).sequence}) && IsPart(LastOf(m), m, 0)
  {
    assert !Arrived(m, received, 0);
  }

  // ---- What is lost is lost for good

  /** No frame of the channel released in order carries the number q. */
  ghost predicate NeverOn(log: seq<Release>, channel: ChannelId, q: nat) {
    forall x :: x in log && x.mode == InOrder && x.frame.channelId == channel ==> x.frame.sequence != q
  }

  ghost predicate OnlyOn(log: seq<Release>, channel: ChannelId) {
    forall x :: x in log ==> x.mode == InOrder && x.frame.channelId == channel
  }

  /** The first message can never be released any more: the cursor is short of it, where nothing of the messages starts,
      or it arrived completely and is not held. */
  ghost predicate Blocked(r: Receiver, msgs: seq<Message>, channel: ChannelId, first: nat) {
    && Shaped(r) && BuffersMatch(r.fragments, msgs, r.received)
    && channel in r.cursors
    && (r.cursors[channel] < first || Passed(r, msgs, channel, first))
  }

  ghost predicate Passed(r: Receiver, msgs: seq<Message>, channel: ChannelId, first: nat) {
    msgs != [] && Complete(msgs[0], r.received) && first !in BufferOf(r, channel)
  }

  /** Delivering a complete message to a channel that is blocked. */
  lemma DeliveryStaysBlocked(r: Receiver, msgs: seq<Message>, channel: ChannelId, first: nat, k: nat, expected: nat)
    requires InSequence(msgs, channel, first) && k < |msgs| && ShapedOrder(r.cursors, r.reorder) && channel in r.cursors
    requires r.cursors[channel] < first || (first !in BufferOf(r, channel) && k > 0)
    ensures var (r', releases) := DeliverOrdered(r, ReadyOf(msgs[k]), expected);
      && r'.fragments == r.fragments && r'.received == r.received && channel in r'.cursors
      && (if r.cursors[channel] < first then r'.cursors[channel] < first else first !in BufferOf(r', channel))
      && NeverOn(releases, channel, first) && OnlyOn(releases, channel)
  {
    hide DeliverOrdered, Drain, ShapedOrder, InSequence, BufferOf;
    StartsIncrease(msgs, channel, first, k, |msgs|);
    if k > 0 { StartsIncrease(msgs, channel, first, 0, k); }
    DeliveryIsOnChannel(r, ReadyOf(msgs[k]), expected);
    DeliveryByCase(r, ReadyOf(msgs[k]), expected);
    DeliveryMoves(r, ReadyOf(msgs[k]), expected);
  }

  lemma CompleteStays(m: Message, received: set<u32>, more: set<u32>)
    requires Complete(m, received) && received <= more
    ensures Complete(m, more)
  {
    assert forall i :: 0 <= i < |m.chunks| && Arrived(m, received, i) ==> Arrived(m, more, i);
  }

  lemma OwnPacketStaysBlocked(r: Receiver, msgs: seq<Message>, channel: ChannelId, first: nat, p: Packet, k: nat,
                              i: nat)
    requires InSequence(msgs, channel, first) && Blocked(r, msgs, channel, first) && k < |msgs| && IsPart(p, msgs[k], i)
    requires p.sequence !in r.received
    ensures var (r', outcome) := Intake(r, p);
      && Blocked(r', msgs, channel, first)
      && NeverOn(ReleasesOf(outcome), channel, first) && OnlyOn(ReleasesOf(outcome), channel)
  {
    hide Reassemble, BuffersMatch, InSequence, Complete, DeliverOrdered, Shaped, IsPart, NeverOn, OnlyOn;
    PartFits(p, msgs, channel, first, k, i);
    IntakeIsShaped(r, p);
    NewPart(r.fragments, msgs, channel, first, r.received, p, k, i);
    NothingOnAny(channel, first);
    var received' := r.received + {p.sequence};
    if Passed(r, msgs, channel, first) { CompleteStays(msgs[0], r.received, received'); }
    var reassembled := Remember(r, p.sequence).(fragments := Reassemble(r.fragments, p).0);
    if Complete(msgs[k], received') {
      ShapedHasShapedParts(r);
      DeliveryStaysBlocked(reassembled, msgs, channel, first, k, Expected(r, p));
    }
  }

  lemma NothingOnAny(channel: ChannelId, first: nat)
    ensures NeverOn([], channel, first) && OnlyOn([], channel)
  {
  }

  lemma ForeignPacketStaysBlocked(r: Receiver, msgs: seq<Message>, channel: ChannelId, first: nat, p: Packet)
    requires InSequence(msgs, channel, first) && Blocked(r, msgs, channel, first) && IsForeign(p, msgs, channel, first)
    ensures var (r', outcome) := Intake(r, p);
      Blocked(r', msgs, channel, first) && NeverOn(ReleasesOf(outcome), channel, first)
  {
    hide Intake, BuffersMatch, InSequence, Complete, Shaped, OnChannel;
    ForeignIsBelowMax(p, msgs, channel, first);
    IntakeIsShaped(r, p);
    ForeignPacketPassesBy(r, msgs, channel, first, p, r.cursors[channel], BufferOf(r, channel));
    var (r', outcome) := Intake(r, p);
    if Passed(r, msgs, channel, first) { CompleteStays(msgs[0], r.received, r'.received); }
    NothingIsNever(ReleasesOf(outcome), channel, first);
  }

  lemma NothingIsNever(log: seq<Release>, channel: ChannelId, q: nat)
    requires OnChannel(log, InOrder, channel) == []
    ensures NeverOn(log, channel, q)
  {
    forall x | x in log ensures x.mode == InOrder && x.frame.channelId == channel ==> x.frame.sequence != q {
      InLogIsOnChannel(log, x);
    }
  }

  /** Whatever arrives, a blocked channel stays blocked. */
  lemma {:induction false} BlockedThroughout(r: Receiver, msgs: seq<Message>, channel: ChannelId, first: nat,
                                             packets: seq<Packet>, earlier: set<u32>, others: bool)
    requires InSequence(msgs, channel, first) && Blocked(r, msgs, channel, first) && earlier <= r.received
    requires IsHistory(packets, msgs, channel, first, earlier, others)
    ensures var (r', log) := Absorb(r, packets);
      && Blocked(r', msgs, channel, first) && r.received <= r'.received
      && NeverOn(log, channel, first) && (!others ==> OnlyOn(log, channel))
  {
    hide Intake, InSequence, Blocked, IsPart, IsOwn, IsForeign;
    if packets != [] {
      var n, p := |packets| - 1, packets[|packets| - 1];
      BlockedThroughout(r, msgs, channel, first, packets[..n], earlier, others);
      var before := Absorb(r, packets[..n]).0;
      IntakeRemembers(before, p);
      if p.sequence in before.received {
        BlockedIsShaped(before, msgs, channel, first);
        RepeatChangesNothing(before, p);
      } else if IsOwn(p, msgs) {
        var k, i := OwnPart(p, msgs);
        OwnPacketStaysBlocked(before, msgs, channel, first, p, k, i);
      } else {
        ForeignPacketStaysBlocked(before, msgs, channel, first, p);
      }
    }
  }

  lemma OwnPart(p: Packet, msgs: seq<Message>) returns (k: nat, i: nat)
    requires IsOwn(p, msgs)
    ensures k < |msgs| && IsPart(p, msgs[k], i)
  {
    k, i :| 0 <= k < |msgs| && IsPart(p, msgs[k], i);
  }

  lemma BlockedIsShaped(r: Receiver, msgs: seq<Message>, channel: ChannelId, first: nat)
    requires Blocked(r, msgs, channel, first)
    ensures Shaped(r)
  {
  }

  /** After these packets the first message has arrived completely, and whatever arrives later, it is never released:
      no ordered frame of the channel carries its number, and without other traffic no frame at all. */
  ghost predicate LostForGood(r: Receiver, msgs: seq<Message>, channel: ChannelId, first: nat, packets: seq<Packet>) {
    && msgs != [] && msgs[0].base == first && Complete(msgs[0], NumbersOf(packets))
    && (forall more :: IsArrival(more, msgs, channel, first, r.received) ==>
          NeverOn(Absorb(r, packets + more).1, channel, first))
    && (forall more :: IsOwnArrival(more, msgs, r.received) ==> HasNoFrame(Absorb(r, packets + more).1, first))
  }

  ghost predicate HasNoFrame(log: seq<Release>, q: nat) {
    forall x :: x in log ==> x.frame.sequence != q
  }

  /** Once blocked, lost for good. */
  lemma BlockedIsLost(r: Receiver, msgs: seq<Message>, channel: ChannelId, first: nat, packets: seq<Packet>)
    requires InSequence(msgs, channel, first) && msgs != [] && Complete(msgs[0], NumbersOf(packets))
    requires var (r', log) := Absorb(r, packets);
      Blocked(r', msgs, channel, first) && r.received <= r'.received
      && NeverOn(log, channel, first) && OnlyOn(log, channel)
    ensures LostForGood(r, msgs, channel, first, packets)
  {
    hide Absorb, InSequence, Blocked, NumbersOf, Complete, IsArrival, IsOwnArrival;
    OrderedOnChannel(msgs, channel, first, 0);
    StartsAtFirst(msgs, channel, first);
    var (r', log) := Absorb(r, packets);
    forall more | IsArrival(more, msgs, channel, first, r.received)
      ensures NeverOn(Absorb(r, packets + more).1, channel, first) {
      AbsorbJoins(r, packets, more);
      BlockedThroughout(r', msgs, channel, first, more, r.received, true);
    }
    forall more | IsOwnArrival(more, msgs, r.received) ensures HasNoFrame(Absorb(r, packets + more).1, first) {
      AbsorbJoins(r, packets, more);
      BlockedThroughout(r', msgs, channel, first, more, r.received, false);
    }
  }

  lemma StartsAtFirst(msgs: seq<Message>, channel: ChannelId, first: nat)
    requires InSequence(msgs, channel, first) && msgs != []
    ensures msgs[0].base == first
  {
    assert InPlace(msgs, channel, first, 0);
  }

  lemma {:induction false} ReleasesStartWithFirst(msgs: seq<Message>, n: nat)
    requires 0 < n <= |msgs|
    ensures |ReleasesOfFirst(msgs, n)| == n && ReleasesOfFirst(msgs, n)[0] == ReleaseOf(msgs[0])
  {
    if n > 1 { ReleasesStartWithFirst(msgs, n - 1); }
  }

  /** A message lost is missing from what the channel releases. */
  lemma LostIsNotReleased(r: Receiver, msgs: seq<Message>, channel: ChannelId, first: nat, packets: seq<Packet>)
    requires LostForGood(r, msgs, channel, first, packets)
    ensures !ReleasesPrefix(r, msgs, channel, packets)
  {
    assert IsArrival([], msgs, channel, first, r.received);
    assert packets + [] == packets;
    var log := Absorb(r, packets).1;
    assert NeverOn(log, channel, first);
    var n := Prefix(msgs, NumbersOf(packets), 0);
    ReleasesStartWithFirst(msgs, n);
    hide Absorb, NumbersOf, Complete, OnChannel, LostForGood;
    if OnChannel(log, InOrder, channel) == ReleasesOfFirst(msgs, n) {
      var at := OnChannelComesFromLog(log, InOrder, channel, 0);
    }
  }

  lemma OwnPacketsFit(r: Receiver, msgs: seq<Message>, channel: ChannelId, first: nat, packets: seq<Packet>)
    requires InSequence(msgs, channel, first) && Shaped(r) && IsOwnArrival(packets, msgs, {})
    ensures Shaped(Absorb(r, packets).0) && r.received <= Absorb(r, packets).0.received
    decreases packets
  {
    hide Intake, InSequence, Shaped, IsOwn;
    if packets != [] {
      var n := |packets| - 1;
      OwnPacketsFit(r, msgs, channel, first, packets[..n]);
      var before := Absorb(r, packets[..n]).0;
      ArrivalFits(before, msgs, channel, first, packets[n]);
      IntakeIsShaped(before, packets[n]);
      IntakeRemembers(before, packets[n]);
    }
  }

  /** If message k overtakes the first message and the guess is wrong, the first message is lost for good. */
  lemma OvertakenMessageIsLost(r: Receiver, msgs: seq<Message>, channel: ChannelId, first: nat, k: nat)
    requires Shaped(r) && InSequence(msgs, channel, first) && Unstarted(r, msgs, channel, first)
    requires 0 < k < |msgs| && WellFormed(msgs[0]) && WellFormed(msgs[k])
    requires IsFragmented(msgs[0]) || IsFragmented(msgs[k]) || !(r.highest.Some? && r.highest.value + 1 == first)
    ensures IsOwnArrival(Overtaking(msgs[0], msgs[k]), msgs, {})
    ensures LostForGood(r, msgs, channel, first, Overtaking(msgs[0], msgs[k]))
  {
    hide InSequence, BuffersMatch, Intake, Complete, DeliverOrdered, Absorb, AllButLast, LastOf, HighestOf, Untouched,
      IsOwnArrival, LostForGood, BufferOf, ShapedFragments;
    NothingBuffered(r, msgs, channel, first);
    NothingArrived(r, msgs, channel, first, 0);
    NothingArrived(r, msgs, channel, first, k);
    OvertakingIsOwn(msgs, k);
    OwnPacketsFit(r, msgs, channel, first, Overtaking(msgs[0], msgs[k]));
    var c := LaterMessageFirst(r, msgs, channel, first, k);
    var m0, mk := msgs[0], msgs[k];
    var before := AllButLast(m0) + (AllButLast(mk) + [LastOf(mk)]);
    assert before == AllButLast(m0) + AllButLast(mk) + [LastOf(mk)];
    AbsorbOneMore(r, before, LastOf(m0));
    LastMessageIsBlocked(c, msgs, channel, first);
    MessageArrives(m0, AllButLast(mk) + [LastOf(mk)]);
    OrderedOnChannel(msgs, channel, first, k);
    BlockedIsLost(r, msgs, channel, first, Overtaking(m0, mk));
  }

  /** The first message completes where the cursor has passed it or stands short of it. */
  lemma LastMessageIsBlocked(c: Receiver, msgs: seq<Message>, channel: ChannelId, first: nat)
    requires InSequence(msgs, channel, first) && msgs != [] && WellFormed(msgs[0])
    requires HighestOf(c.highest, c.received) && BuffersMatch(c.fragments, msgs, c.received)
    requires channel in c.cursors && c.cursors[channel] != first && first !in BufferOf(c, channel)
    requires LastOf(msgs[0]).sequence !in c.received && Complete(msgs[0], c.received + {LastOf(msgs[0]).sequence})
    ensures var (r', outcome) := Intake(c, LastOf(msgs[0]));
      && outcome == Ok([]) && (Shaped(r') ==> Blocked(r', msgs, channel, first))
  {
    hide InSequence, BuffersMatch, Intake, Complete, DeliverOrdered, LastOf, HighestOf, BufferOf, Shaped, Drain;
    var m := msgs[0];
    OrderedOnChannel(msgs, channel, first, 0);
    StartsAtFirst(msgs, channel, first);
    LastIsPart(m);
    var mid := LastPartDelivers(c, msgs, channel, first, 0, |m.chunks| - 1, LastOf(m));
    SameBuffer(c, mid, channel);
    DeliveryIsOnChannel(mid, ReadyOf(m), Expected(c, LastOf(m)));
    DeliveryByCase(mid, ReadyOf(m), Expected(c, LastOf(m)));
  }

  lemma SameBuffer(r: Receiver, r': Receiver, channel: ChannelId)
    requires r'.reorder == r.reorder
    ensures BufferOf(r', channel) == BufferOf(r, channel)
  {
  }

  /** A single whole message ahead of the expected number is held back for good. */
  lemma MessagePastGapIsHeld(r: Receiver, msgs: seq<Message>, channel: ChannelId, first: nat)
    requires Shaped(r) && InSequence(msgs, channel, first) && Unstarted(r, msgs, channel, first)
    requires |msgs| == 1 && !IsFragmented(msgs[0]) && WellFormed(msgs[0])
    requires r.highest.Some? && r.highest.value + 1 < first
    ensures IsOwnArrival([LastOf(msgs[0])], msgs, {})
    ensures LostForGood(r, msgs, channel, first, [LastOf(msgs[0])])
  {
    hide InSequence, BuffersMatch, Intake, Complete, DeliverOrdered, Untouched, LastOf, LostForGood, Absorb, BufferOf,
      ShapedFragments;
    var m, p := msgs[0], LastOf(msgs[0]);
    NothingBuffered(r, msgs, channel, first);
    NothingArrived(r, msgs, channel, first, 0);
    OrderedOnChannel(msgs, channel, first, 0);
    StartsAtFirst(msgs, channel, first);
    WholeCompletes(m, r.received);
    assert IsOwn(p, msgs);
    OwnPacketsFit(r, msgs, channel, first, [p]);
    var mid := LastPartDelivers(r, msgs, channel, first, 0, 0, p);
    SameBuffer(r, mid, channel);
    WrongGuess(mid, ReadyOf(m), Expected(r, p), first);
    AbsorbOneMore(r, [], p);
    AbsorbNone(r);
    assert [] + [p] == [p];
    MessageArrives(m, []);
    NoPartsBefore(m);
    BlockedIsLost(r, msgs, channel, first, [p]);
  }

  lemma NoPartsBefore(m: Message)
    requires WellFormed(m) && !IsFragmented(m)
    ensures AllButLast(m) + [] + [LastOf(m)] == [LastOf(m)]
  {
  }

  // ---- Exactly when the guess is right

  /** A guess that is not safe: a history of own packets after which the first message is lost for good. */
  lemma UnsafeGuessLoses(r: Receiver, msgs: seq<Message>, channel: ChannelId, first: nat) returns (packets: seq<Packet>)
    requires Shaped(r) && InSequence(msgs, channel, first) && Unstarted(r, msgs, channel, first)
    requires !GuessIsSafe(r.highest, msgs, first)
    ensures IsOwnArrival(packets, msgs, {}) && LostForGood(r, msgs, channel, first, packets)
  {
    hide Shaped, Unstarted, InSequence, LostForGood, IsOwnArrival;
    OrderedOnChannel(msgs, channel, first, 0);
    if |msgs| == 1 {
      MessagePastGapIsHeld(r, msgs, channel, first);
      packets := [LastOf(msgs[0])];
    } else {
      var k := if exists j :: 1 <= j < |msgs| && IsFragmented(msgs[j]) then
          var j :| 1 <= j < |msgs| && IsFragmented(msgs[j]); j else 1;
      OrderedOnChannel(msgs, channel, first, k);
      OvertakenMessageIsLost(r, msgs, channel, first, k);
      packets := Overtaking(msgs[0], msgs[k]);
    }
  }

  /** A packet that carries no data, such as an acknowledgement, numbered q. */
  function Signal(packetType: PacketType, q: u32): Packet {
    Packet(packetType, 0, q, 0, 0, CONTROL, false, false, false, 0, 0, 0, [])
  }

  lemma SignalIsRemembered(r: Receiver, packetType: PacketType, q: u32)
    requires packetType != Data && packetType != Connect
    ensures Intake(r, Signal(packetType, q)) == (Remember(r, q), Ok([]))
  {
  }

  /** What is lost after a signal is lost to a history that begins with it. */
  lemma LostAfterSignal(r: Receiver, msgs: seq<Message>, channel: ChannelId, first: nat, packetType: PacketType,
                        q: u32, packets: seq<Packet>)
    requires packetType != Data && packetType != Connect
    requires LostForGood(Remember(r, q), msgs, channel, first, packets)
    ensures LostForGood(r, msgs, channel, first, [Signal(packetType, q)] + packets)
  {
    hide Absorb, Complete, NumbersOf, Remember, Signal;
    var signal := [Signal(packetType, q)];
    SignalComesFirst(r, packetType, q);
    forall more ensures Absorb(r, (signal + packets) + more).1 == Absorb(Remember(r, q), packets + more).1 {
      assert (signal + packets) + more == signal + (packets + more);
      AbsorbJoins(r, signal, packets + more);
      assert [] + Absorb(Remember(r, q), packets + more).1 == Absorb(Remember(r, q), packets + more).1;
    }
    assert forall more :: IsArrival(more, msgs, channel, first, r.received) ==>
      IsArrival(more, msgs, channel, first, Remember(r, q).received) by { RememberAdds(r, q); }
    assert forall more :: IsOwnArrival(more, msgs, r.received) ==> IsOwnArrival(more, msgs, Remember(r, q).received)
      by { RememberAdds(r, q); }
    MoreNumbers(packets, signal);
    CompleteStays(msgs[0], NumbersOf(packets), NumbersOf(signal + packets));
  }

  lemma RememberAdds(r: Receiver, q: u32)
    ensures r.received <= Remember(r, q).received
  {
  }

  lemma SignalComesFirst(r: Receiver, packetType: PacketType, q: u32)
    requires packetType != Data && packetType != Connect
    ensures Absorb(r, [Signal(packetType, q)]) == (Remember(r, q), [])
  {
    hide Absorb, Intake, Remember;
    SignalIsRemembered(r, packetType, q);
    AbsorbNone(r);
    AbsorbOneMore(r, [], Signal(packetType, q));
    var none: seq<Release> := [];
    assert none + none == none;
    assert [] + [Signal(packetType, q)] == [Signal(packetType, q)];
  }

  lemma MoreNumbers(packets: seq<Packet>, more: seq<Packet>)
    ensures NumbersOf(packets) <= NumbersOf(more + packets)
  {
    forall q | q in NumbersOf(packets) ensures q in NumbersOf(more + packets) {
      var p :| p in packets && p.sequence == q;
      assert p in more + packets;
    }
  }

  /** A number that spoils a safe guess, if one can arrive. */
  lemma SpoilingNumber(r: Receiver, msgs: seq<Message>, channel: ChannelId, first: nat) returns (q: u32)
    requires Shaped(r) && InSequence(msgs, channel, first) && Unstarted(r, msgs, channel, first)
    requires GuessIsSafe(r.highest, msgs, first) && !GuessWithstands(r.highest, msgs, first)
    ensures IsForeign(Signal(Ack, q), msgs, channel, first) && q < U32_MAX
    ensures Unstarted(Remember(r, q), msgs, channel, first) && Shaped(Remember(r, q))
    ensures !GuessIsSafe(Remember(r, q).highest, msgs, first)
  {
    hide ShapedFragments, ShapedOrder;
    OrderedOnChannel(msgs, channel, first, |msgs| - 1);
    StartsIncrease(msgs, channel, first, 0, |msgs|);
    q := if |msgs| == 1 then 0 else AllEnd(msgs, first);
    hide InSequence;
    RememberIsShaped(r, q);
  }

  /** A guess that does not withstand other traffic: a history after which the first message is lost for good. */
  lemma SpoiltGuessLoses(r: Receiver, msgs: seq<Message>, channel: ChannelId, first: nat) returns (packets: seq<Packet>)
    requires Shaped(r) && InSequence(msgs, channel, first) && Unstarted(r, msgs, channel, first)
    requires !GuessWithstands(r.highest, msgs, first)
    ensures IsArrival(packets, msgs, channel, first, {}) && LostForGood(r, msgs, channel, first, packets)
  {
    hide Shaped, Unstarted, InSequence, LostForGood, GuessIsSafe, GuessWithstands, IsForeign, Remember, IsOwn;
    if GuessIsSafe(r.highest, msgs, first) {
      var q := SpoilingNumber(r, msgs, channel, first);
      var own := UnsafeGuessLoses(Remember(r, q), msgs, channel, first);
      LostAfterSignal(r, msgs, channel, first, Ack, q, own);
      packets := [Signal(Ack, q)] + own;
      assert forall p :: p in packets ==> p == Signal(Ack, q) || p in own;
    } else {
      packets := UnsafeGuessLoses(r, msgs, channel, first);
    }
  }

  /** Exactly when ordered delivery on a channel without a cursor yet is complete for every arrival history, other
      traffic included: the guess must withstand it. Otherwise some history loses the first message for good. */
  lemma GuessedCursorIsRightExactlyWhenSafe(r: Receiver, msgs: seq<Message>, channel: ChannelId, first: nat)
    requires Shaped(r) && InSequence(msgs, channel, first) && Unstarted(r, msgs, channel, first) && first <= U32_MAX
    ensures (forall packets :: IsArrival(packets, msgs, channel, first, r.received) ==>
        ReleasesPrefix(r, msgs, channel, packets))
        <==> GuessWithstands(r.highest, msgs, first)
    ensures !GuessWithstands(r.highest, msgs, first) ==> exists packets ::
      IsArrival(packets, msgs, channel, first, r.received) && LostForGood(r, msgs, channel, first, packets)
  {
    hide ReleasesPrefix, Shaped, Unstarted, InSequence, GuessWithstands, LostForGood, IsOwn, IsForeign;
    if GuessWithstands(r.highest, msgs, first) {
      forall packets | IsArrival(packets, msgs, channel, first, r.received)
        ensures ReleasesPrefix(r, msgs, channel, packets)
      {
        SafeGuessSuffices(r, msgs, channel, first, packets, true);
      }
    } else {
      var packets := SpoiltGuessLoses(r, msgs, channel, first);
      assert IsArrival(packets, msgs, channel, first, r.received);
      LostIsNotReleased(r, msgs, channel, first, packets);
    }
  }

  /** The same if nothing but the messages' own packets arrives: there the guess only needs to be safe. */
  lemma OwnPacketsAreRightExactlyWhenSafe(r: Receiver, msgs: seq<Message>, channel: ChannelId, first: nat)
    requires Shaped(r) && InSequence(msgs, channel, first) && Unstarted(r, msgs, channel, first) && first <= U32_MAX
    ensures (forall packets :: IsOwnArrival(packets, msgs, r.received) ==> ReleasesPrefix(r, msgs, channel, packets))
        <==> GuessIsSafe(r.highest, msgs, first)
    ensures !GuessIsSafe(r.highest, msgs, first) ==> exists packets ::
      IsOwnArrival(packets, msgs, r.received) && LostForGood(r, msgs, channel, first, packets)
  {
    hide ReleasesPrefix, Shaped, Unstarted, InSequence, GuessIsSafe, LostForGood, IsOwn;
    if GuessIsSafe(r.highest, msgs, first) {
      forall packets | IsOwnArrival(packets, msgs, r.received)
        ensures ReleasesPrefix(r, msgs, channel, packets)
      {
        SafeGuessSuffices(r, msgs, channel, first, packets, false);
      }
    } else {
      var packets := UnsafeGuessLoses(r, msgs, channel, first);
      assert IsOwnArrival(packets, msgs, r.received);
      LostIsNotReleased(r, msgs, channel, first, packets);
    }
  }

  /** A whole message of one packet. */
  function WholeOf(channel: ChannelId, base: u32, payload: Bytes): Message {
    Message(channel, true, false, base, 0, [payload])
  }

  /** The shortest such loss: after number 4, a ping numbered 7 overtakes two messages numbered 5 and 6, and 6
      overtakes 5. The guess was safe until the ping arrived. Message 6 is released, 5 never. */
  lemma PingLosesMessage(channel: ChannelId, a: Bytes, b: Bytes)
    ensures var r := Remember(FreshReceiver, 4);
      var msgs := [WholeOf(channel, 5, a), WholeOf(channel, 6, b)];
      var packets := [Signal(Ping, 7), PartOf(msgs[1], 0), PartOf(msgs[0], 0)];
      && Shaped(r) && InSequence(msgs, channel, 5) && Unstarted(r, msgs, channel, 5)
      && GuessIsSafe(r.highest, msgs, 5) && !GuessWithstands(r.highest, msgs, 5)
      && IsArrival(packets, msgs, channel, 5, r.received) && LostForGood(r, msgs, channel, 5, packets)
  {
    var r := Remember(FreshReceiver, 4);
    var msgs := [WholeOf(channel, 5, a), WholeOf(channel, 6, b)];
    TwoInSequence(channel, a, b);
    hide InSequence, Overtaking, LostForGood;
    assert r.highest == Some(4) && AllEnd(msgs, 5) == 7;
    OvertakenMessageIsLost(Remember(r, 7), msgs, channel, 5, 1);
    OvertakingWhole(msgs[0], msgs[1]);
    LostAfterSignal(r, msgs, channel, 5, Ping, 7, Overtaking(msgs[0], msgs[1]));
    assert [Signal(Ping, 7)] + [PartOf(msgs[1], 0), PartOf(msgs[0], 0)]
      == [Signal(Ping, 7), PartOf(msgs[1], 0), PartOf(msgs[0], 0)];
    assert IsForeign(Signal(Ping, 7), msgs, channel, 5);
    assert IsPart(PartOf(msgs[0], 0), msgs[0], 0) && IsPart(PartOf(msgs[1], 0), msgs[1], 0);
  }

  lemma OvertakingWhole(m0: Message, mk: Message)
    requires WellFormed(m0) && !IsFragmented(m0) && WellFormed(mk) && !IsFragmented(mk)
    ensures Overtaking(m0, mk) == [PartOf(mk, 0), PartOf(m0, 0)]
  {
  }

  lemma TwoInSequence(channel: ChannelId, a: Bytes, b: Bytes)
    ensures InSequence([WholeOf(channel, 5, a), WholeOf(channel, 6, b)], channel, 5)
  {
    var msgs := [WholeOf(channel, 5, a), WholeOf(channel, 6, b)];
    assert InPlace(msgs, channel, 5, 0) && InPlace(msgs, channel, 5, 1);
  }
}
