/** In what order frames leave the receiver, whatever packets arrive: ordered channels form a chain,
    and latest-wins channels never go backwards. */
module DeliveryOrder {
  import opened Prelude
  import opened Packets
  import opened Receivers
  import opened HostileReceiver

  /** The releases of one mode on one channel. */
  function OnChannel(log: seq<Release>, mode: Mode, channel: ChannelId): seq<Release> {
    if log == [] then []
    else
      var last := log[|log| - 1];
      OnChannel(log[..|log| - 1], mode, channel)
        + (if last.mode == mode && last.frame.channelId == channel then [last] else [])
  }

  lemma {:induction false} OnChannelAppends(a: seq<Release>, b: seq<Release>, mode: Mode, channel: ChannelId)
    ensures OnChannel(a + b, mode, channel) == OnChannel(a, mode, channel) + OnChannel(b, mode, channel)
  {
    if b == [] {
      assert a + b == a;
    } else {
      assert (a + b)[..|a + b| - 1] == a + b[..|b| - 1];
      OnChannelAppends(a, b[..|b| - 1], mode, channel);
    }
  }

  lemma {:induction false} OnChannelComesFromLog(log: seq<Release>, mode: Mode, channel: ChannelId, k: nat)
    returns (n: nat)
    requires k < |OnChannel(log, mode, channel)|
    ensures n < |log| && log[n] == OnChannel(log, mode, channel)[k]
    ensures log[n].mode == mode && log[n].frame.channelId == channel
  {
    if k < |OnChannel(log[..|log| - 1], mode, channel)| {
      n := OnChannelComesFromLog(log[..|log| - 1], mode, channel, k);
    } else {
      n := |log| - 1;
    }
  }

  lemma {:induction false} InLogIsOnChannel(log: seq<Release>, x: Release)
    requires x in log
    ensures x in OnChannel(log, x.mode, x.frame.channelId)
  {
    if x in log[..|log| - 1] { InLogIsOnChannel(log[..|log| - 1], x); }
  }

  // ---- Ordered channels

  /** xs are ordered releases on a channel, each starting where the one before ended, from start to end. */
  ghost predicate ChainFrom(xs: seq<Release>, channel: ChannelId, start: nat, end: nat) {
    if xs == [] then start == end
    else
      && xs[0].mode == InOrder && xs[0].frame.channelId == channel
      && xs[0].frame.sequence == start < xs[0].next
      && ChainFrom(xs[1..], channel, xs[0].next, end)
  }

  lemma {:induction false} ChainsJoin(a: seq<Release>, b: seq<Release>, channel: ChannelId, start: nat, middle: nat,
                                      end: nat)
    requires ChainFrom(a, channel, start, middle) && ChainFrom(b, channel, middle, end)
    ensures ChainFrom(a + b, channel, start, end)
  {
    if a == [] {
      assert a + b == b;
    } else {
      ChainsJoin(a[1..], b, channel, a[0].next, middle, end);
      assert (a + b)[1..] == a[1..] + b;
    }
  }

  /** What a chain means: each frame starts exactly where the previous one's range ended. */
  lemma {:induction false} ChainLinks(xs: seq<Release>, channel: ChannelId, start: nat, end: nat, j: nat)
    requires ChainFrom(xs, channel, start, end) && j < |xs|
    ensures xs[j].frame.sequence == (if j == 0 then start else xs[j - 1].next)
    ensures start <= xs[j].frame.sequence < xs[j].next <= end
    ensures j + 1 == |xs| ==> xs[j].next == end
  {
    if j > 0 {
      ChainLinks(xs[1..], channel, xs[0].next, end, j - 1);
    } else if |xs| > 1 {
      ChainLinks(xs[1..], channel, xs[0].next, end, 0);
    }
  }

  lemma {:induction false} ChainIsOnChannel(xs: seq<Release>, channel: ChannelId, start: nat, end: nat,
                                            other: ChannelId)
    requires ChainFrom(xs, channel, start, end)
    ensures OnChannel(xs, InOrder, other) == if other == channel then xs else []
    ensures OnChannel(xs, Latest, other) == []
  {
    if xs != [] {
      ChainIsOnChannel(xs[1..], channel, xs[0].next, end, other);
      OnChannelOfOne(xs[0], InOrder, other);
      OnChannelOfOne(xs[0], Latest, other);
      hide OnChannel;
      assert xs == [xs[0]] + xs[1..];
      OnChannelAppends([xs[0]], xs[1..], InOrder, other);
      OnChannelAppends([xs[0]], xs[1..], Latest, other);
    }
  }

  lemma OnChannelOfOne(x: Release, mode: Mode, channel: ChannelId)
    ensures OnChannel([x], mode, channel) == if x.mode == mode && x.frame.channelId == channel then [x] else []
  {
    assert [x][..0] == [] && OnChannel([], mode, channel) == [];
  }

  /** Draining releases a chain from the cursor to the new cursor, and leaves nothing at it. */
  lemma {:induction false} DrainIsChain(channel: ChannelId, buffer: ReorderBuffer, next: nat)
    requires ShapedReorder(channel, buffer)
    ensures var (rest, cursor, releases) := Drain(buffer, next);
      && ChainFrom(releases, channel, next, cursor)
      && cursor !in rest && rest.Keys <= buffer.Keys
      && (forall q :: q in buffer && q !in rest ==> next <= q < cursor)
    decreases |buffer|
  {
    if next in buffer {
      DrainIsChain(channel, buffer - {next}, buffer[next].next);
      var (rest, cursor, releases) := Drain(buffer - {next}, buffer[next].next);
      var first := Release(InOrder, buffer[next].frame, buffer[next].next);
      assert ([first] + releases)[1..] == releases;
      ChainIsForward(releases, channel, buffer[next].next, cursor);
    }
  }

  lemma {:induction false} ChainIsForward(xs: seq<Release>, channel: ChannelId, start: nat, end: nat)
    requires ChainFrom(xs, channel, start, end)
    ensures start <= end && (xs != [] ==> start < end)
  {
    if xs != [] { ChainIsForward(xs[1..], channel, xs[0].next, end); }
  }

  /** What was released in order on a channel is one chain that ends at the channel's cursor. */
  ghost predicate ChainTo(r: Receiver, log: seq<Release>, channel: ChannelId) {
    var xs := OnChannel(log, InOrder, channel);
    xs != [] ==> channel in r.cursors && ChainFrom(xs, channel, xs[0].frame.sequence, r.cursors[channel])
  }

  ghost predicate Chains(r: Receiver, log: seq<Release>) {
    forall c :: ChainTo(r, log, c)
  }

  lemma OrderedIsChain(r: Receiver, ready: Ready, expected: nat)
    requires ShapedOrder(r.cursors, r.reorder) && ShapedReady(ready)
    ensures var (r', releases) := DeliverOrdered(r, ready, expected);
      var channel := ready.frame.channelId;
      && channel in r'.cursors
      && ChainFrom(releases, channel, CursorOr(r, channel, expected, ready.frame.sequence), r'.cursors[channel])
      && r'.cursors == r.cursors[channel := r'.cursors[channel]]
  {
    var channel := ready.frame.channelId;
    var (r', releases) := DeliverOrdered(r, ready, expected);
    if ready.frame.sequence == CursorOr(r, channel, expected, ready.frame.sequence) {
      var buffer := BufferOf(r, channel);
      assert ShapedReorder(channel, buffer);
      DrainIsChain(channel, buffer, ready.next);
      assert releases[1..] == Drain(buffer, ready.next).2;
    }
  }

  lemma OrderedKeepsChains(r: Receiver, log: seq<Release>, ready: Ready, expected: nat)
    requires ShapedOrder(r.cursors, r.reorder) && ShapedReady(ready) && Chains(r, log)
    ensures var (r', releases) := DeliverOrdered(r, ready, expected); Chains(r', log + releases)
  {
    var channel := ready.frame.channelId;
    var (r', releases) := DeliverOrdered(r, ready, expected);
    var start := CursorOr(r, channel, expected, ready.frame.sequence);
    OrderedIsChain(r, ready, expected);
    forall c
      ensures ChainTo(r', log + releases, c)
    {
      var before := OnChannel(log, InOrder, c);
      OnChannelAppends(log, releases, InOrder, c);
      ChainIsOnChannel(releases, channel, start, r'.cursors[channel], c);
      assert ChainTo(r, log, c);
      if c == channel && before != [] {
        ChainsJoin(before, releases, c, before[0].frame.sequence, start, r'.cursors[c]);
      } else if c == channel {
        assert before + releases == releases;
      } else {
        assert before + [] == before;
      }
    }
  }

  lemma UnorderedKeepsChains(r: Receiver, log: seq<Release>, r': Receiver, releases: seq<Release>)
    requires Chains(r, log) && r'.cursors == r.cursors
    requires |releases| <= 1 && (releases != [] ==> releases[0].mode != InOrder)
    ensures Chains(r', log + releases)
  {
    forall c
      ensures ChainTo(r', log + releases, c)
    {
      OnChannelAppends(log, releases, InOrder, c);
      assert OnChannel([], InOrder, c) == [];
      if releases != [] { assert releases[..0] == [] && OnChannel(releases, InOrder, c) == []; }
      assert OnChannel(log, InOrder, c) + [] == OnChannel(log, InOrder, c);
      assert ChainTo(r, log, c);
    }
  }

  /** Every ordered channel stays one chain ending at its cursor, whatever packet arrives. */
  lemma IntakeKeepsChains(r: Receiver, log: seq<Release>, p: Packet)
    requires Shaped(r) && Chains(r, log) && p.sequence < U32_MAX
    ensures var (r', outcome) := Intake(r, p); Chains(r', log + ReleasesOf(outcome))
  {
    UnorderedKeepsChains(r, log, r, []);
    UnorderedKeepsChains(r, log, Remember(r, p.sequence), []);
    if p.packetType == Data && p.sequence !in r.received {
      var (fragments, outcome) := Reassemble(r.fragments, p);
      ReassembleIsShaped(r.fragments, p);
      var reassembled := Remember(r, p.sequence).(fragments := fragments);
      UnorderedKeepsChains(r, log, reassembled, []);
      assert log + [] == log;
      if outcome.Ok? && outcome.value.Some? {
        var ready := outcome.value.value;
        if ready.ordered {
          OrderedKeepsChains(reassembled, log, ready, Expected(r, p));
        } else {
          var (r', releases) := Dispatch(reassembled, ready, p.sequenced, Expected(r, p));
          UnorderedKeepsChains(reassembled, log, r', releases);
        }
      }
    }
  }

  // ---- What one delivery moves

  ghost predicate FromBuffer(x: Release, channel: ChannelId, buffer: ReorderBuffer) {
    x.mode == InOrder && x.frame.channelId == channel && x.frame.sequence in buffer
  }

  lemma {:induction false} DrainComesFromBuffer(channel: ChannelId, buffer: ReorderBuffer, next: nat)
    requires ShapedReorder(channel, buffer)
    ensures forall x :: x in Drain(buffer, next).2 ==> FromBuffer(x, channel, buffer)
    decreases |buffer|
  {
    if next in buffer {
      DrainComesFromBuffer(channel, buffer - {next}, buffer[next].next);
      var rest := Drain(buffer - {next}, buffer[next].next).2;
      var head := Release(InOrder, buffer[next].frame, buffer[next].next);
      assert Drain(buffer, next).2 == [head] + rest;
      forall x | x in Drain(buffer, next).2 ensures FromBuffer(x, channel, buffer) {
        assert x == head || FromBuffer(x, channel, buffer - {next});
      }
    }
  }

  lemma DrainMoves(channel: ChannelId, buffer: ReorderBuffer, next: nat)
    requires ShapedReorder(channel, buffer)
    ensures var (rest, cursor, drained) := Drain(buffer, next);
      && next <= cursor && rest.Keys <= buffer.Keys
      && (forall q :: q in buffer && q !in rest ==> q < cursor)
      && (forall x :: x in drained ==> FromBuffer(x, channel, buffer))
      && (buffer == map[] ==> rest == map[])
  {
    var (rest, cursor, drained) := Drain(buffer, next);
    DrainIsChain(channel, buffer, next);
    DrainComesFromBuffer(channel, buffer, next);
    ChainIsForward(drained, channel, next, cursor);
  }

  /** Ordered delivery of a frame concerns its own channel only. */
  lemma DeliveryIsOnChannel(r: Receiver, ready: Ready, expected: nat)
    ensures var r' := DeliverOrdered(r, ready, expected).0;
      var c := ready.frame.channelId;
      && r'.received == r.received && r'.newest == r.newest && r'.fragments == r.fragments
      && c in r'.cursors && r'.cursors == r.cursors[c := r'.cursors[c]]
      && forall d :: d != c ==> BufferOf(r', d) == BufferOf(r, d)
  {
    hide Drain;
  }

  /** What it does there: nothing behind the cursor, hold ahead of it, release and drain at it. */
  lemma DeliveryByCase(r: Receiver, ready: Ready, expected: nat)
    ensures var (r', releases) := DeliverOrdered(r, ready, expected);
      var c, q := ready.frame.channelId, ready.frame.sequence;
      var cursor, buffer := CursorOr(r, c, expected, q), BufferOf(r, c);
      var (rest, after, drained) := Drain(buffer, ready.next);
      && c in r'.cursors
      && (q < cursor ==> releases == [] && r'.cursors[c] == cursor && BufferOf(r', c) == buffer)
      && (q > cursor ==> releases == [] && r'.cursors[c] == cursor
                         && BufferOf(r', c) == buffer[q := PendingOrdered(ready.frame, ready.next)])
      && (q == cursor ==> releases == [Release(InOrder, ready.frame, ready.next)] + drained && r'.cursors[c] == after
                          && BufferOf(r', c) == rest)
  {
    assert ready.frame.channelId !in r.reorder ==> Drain(map[], ready.next).0 == map[];
    hide Drain;
  }

  /** How ordered delivery of a frame moves its channel: the cursor only advances, what leaves the buffer is behind it,
      and what is released is the frame itself or was held. */
  lemma DeliveryMoves(r: Receiver, ready: Ready, expected: nat)
    requires ShapedOrder(r.cursors, r.reorder) && ShapedReady(ready)
    ensures var (r', releases) := DeliverOrdered(r, ready, expected);
      var c, q0 := ready.frame.channelId, ready.frame.sequence;
      && c in r'.cursors && (c in r.cursors ==> r.cursors[c] <= r'.cursors[c])
      && (forall q :: q in BufferOf(r', c) ==> q in BufferOf(r, c) || q == q0)
      && (forall q :: q in BufferOf(r, c) && q !in BufferOf(r', c) ==> q < r'.cursors[c])
      && (q0 >= r'.cursors[c] ==> q0 in BufferOf(r', c))
      && (forall x :: x in releases ==>
            x == Release(InOrder, ready.frame, ready.next) || FromBuffer(x, c, BufferOf(r, c)))
  {
    var c := ready.frame.channelId;
    assert ShapedReorder(c, BufferOf(r, c));
    hide Drain, ShapedOrder, ShapedReorder, FromBuffer, DeliverOrdered, BufferOf;
    DrainMoves(c, BufferOf(r, c), ready.next);
    DeliveryByCase(r, ready, expected);
  }

  // ---- Where a channel begins

  /** Where a channel's ordered delivery began: at its first ordered release, or where it waits for it. */
  function StartedAt(r: Receiver, log: seq<Release>, channel: ChannelId): nat
    requires channel in r.cursors
  {
    var xs := OnChannel(log, InOrder, channel);
    if xs == [] then r.cursors[channel] else xs[0].frame.sequence
  }

  lemma SameOrderKeepsStart(r: Receiver, log: seq<Release>, r': Receiver, releases: seq<Release>, channel: ChannelId)
    requires r'.cursors == r.cursors && channel in r.cursors && OnChannel(releases, InOrder, channel) == []
    ensures StartedAt(r', log + releases, channel) == StartedAt(r, log, channel)
  {
    OnChannelAppends(log, releases, InOrder, channel);
    assert OnChannel(log, InOrder, channel) + [] == OnChannel(log, InOrder, channel);
  }

  /** A frame delivered in order begins its channel, if nothing began it before, and no other; none begins twice. */
  lemma OrderedKeepsStart(r: Receiver, log: seq<Release>, ready: Ready, expected: nat, channel: ChannelId)
    requires ShapedOrder(r.cursors, r.reorder) && ShapedReady(ready) && ChainTo(r, log, channel)
    ensures var (r', releases) := DeliverOrdered(r, ready, expected);
      && (channel in r'.cursors <==> channel in r.cursors || channel == ready.frame.channelId)
      && (channel in r'.cursors ==>
            StartedAt(r', log + releases, channel)
              == if channel in r.cursors then StartedAt(r, log, channel) else Min(expected, ready.frame.sequence))
  {
    var c := ready.frame.channelId;
    var (r', releases) := DeliverOrdered(r, ready, expected);
    OrderedIsChain(r, ready, expected);
    hide DeliverOrdered, ShapedOrder;
    OnChannelAppends(log, releases, InOrder, channel);
    ChainIsOnChannel(releases, c, CursorOr(r, c, expected, ready.frame.sequence), r'.cursors[c], channel);
    hide OnChannel;
    var xs := OnChannel(log, InOrder, channel);
    if channel == c {
      assert xs == [] ==> xs + releases == releases;
    } else {
      assert xs + [] == xs;
    }
  }

  lemma NothingOnChannel(releases: seq<Release>, channel: ChannelId)
    requires |releases| <= 1 && (releases != [] ==> releases[0].mode != InOrder)
    ensures OnChannel(releases, InOrder, channel) == []
  {
    if releases != [] { assert releases[..0] == []; }
  }

  /** Where a channel began never changes, whatever packet arrives. */
  lemma IntakeKeepsStart(r: Receiver, log: seq<Release>, p: Packet, channel: ChannelId)
    requires Shaped(r) && ChainTo(r, log, channel) && p.sequence < U32_MAX && channel in r.cursors
    ensures var (r', outcome) := Intake(r, p);
      channel in r'.cursors && StartedAt(r', log + ReleasesOf(outcome), channel) == StartedAt(r, log, channel)
  {
    var (r', releases) := (Intake(r, p).0, ReleasesOf(Intake(r, p).1));
    NothingOnChannel([], channel);
    assert log + [] == log;
    if p.packetType == Data && p.sequence !in r.received {
      var (fragments, outcome) := Reassemble(r.fragments, p);
      ReassembleIsShaped(r.fragments, p);
      var reassembled := Remember(r, p.sequence).(fragments := fragments);
      hide Reassemble, DeliverOrdered, ShapedFragments, ShapedOrder, StartedAt;
      SameOrderKeepsStart(r, log, reassembled, [], channel);
      if outcome.Ok? && outcome.value.Some? {
        if outcome.value.value.ordered {
          OrderedKeepsStart(reassembled, log, outcome.value.value, Expected(r, p), channel);
        } else {
          NothingOnChannel(releases, channel);
          SameOrderKeepsStart(reassembled, log, r', releases, channel);
        }
      }
    } else {
      SameOrderKeepsStart(r, log, r', [], channel);
    }
  }

  // ---- Latest-wins channels

  /** Latest-wins releases on a channel strictly increase up to the newest one. */
  ghost predicate RisesTo(r: Receiver, log: seq<Release>, channel: ChannelId) {
    var xs := OnChannel(log, Latest, channel);
    && (forall i, j :: 0 <= i < j < |xs| ==> xs[i].frame.sequence < xs[j].frame.sequence)
    && (channel in r.newest <==> xs != [])
    && (xs != [] ==> r.newest[channel] == xs[|xs| - 1].frame.sequence)
  }

  ghost predicate Rises(r: Receiver, log: seq<Release>) {
    forall c :: RisesTo(r, log, c)
  }

  lemma OthersKeepRises(r: Receiver, log: seq<Release>, r': Receiver, releases: seq<Release>)
    requires Rises(r, log) && r'.newest == r.newest
    requires forall c :: OnChannel(releases, Latest, c) == []
    ensures Rises(r', log + releases)
  {
    forall c
      ensures RisesTo(r', log + releases, c)
    {
      OnChannelAppends(log, releases, Latest, c);
      assert OnChannel(log, Latest, c) + [] == OnChannel(log, Latest, c);
      assert RisesTo(r, log, c);
    }
  }

  /** An unused number that is not below the newest one is above every number released on the channel. */
  lemma NewestIsExceeded(r: Receiver, log: seq<Release>, channel: ChannelId, q: u32)
    requires RisesTo(r, log, channel) && Unused(r, log, q)
    requires channel in r.newest ==> q >= r.newest[channel]
    ensures forall i :: 0 <= i < |OnChannel(log, Latest, channel)| ==>
      OnChannel(log, Latest, channel)[i].frame.sequence < q
  {
    var xs := OnChannel(log, Latest, channel);
    if xs != [] {
      var n := OnChannelComesFromLog(log, Latest, channel, |xs| - 1);
      assert !Holds(r, log, q, InLog(n));
    }
  }

  lemma OnChannelAppendsOne(log: seq<Release>, x: Release, mode: Mode, channel: ChannelId)
    ensures OnChannel(log + [x], mode, channel)
         == OnChannel(log, mode, channel) + if x.mode == mode && x.frame.channelId == channel then [x] else []
  {
    assert (log + [x])[..|log|] == log;
  }

  lemma ReleaseRises(r: Receiver, log: seq<Release>, r': Receiver, released: Release, c: ChannelId)
    requires RisesTo(r, log, c) && released.mode == Latest
    requires r'.newest == r.newest[released.frame.channelId := released.frame.sequence]
    requires c == released.frame.channelId ==>
      forall i :: 0 <= i < |OnChannel(log, Latest, c)| ==>
        OnChannel(log, Latest, c)[i].frame.sequence < released.frame.sequence
    ensures RisesTo(r', log + [released], c)
  {
    OnChannelAppendsOne(log, released, Latest, c);
    var before := OnChannel(log, Latest, c);
    var after := OnChannel(log + [released], Latest, c);
    if c == released.frame.channelId {
      assert after == before + [released];
    } else {
      assert after == before;
    }
  }

  lemma LatestKeepsRises(r: Receiver, log: seq<Release>, ready: Ready, expected: nat)
    requires Rises(r, log) && !ready.ordered && Unused(r, log, ready.frame.sequence)
    ensures var (r', releases) := Dispatch(r, ready, true, expected); Rises(r', log + releases)
  {
    var (r', releases) := Dispatch(r, ready, true, expected);
    var channel := ready.frame.channelId;
    assert RisesTo(r, log, channel);
    if releases == [] {
      OthersKeepRises(r, log, r', releases);
    } else {
      var released := Release(Latest, ready.frame, ready.next);
      NewestIsExceeded(r, log, channel, ready.frame.sequence);
      forall c
        ensures RisesTo(r', log + releases, c)
      {
        assert RisesTo(r, log, c);
        ReleaseRises(r, log, r', released, c);
      }
    }
  }

  /** A latest-wins channel never goes backwards: its duplicate suppression and reassembly rule out a repeated
      number. */
  lemma IntakeKeepsRises(r: Receiver, log: seq<Release>, p: Packet)
    requires Shaped(r) && UsedOnce(r, log) && Rises(r, log) && p.sequence < U32_MAX
    ensures var (r', outcome) := Intake(r, p); Rises(r', log + ReleasesOf(outcome))
  {
    OthersKeepRises(r, log, r, []);
    OthersKeepRises(r, log, Remember(r, p.sequence), []);
    if p.packetType == Data && p.sequence !in r.received {
      var (fragments, outcome) := Reassemble(r.fragments, p);
      ReassembleIsShaped(r.fragments, p);
      ReassembleKeepsUsedOnce(r, log, p);
      var reassembled := Remember(r, p.sequence).(fragments := fragments);
      OthersKeepRises(r, log, reassembled, []);
      assert log + [] == log;
      if outcome.Ok? && outcome.value.Some? {
        var ready := outcome.value.value;
        if ready.ordered {
          var (r', releases) := DeliverOrdered(reassembled, ready, Expected(r, p));
          OrderedIsChain(reassembled, ready, Expected(r, p));
          var start := CursorOr(reassembled, ready.frame.channelId, Expected(r, p), ready.frame.sequence);
          forall c ensures OnChannel(releases, Latest, c) == [] {
            ChainIsOnChannel(releases, ready.frame.channelId, start, r'.cursors[ready.frame.channelId], c);
          }
          OthersKeepRises(reassembled, log, r', releases);
        } else if p.sequenced {
          LatestKeepsRises(reassembled, log, ready, Expected(r, p));
        } else {
          var (r', releases) := Dispatch(reassembled, ready, p.sequenced, Expected(r, p));
          assert releases[..0] == [];
          OthersKeepRises(reassembled, log, r', releases);
        }
      }
    }
  }
}
