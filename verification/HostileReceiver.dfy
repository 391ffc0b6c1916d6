/** What the receiving half keeps true for arbitrary packets, one step at a time. */
module HostileReceiver {
  import opened Prelude
  import opened Packets
  import opened AckWindow
  import opened Receivers
  import opened Sessions

  // ---- Shape

  ghost predicate ShapedBuffer(key: FragmentKey, b: FragmentBuffer) {
    && b.channelId == key.0
    && b.fragmentCount > 0
    && b.payloads.Keys == b.sequences.Keys
    && (forall i :: i in b.payloads ==> i < b.fragmentCount)
    && (forall i :: i in b.sequences ==> b.sequences[i] < U32_MAX)
  }

  ghost predicate ShapedFragments(fragments: map<FragmentKey, FragmentBuffer>) {
    forall k :: k in fragments ==> ShapedBuffer(k, fragments[k]) && |fragments[k].payloads| < fragments[k].fragmentCount
  }

  ghost predicate ShapedReorder(channel: ChannelId, buffer: ReorderBuffer) {
    forall q :: q in buffer ==>
      && buffer[q].frame.sequence == q
      && buffer[q].frame.channelId == channel
      && q < buffer[q].next <= U32_MAX
  }

  /** Well-formed state: every number still fits 32 bits, and no channel holds a frame it could release. */
  ghost predicate Shaped(r: Receiver) {
    && HighestOf(r.highest, r.received)
    && (forall q :: q in r.received ==> q < U32_MAX)
    && ShapedFragments(r.fragments)
    && ShapedOrder(r.cursors, r.reorder)
  }

  ghost predicate ShapedOrder(cursors: map<ChannelId, nat>, reorder: map<ChannelId, ReorderBuffer>) {
    && (forall c :: c in cursors ==> cursors[c] <= U32_MAX)
    && (forall c :: c in reorder ==> ShapedReorder(c, reorder[c]) && c in cursors && cursors[c] !in reorder[c])
  }

  /** n distinct indexes below n are all of them. */
  lemma Pigeonhole(s: set<u16>, n: nat, i: u16)
    requires forall k :: k in s ==> k < n
    requires |s| >= n && i < n
    ensures i in s
  {
    if i !in s { AtMostCount(s + {i}, n); }
  }

  /** Once as many payloads as fragments have arrived, every index is present: the missing-index exits are dead. */
  lemma FullBufferHasEveryIndex(key: FragmentKey, b: FragmentBuffer)
    requires ShapedBuffer(key, b)
    requires |b.payloads| >= b.fragmentCount
    ensures AllPresent(b)
  {
    forall i: u16 | 0 <= i < b.fragmentCount
      ensures i in b.payloads && i in b.sequences
    {
      Pigeonhole(b.payloads.Keys, b.fragmentCount, i);
    }
  }

  /** A message ready to be delivered ends after it starts, and its numbers fit. */
  ghost predicate ShapedReady(ready: Ready) {
    ready.frame.sequence < ready.next <= U32_MAX
  }

  lemma CompletedIsShaped(key: FragmentKey, b: FragmentBuffer)
    requires ShapedBuffer(key, b) && AllPresent(b)
    ensures ShapedReady(Completed(b)) && Completed(b).frame.channelId == key.0
    ensures exists i :: i in b.sequences && b.sequences[i] == Completed(b).frame.sequence
  {
    LeastIsLeast(b.sequences, b.fragmentCount);
    GreatestIsGreatest(b.sequences, b.fragmentCount);
  }

  lemma FilledIsShaped(fragments: map<FragmentKey, FragmentBuffer>, p: Packet)
    requires ShapedFragments(fragments) && p.sequence < U32_MAX && p.fragmentIndex < p.fragmentCount
    requires BufferFor(fragments, p).fragmentCount == p.fragmentCount
    ensures ShapedBuffer(KeyOf(p), Filled(BufferFor(fragments, p), p))
  {
  }

  /** Which fragments are rejected, and why: those of a set without an id, those beyond their set, and those that do
      not agree with the set's first fragment on its size or ordering. A rejected one leaves the buffers as they are. */
  lemma RejectsExactly(fragments: map<FragmentKey, FragmentBuffer>, p: Packet)
    ensures var (after, outcome) := Reassemble(fragments, p);
      var key := (p.channelId, p.fragmentId);
      if p.fragmentCount == 0 then outcome.Ok?
      else if p.fragmentId == 0 then outcome == Err(ZeroFragmentId)
      else if p.fragmentIndex >= p.fragmentCount then outcome == Err(FragmentIndexOutOfRange)
      else if key in fragments
              && !(fragments[key].fragmentCount == p.fragmentCount && fragments[key].ordered == p.ordered) then
        outcome == Err(FragmentMetadataChanged)
      else outcome.Ok?
    ensures Reassemble(fragments, p).1.Err? ==> Reassemble(fragments, p).0 == fragments
  {
    hide Fill;
  }

  /** Reassembly either keeps the buffers incomplete or hands over a well-formed message. */
  lemma ReassembleIsShaped(fragments: map<FragmentKey, FragmentBuffer>, p: Packet)
    requires ShapedFragments(fragments) && p.sequence < U32_MAX
    ensures var (after, outcome) := Reassemble(fragments, p);
      && ShapedFragments(after)
      && (outcome.Ok? && outcome.value.Some? ==>
            ShapedReady(outcome.value.value) && outcome.value.value.frame.channelId == p.channelId)
  {
    if 0 <= p.fragmentIndex < p.fragmentCount && Fits(fragments, p) {
      var filled := Filled(BufferFor(fragments, p), p);
      FilledIsShaped(fragments, p);
      if |filled.payloads| >= p.fragmentCount { FullBufferHasEveryIndex(KeyOf(p), filled); }
      if IsComplete(filled) { CompletedIsShaped(KeyOf(p), filled); }
    }
  }

  lemma {:induction false} DrainIsShaped(channel: ChannelId, buffer: ReorderBuffer, next: nat)
    requires ShapedReorder(channel, buffer) && next <= U32_MAX
    ensures var (rest, cursor, releases) := Drain(buffer, next);
      && ShapedReorder(channel, rest) && cursor <= U32_MAX && cursor !in rest && next <= cursor
    decreases |buffer|
  {
    if next in buffer { DrainIsShaped(channel, buffer - {next}, buffer[next].next); }
  }

  lemma OrderedIsShaped(r: Receiver, ready: Ready, expected: nat)
    requires ShapedOrder(r.cursors, r.reorder) && ShapedReady(ready) && expected <= U32_MAX
    ensures var r' := DeliverOrdered(r, ready, expected).0; ShapedOrder(r'.cursors, r'.reorder)
  {
    var channel := ready.frame.channelId;
    var buffer := BufferOf(r, channel);
    assert ShapedReorder(channel, buffer);
    DrainIsShaped(channel, buffer, ready.next);
    assert ShapedReorder(channel, buffer[ready.frame.sequence := PendingOrdered(ready.frame, ready.next)]);
    var r' := DeliverOrdered(r, ready, expected).0;
    forall c | c in r'.reorder
      ensures ShapedReorder(c, r'.reorder[c]) && c in r'.cursors && r'.cursors[c] !in r'.reorder[c]
    {
    }
  }

  lemma DispatchIsShaped(r: Receiver, ready: Ready, sequenced: bool, expected: nat)
    requires Shaped(r) && ShapedReady(ready) && expected <= U32_MAX
    ensures Shaped(Dispatch(r, ready, sequenced, expected).0)
  {
    if ready.ordered { OrderedIsShaped(r, ready, expected); }
  }

  lemma RememberIsShaped(r: Receiver, q: u32)
    requires Shaped(r) && q < U32_MAX
    ensures Shaped(Remember(r, q))
  {
  }

  /** Any packet numbered below the maximum keeps the receiver well-formed. */
  lemma IntakeIsShaped(r: Receiver, p: Packet)
    requires Shaped(r) && p.sequence < U32_MAX
    ensures Shaped(Intake(r, p).0)
  {
    RememberIsShaped(r, p.sequence);
    if p.packetType == Data && p.sequence !in r.received {
      var (fragments, outcome) := Reassemble(r.fragments, p);
      ReassembleIsShaped(r.fragments, p);
      var reassembled := Remember(r, p.sequence).(fragments := fragments);
      if outcome.Ok? && outcome.value.Some? {
        DispatchIsShaped(reassembled, outcome.value.value, p.sequenced, Expected(r, p));
      }
    }
  }

  // ---- Each sequence number is used once

  /** The places a sequence number can be used in: a fragment slot, a frame held for its turn, a released frame. */
  datatype Place = InFragment(key: FragmentKey, index: u16) | InReorder(channelId: ChannelId) | InLog(position: nat)

  ghost predicate Holds(r: Receiver, log: seq<Release>, q: u32, place: Place) {
    match place
    case InFragment(k, i) => k in r.fragments && i in r.fragments[k].sequences && r.fragments[k].sequences[i] == q
    case InReorder(c) => c in r.reorder && q in r.reorder[c]
    case InLog(n) => n < |log| && log[n].frame.sequence == q
  }

  ghost predicate UsedOnce(r: Receiver, log: seq<Release>) {
    && (forall q, a, b :: Holds(r, log, q, a) && Holds(r, log, q, b) ==> a == b)
    && (forall q, a :: Holds(r, log, q, a) ==> q in r.received)
  }

  ghost predicate Unused(r: Receiver, log: seq<Release>, q: u32) {
    forall a :: !Holds(r, log, q, a)
  }

  /** A step that at most puts one unused number q in one place keeps every number used once. */
  lemma PlacingKeepsUsedOnce(r: Receiver, log: seq<Release>, r': Receiver, log': seq<Release>, q: u32, place: Place)
    requires UsedOnce(r, log) && r.received <= r'.received && q in r'.received
    requires forall s, a :: Holds(r', log', s, a) ==> if s == q then a == place else Holds(r, log, s, a)
    ensures UsedOnce(r', log')
  {
  }

  /** A step that puts no number in a new place. */
  lemma DroppingKeepsUsedOnce(r: Receiver, log: seq<Release>, r': Receiver, log': seq<Release>)
    requires UsedOnce(r, log) && r.received <= r'.received
    requires forall s, a :: Holds(r', log', s, a) ==> Holds(r, log, s, a)
    ensures UsedOnce(r', log')
  {
  }

  lemma FillKeepsUsedOnce(r: Receiver, log: seq<Release>, p: Packet, filled: FragmentBuffer)
    requires UsedOnce(r, log) && p.sequence !in r.received
    requires filled == Filled(BufferFor(r.fragments, p), p)
    ensures UsedOnce(Remember(r, p.sequence).(fragments := r.fragments[KeyOf(p) := filled]), log)
  {
    var r' := Remember(r, p.sequence).(fragments := r.fragments[KeyOf(p) := filled]);
    var place := InFragment(KeyOf(p), p.fragmentIndex);
    forall s, a | Holds(r', log, s, a)
      ensures if s == p.sequence then a == place else Holds(r, log, s, a)
    {
      if a != place { assert Holds(r, log, s, a); }
    }
    PlacingKeepsUsedOnce(r, log, r', log, p.sequence, place);
  }

  /** The number a completed message goes by is used nowhere else. */
  ghost predicate FreeNumber(r: Receiver, log: seq<Release>, ready: Option<Ready>) {
    ready.Some? ==> Unused(r, log, ready.value.frame.sequence) && ready.value.frame.sequence in r.received
  }

  lemma FragmentKeepsUsedOnce(r: Receiver, log: seq<Release>, p: Packet)
    requires ShapedFragments(r.fragments) && UsedOnce(r, log) && p.sequence < U32_MAX && p.sequence !in r.received
    requires p.fragmentIndex < p.fragmentCount && Fits(r.fragments, p)
    ensures var (fragments, ready) := Fill(r.fragments, p);
      var r' := Remember(r, p.sequence).(fragments := fragments);
      UsedOnce(r', log) && FreeNumber(r', log, ready)
  {
    var key := KeyOf(p);
    var filled := Filled(BufferFor(r.fragments, p), p);
    FillKeepsUsedOnce(r, log, p, filled);
    if IsComplete(filled) {
      var full := Remember(r, p.sequence).(fragments := r.fragments[key := filled]);
      FilledIsShaped(r.fragments, p);
      CompletionFreesItsNumbers(full, log, key);
      UpdateThenRemove(r.fragments, key, filled);
    }
  }

  lemma UpdateThenRemove<K, V>(m: map<K, V>, k: K, v: V)
    ensures m[k := v] - {k} == m - {k}
  {
  }

  lemma FreshNumberIsUnused(r: Receiver, log: seq<Release>, q: u32)
    requires UsedOnce(r, log) && q !in r.received
    ensures UsedOnce(Remember(r, q), log) && Unused(Remember(r, q), log, q)
  {
    DroppingKeepsUsedOnce(r, log, Remember(r, q), log);
    assert forall a :: Holds(Remember(r, q), log, q, a) ==> Holds(r, log, q, a);
  }

  lemma ReassembleKeepsUsedOnce(r: Receiver, log: seq<Release>, p: Packet)
    requires ShapedFragments(r.fragments) && UsedOnce(r, log) && p.sequence < U32_MAX && p.sequence !in r.received
    ensures var (fragments, outcome) := Reassemble(r.fragments, p);
      var r' := Remember(r, p.sequence).(fragments := fragments);
      && UsedOnce(r', log)
      && (outcome.Ok? ==> FreeNumber(r', log, outcome.value))
  {
    FreshNumberIsUnused(r, log, p.sequence);
    if 0 <= p.fragmentIndex < p.fragmentCount && p.fragmentId > 0 && Fits(r.fragments, p) {
      FragmentKeepsUsedOnce(r, log, p);
    } else {
      assert Remember(r, p.sequence) == Remember(r, p.sequence).(fragments := r.fragments);
    }
  }

  /** Once a full buffer is removed, the number its message goes by is used nowhere. */
  lemma CompletionFreesItsNumbers(full: Receiver, log: seq<Release>, key: FragmentKey)
    requires UsedOnce(full, log) && key in full.fragments
    requires ShapedBuffer(key, full.fragments[key]) && AllPresent(full.fragments[key])
    ensures var after := full.(fragments := full.fragments - {key});
      var q := Completed(full.fragments[key]).frame.sequence;
      UsedOnce(after, log) && Unused(after, log, q) && q in full.received
  {
    var after := full.(fragments := full.fragments - {key});
    var b := full.fragments[key];
    DroppingKeepsUsedOnce(full, log, after, log);
    CompletedIsShaped(key, b);
    var i :| i in b.sequences && b.sequences[i] == Completed(b).frame.sequence;
    var q := b.sequences[i];
    assert Holds(full, log, q, InFragment(key, i));
    assert forall a :: Holds(after, log, q, a) ==> Holds(full, log, q, a);
  }

  lemma MoveToLog(r: Receiver, log: seq<Release>, channel: ChannelId, buffer: ReorderBuffer, released: Release)
    requires released.frame.sequence in buffer
    requires UsedOnce(r.(reorder := r.reorder[channel := buffer]), log)
    ensures UsedOnce(r.(reorder := r.reorder[channel := buffer - {released.frame.sequence}]), log + [released])
  {
    var q := released.frame.sequence;
    var before := r.(reorder := r.reorder[channel := buffer]);
    var after := r.(reorder := r.reorder[channel := buffer - {q}]);
    assert Holds(before, log, q, InReorder(channel));
    forall s, a | Holds(after, log + [released], s, a)
      ensures if s == q then a == InLog(|log|) else Holds(before, log, s, a)
    {
      if a != InLog(|log|) { assert Holds(before, log, s, a); }
    }
    PlacingKeepsUsedOnce(before, log, after, log + [released], q, InLog(|log|));
  }

  lemma {:induction false} DrainKeepsUsedOnce(r: Receiver, log: seq<Release>, channel: ChannelId,
                                              buffer: ReorderBuffer, next: nat)
    requires ShapedReorder(channel, buffer)
    requires UsedOnce(r.(reorder := r.reorder[channel := buffer]), log)
    ensures var (rest, cursor, releases) := Drain(buffer, next);
      UsedOnce(r.(reorder := r.reorder[channel := rest]), log + releases)
    decreases |buffer|
  {
    if next in buffer {
      var released := Release(InOrder, buffer[next].frame, buffer[next].next);
      MoveToLog(r, log, channel, buffer, released);
      DrainKeepsUsedOnce(r, log + [released], channel, buffer - {next}, buffer[next].next);
      var releases := Drain(buffer - {next}, buffer[next].next).2;
      assert log + ([released] + releases) == log + [released] + releases;
    } else {
      assert log + [] == log;
    }
  }

  lemma LogKeepsUsedOnce(r: Receiver, log: seq<Release>, released: Release)
    requires UsedOnce(r, log) && Unused(r, log, released.frame.sequence) && released.frame.sequence in r.received
    ensures UsedOnce(r, log + [released])
  {
    forall s, a | Holds(r, log + [released], s, a)
      ensures if s == released.frame.sequence then a == InLog(|log|) else Holds(r, log, s, a)
    {
      if a != InLog(|log|) { assert Holds(r, log, s, a); }
    }
    PlacingKeepsUsedOnce(r, log, r, log + [released], released.frame.sequence, InLog(|log|));
  }

  lemma DispatchKeepsUsedOnce(r: Receiver, log: seq<Release>, ready: Ready, sequenced: bool, expected: nat)
    requires Shaped(r) && UsedOnce(r, log)
    requires Unused(r, log, ready.frame.sequence) && ready.frame.sequence in r.received
    ensures var (r', releases) := Dispatch(r, ready, sequenced, expected); UsedOnce(r', log + releases)
  {
    var (r', releases) := Dispatch(r, ready, sequenced, expected);
    if ready.ordered {
      OrderedKeepsUsedOnce(r, log, ready, expected);
    } else {
      if releases == [] {
        assert log + [] == log;
      } else {
        LogKeepsUsedOnce(r, log, releases[0]);
      }
      DroppingKeepsUsedOnce(r, log + releases, r', log + releases);
    }
  }

  lemma HoldKeepsUsedOnce(r: Receiver, log: seq<Release>, ready: Ready, cursors: map<ChannelId, nat>)
    requires UsedOnce(r, log)
    requires Unused(r, log, ready.frame.sequence) && ready.frame.sequence in r.received
    ensures var channel := ready.frame.channelId;
      UsedOnce(r.(cursors := cursors,
                  reorder := r.reorder[channel :=
                    BufferOf(r, channel)[ready.frame.sequence := PendingOrdered(ready.frame, ready.next)]]),
               log)
  {
    var channel := ready.frame.channelId;
    var held := r.(cursors := cursors,
      reorder := r.reorder[channel :=
        BufferOf(r, channel)[ready.frame.sequence := PendingOrdered(ready.frame, ready.next)]]);
    forall s, a | Holds(held, log, s, a)
      ensures if s == ready.frame.sequence then a == InReorder(channel) else Holds(r, log, s, a)
    {
      if a != InReorder(channel) { assert Holds(r, log, s, a); }
    }
    PlacingKeepsUsedOnce(r, log, held, log, ready.frame.sequence, InReorder(channel));
  }

  lemma OrderedKeepsUsedOnce(r: Receiver, log: seq<Release>, ready: Ready, expected: nat)
    requires Shaped(r) && UsedOnce(r, log)
    requires Unused(r, log, ready.frame.sequence) && ready.frame.sequence in r.received
    ensures var (r', releases) := DeliverOrdered(r, ready, expected); UsedOnce(r', log + releases)
  {
    var (r', releases) := DeliverOrdered(r, ready, expected);
    var channel := ready.frame.channelId;
    var next := CursorOr(r, channel, expected, ready.frame.sequence);
    if ready.frame.sequence == next {
      var buffer := BufferOf(r, channel);
      var released := Release(InOrder, ready.frame, ready.next);
      LogKeepsUsedOnce(r, log, released);
      var padded := r.(reorder := r.reorder[channel := buffer]);
      DroppingKeepsUsedOnce(r, log + [released], padded, log + [released]);
      assert ShapedReorder(channel, buffer);
      DrainKeepsUsedOnce(r, log + [released], channel, buffer, ready.next);
      var (rest, cursor, drained) := Drain(buffer, ready.next);
      assert log + [released] + drained == log + releases;
      var drainedState := r.(reorder := r.reorder[channel := rest]);
      DroppingKeepsUsedOnce(drainedState, log + releases, r', log + releases);
    } else {
      assert log + [] == log;
      if ready.frame.sequence > next {
        HoldKeepsUsedOnce(r, log, ready, r'.cursors);
      } else {
        DroppingKeepsUsedOnce(r, log, r', log);
      }
    }
  }

  /** No sequence number is used twice, whatever arrives. */
  lemma IntakeKeepsUsedOnce(r: Receiver, log: seq<Release>, p: Packet)
    requires Shaped(r) && UsedOnce(r, log) && p.sequence < U32_MAX
    ensures var (r', outcome) := Intake(r, p); UsedOnce(r', log + ReleasesOf(outcome))
  {
    assert log + [] == log;
    DroppingKeepsUsedOnce(r, log, Remember(r, p.sequence), log);
    if p.packetType == Data && p.sequence !in r.received {
      var (fragments, outcome) := Reassemble(r.fragments, p);
      RememberIsShaped(r, p.sequence);
      ReassembleIsShaped(r.fragments, p);
      ReassembleKeepsUsedOnce(r, log, p);
      var reassembled := Remember(r, p.sequence).(fragments := fragments);
      if outcome.Ok? && outcome.value.Some? {
        DispatchKeepsUsedOnce(reassembled, log, outcome.value.value, p.sequenced, Expected(r, p));
      }
    }
  }
}
