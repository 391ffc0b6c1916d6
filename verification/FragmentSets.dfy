/** What reassembly makes of any fragments of one set, whoever sent them: repeated indexes, different contents under one
    index, any order. Of several fragments with one index the latest counts. */
module FragmentSets {
  import opened Prelude
  import opened Packets
  import opened Receivers
  import opened Sessions
  import opened HostileReceiver
  import opened Reassembly

  datatype FragmentSet = FragmentSet(channelId: ChannelId, id: u16, ordered: bool, count: u16)

  predicate BelongsTo(p: Packet, f: FragmentSet) {
    && p.channelId == f.channelId && p.fragmentId == f.id && p.ordered == f.ordered && p.fragmentCount == f.count
    && p.fragmentIndex < p.fragmentCount && p.fragmentId != 0
  }

  ghost predicate AllBelong(packets: seq<Packet>, f: FragmentSet) {
    forall k :: 0 <= k < |packets| ==> BelongsTo(packets[k], f)
  }

  /** A fragment with index i has arrived. */
  ghost predicate IndexArrived(packets: seq<Packet>, i: u16) {
    exists k :: 0 <= k < |packets| && packets[k].fragmentIndex == i
  }

  /** The k-th fragment is the latest one with index i. */
  ghost predicate IsLatest(packets: seq<Packet>, i: u16, k: nat) {
    && k < |packets| && packets[k].fragmentIndex == i
    && forall j :: k < j < |packets| ==> packets[j].fragmentIndex != i
  }

  /** Every index of the set has arrived. */
  ghost predicate IsFull(packets: seq<Packet>, f: FragmentSet) {
    forall i: u16 :: i < f.count ==> IndexArrived(packets, i)
  }

  // ---- The buffer of a set

  /** The buffer holds, under each index that has arrived, the latest fragment. */
  ghost predicate Holds(b: FragmentBuffer, f: FragmentSet, packets: seq<Packet>) {
    && b.channelId == f.channelId && b.ordered == f.ordered && b.fragmentCount == f.count
    && (forall i: u16 :: IndexArrived(packets, i) <==> i in b.payloads)
    && (forall i: u16 :: IndexArrived(packets, i) <==> i in b.sequences)
    && (forall i: u16, k: nat :: IsLatest(packets, i, k) && i in b.payloads ==> b.payloads[i] == packets[k].payload)
    && (forall i: u16, k: nat :: IsLatest(packets, i, k) && i in b.sequences ==> b.sequences[i] == packets[k].sequence)
  }

  lemma EmptyHolds(f: FragmentSet)
    ensures Holds(FragmentBuffer(f.channelId, f.ordered, f.count, map[], map[]), f, [])
  {
  }

  lemma OneMoreArrives(packets: seq<Packet>, p: Packet, i: u16)
    ensures IndexArrived(packets + [p], i) <==> IndexArrived(packets, i) || i == p.fragmentIndex
  {
    var more := packets + [p];
    assert more[|packets|] == p;
    if IndexArrived(packets, i) {
      var k :| 0 <= k < |packets| && packets[k].fragmentIndex == i;
      assert more[k].fragmentIndex == i;
    }
  }

  lemma OneMoreIsLatest(packets: seq<Packet>, p: Packet, i: u16, k: nat)
    requires IsLatest(packets + [p], i, k)
    ensures if i == p.fragmentIndex then k == |packets| else IsLatest(packets, i, k)
  {
    var more := packets + [p];
    assert more[|packets|] == p;
    assert forall j :: 0 <= j < |packets| ==> more[j] == packets[j];
  }

  lemma FilledHolds(b: FragmentBuffer, f: FragmentSet, packets: seq<Packet>, p: Packet)
    requires Holds(b, f, packets) && BelongsTo(p, f)
    ensures Holds(Filled(b, p), f, packets + [p])
  {
    hide IndexArrived, IsLatest;
    var filled, more := Filled(b, p), packets + [p];
    forall i: u16 ensures IndexArrived(more, i) <==> IndexArrived(packets, i) || i == p.fragmentIndex {
      OneMoreArrives(packets, p, i);
    }
    forall i: u16, k: nat | IsLatest(more, i, k)
      ensures k < |more|
      ensures i in filled.payloads && filled.payloads[i] == more[k].payload
      ensures i in filled.sequences && filled.sequences[i] == more[k].sequence
    {
      LatestArrived(more, i, k);
      OneMoreIsLatest(packets, p, i, k);
      LatestArrived(packets, i, k);
      assert if k == |packets| then more[k] == p else more[k] == packets[k];
    }
  }

  lemma LatestArrived(packets: seq<Packet>, i: u16, k: nat)
    ensures IsLatest(packets, i, k) ==> IndexArrived(packets, i) && k < |packets|
  {
  }

  lemma HeldIsComplete(b: FragmentBuffer, f: FragmentSet, packets: seq<Packet>)
    requires Holds(b, f, packets)
    ensures IsComplete(b) <==> IsFull(packets, f)
  {
    hide IndexArrived, IsLatest;
    if IsFull(packets, f) {
      AllIndexes(b.payloads.Keys, b.fragmentCount);
      assert |b.payloads.Keys| == |b.payloads|;
    }
  }

  // ---- Before and at the end of a set

  function SetKey(f: FragmentSet): FragmentKey {
    (f.channelId, f.id)
  }

  /** Where the fragments of a set are kept until it is full. */
  ghost predicate Waits(after: map<FragmentKey, FragmentBuffer>, fragments: map<FragmentKey, FragmentBuffer>,
                        f: FragmentSet, packets: seq<Packet>) {
    && after - {SetKey(f)} == fragments
    && if packets == [] then SetKey(f) !in after else SetKey(f) in after && Holds(after[SetKey(f)], f, packets)
  }

  lemma FragmentIsFiled(before: map<FragmentKey, FragmentBuffer>, fragments: map<FragmentKey, FragmentBuffer>,
                        f: FragmentSet, packets: seq<Packet>, p: Packet)
    requires SetKey(f) !in fragments && Waits(before, fragments, f, packets) && BelongsTo(p, f)
    ensures Fits(before, p) && Holds(Filled(BufferFor(before, p), p), f, packets + [p])
    ensures var filled := Filled(BufferFor(before, p), p);
      Reassemble(before, p) == if IsFull(packets + [p], f) then (fragments, Ok(Some(Completed(filled))))
                               else (before[SetKey(f) := filled], Ok(None))
  {
    hide Holds, IsFull, Filled, IsComplete, Completed;
    EmptyHolds(f);
    var b := BufferFor(before, p);
    assert Holds(b, f, packets);
    HoldsOfSet(b, f, packets);
    FilledHolds(b, f, packets, p);
    HeldIsComplete(Filled(b, p), f, packets + [p]);
    CompleteHasCount(Filled(b, p));
  }

  lemma HoldsOfSet(b: FragmentBuffer, f: FragmentSet, packets: seq<Packet>)
    requires Holds(b, f, packets)
    ensures b.ordered == f.ordered && b.fragmentCount == f.count
  {
  }

  lemma CompleteHasCount(b: FragmentBuffer)
    ensures IsComplete(b) ==> AllPresent(b)
  {
  }

  lemma FullStaysFull(packets: seq<Packet>, f: FragmentSet, n: nat)
    requires n <= |packets| && IsFull(packets[..n], f)
    ensures IsFull(packets, f)
  {
    forall i: u16 | i < f.count ensures IndexArrived(packets, i) {
      assert IndexArrived(packets[..n], i);
      var k :| 0 <= k < n && packets[..n][k].fragmentIndex == i;
      assert packets[k].fragmentIndex == i;
    }
  }

  /** Until every index has arrived nothing is handed over, and the set's buffer holds the latest fragment of each index
      that has. */
  lemma {:induction false} IncompleteSetWaits(fragments: map<FragmentKey, FragmentBuffer>, f: FragmentSet,
                                              packets: seq<Packet>)
    requires SetKey(f) !in fragments && AllBelong(packets, f) && !IsFull(packets, f)
    ensures var (after, outcomes) := Feed(fragments, packets);
      && Waits(after, fragments, f, packets)
      && |outcomes| == |packets| && forall k :: 0 <= k < |outcomes| ==> outcomes[k] == Ok(None)
  {
    hide Reassemble, IsFull, Holds, Completed, Filled;
    if packets == [] {
      assert fragments - {SetKey(f)} == fragments;
    } else {
      var n := |packets| - 1;
      if IsFull(packets[..n], f) { FullStaysFull(packets, f, n); }
      IncompleteSetWaits(fragments, f, packets[..n]);
      var before := Feed(fragments, packets[..n]).0;
      assert packets == packets[..n] + [packets[n]];
      FragmentIsFiled(before, fragments, f, packets[..n], packets[n]);
      UpdateThenRemove(before, SetKey(f), Filled(BufferFor(before, packets[n]), packets[n]));
    }
  }

  /** The payloads of chosen packets. */
  function PayloadsAt(packets: seq<Packet>, places: seq<nat>): seq<Bytes>
    requires forall i :: 0 <= i < |places| ==> places[i] < |packets|
  {
    seq(|places|, i requires 0 <= i < |places| => packets[places[i]].payload)
  }

  /** The message is put together from the packets at these places, index by index, and its range is theirs. */
  ghost predicate IsPutTogether(r: Ready, f: FragmentSet, packets: seq<Packet>, places: seq<nat>) {
    && (forall i :: 0 <= i < |places| ==> places[i] < |packets|)
    && r.frame.channelId == f.channelId && r.ordered == f.ordered
    && r.frame.payload == Concat(PayloadsAt(packets, places))
    && (forall i :: 0 <= i < |places| ==> r.frame.sequence <= packets[places[i]].sequence < r.next)
    && (exists i :: 0 <= i < |places| && packets[places[i]].sequence == r.frame.sequence)
    && (exists i :: 0 <= i < |places| && packets[places[i]].sequence + 1 == r.next)
  }

  /** places are where the latest fragment of each index of the set arrived. */
  ghost predicate AreLatest(packets: seq<Packet>, f: FragmentSet, places: seq<nat>) {
    && |places| == f.count
    && forall i: u16 :: i < f.count ==> places[i] < |packets| && IsLatest(packets, i, places[i])
  }

  lemma LatestFill(packets: seq<Packet>, f: FragmentSet, places: seq<nat>)
    requires AreLatest(packets, f, places)
    ensures IsFull(packets, f)
  {
    forall i: u16 | i < f.count ensures IndexArrived(packets, i) { LatestArrived(packets, i, places[i]); }
  }

  /** With the last missing index the set is handed over, put together from the latest fragment of each index, and its
      buffer is gone. */
  lemma CompleteSetIsHandedOver(fragments: map<FragmentKey, FragmentBuffer>, f: FragmentSet, packets: seq<Packet>,
                                places: seq<nat>)
    requires SetKey(f) !in fragments && packets != [] && AllBelong(packets, f)
    requires !IsFull(packets[..|packets| - 1], f) && AreLatest(packets, f, places)
    ensures var (after, outcomes) := Feed(fragments, packets);
      && after == fragments && |outcomes| == |packets|
      && (forall k :: 0 <= k < |packets| - 1 ==> outcomes[k] == Ok(None))
      && outcomes[|packets| - 1].Ok? && outcomes[|packets| - 1].value.Some?
      && IsPutTogether(outcomes[|packets| - 1].value.value, f, packets, places)
  {
    hide Reassemble, IsFull, Holds, Completed, Filled, AreLatest, IsPutTogether;
    var n := |packets| - 1;
    IncompleteSetWaits(fragments, f, packets[..n]);
    var before := Feed(fragments, packets[..n]).0;
    assert packets == packets[..n] + [packets[n]];
    LatestFill(packets, f, places);
    FragmentIsFiled(before, fragments, f, packets[..n], packets[n]);
    var filled := Filled(BufferFor(before, packets[n]), packets[n]);
    HeldIsComplete(filled, f, packets);
    assert BelongsTo(packets[0], f);
    LatestAreHeld(filled, f, packets, places);
    CompletedIsPutTogether(filled, f, packets, places);
  }

  /** The buffer holds the packets at these places, index by index. */
  ghost predicate HoldsPlaces(b: FragmentBuffer, f: FragmentSet, packets: seq<Packet>, places: seq<nat>) {
    && b.channelId == f.channelId && b.ordered == f.ordered && b.fragmentCount == f.count == |places|
    && (forall i :: 0 <= i < |places| ==> places[i] < |packets|)
    && (forall i: u16 :: i < f.count ==> i in b.payloads && b.payloads[i] == packets[places[i]].payload)
    && (forall i: u16 :: i < f.count ==> i in b.sequences && b.sequences[i] == packets[places[i]].sequence)
  }

  lemma LatestAreHeld(b: FragmentBuffer, f: FragmentSet, packets: seq<Packet>, places: seq<nat>)
    requires Holds(b, f, packets) && AreLatest(packets, f, places)
    ensures HoldsPlaces(b, f, packets, places)
  {
    hide IsLatest, IndexArrived;
    forall i: u16 | i < f.count ensures IndexArrived(packets, i) && places[i] < |packets| {
      LatestArrived(packets, i, places[i]);
    }
    forall i | 0 <= i < |places| ensures places[i] < |packets| {
      var index: u16 := i;
      assert places[index] < |packets|;
    }
  }

  lemma CompletedIsPutTogether(b: FragmentBuffer, f: FragmentSet, packets: seq<Packet>, places: seq<nat>)
    requires HoldsPlaces(b, f, packets, places) && f.count > 0
    ensures AllPresent(b) && IsPutTogether(Completed(b), f, packets, places)
  {
    hide Assemble, LeastSequence, GreatestSequence;
    LatestJoin(b.payloads, packets, places, f.count);
    assert PayloadsAt(packets, places)[..f.count] == PayloadsAt(packets, places);
    RangeIsTheirs(b, f, packets, places);
    hide PayloadsAt, Concat;
  }

  lemma RangeIsTheirs(b: FragmentBuffer, f: FragmentSet, packets: seq<Packet>, places: seq<nat>)
    requires HoldsPlaces(b, f, packets, places) && f.count > 0
    ensures AllPresent(b)
    ensures var least, greatest := LeastSequence(b.sequences, f.count), GreatestSequence(b.sequences, f.count);
      && (forall i :: 0 <= i < |places| ==> least <= packets[places[i]].sequence <= greatest)
      && (exists i :: 0 <= i < |places| && packets[places[i]].sequence == least)
      && (exists i :: 0 <= i < |places| && packets[places[i]].sequence == greatest)
  {
    hide LeastSequence, GreatestSequence;
    LeastIsLeast(b.sequences, f.count);
    GreatestIsGreatest(b.sequences, f.count);
    var i: u16 :| i < f.count && b.sequences[i] == LeastSequence(b.sequences, f.count);
    var j: u16 :| j < f.count && b.sequences[j] == GreatestSequence(b.sequences, f.count);
    assert packets[places[i]].sequence == b.sequences[i] && packets[places[j]].sequence == b.sequences[j];
    forall k | 0 <= k < |places|
      ensures LeastSequence(b.sequences, f.count) <= packets[places[k]].sequence
      ensures packets[places[k]].sequence <= GreatestSequence(b.sequences, f.count)
    {
      var index: u16 := k;
      assert b.sequences[index] == packets[places[index]].sequence;
    }
  }

  lemma {:induction false} LatestJoin(payloads: map<u16, Bytes>, packets: seq<Packet>, places: seq<nat>, n: u16)
    requires n <= |places| && HasIndexes(payloads, n)
    requires forall i :: 0 <= i < |places| ==> places[i] < |packets|
    requires forall i: u16 :: i < n ==> payloads[i] == packets[places[i]].payload
    ensures Assemble(payloads, n) == Concat(PayloadsAt(packets, places)[..n])
  {
    if n > 0 {
      LatestJoin(payloads, packets, places, n - 1);
      ConcatExtends(PayloadsAt(packets, places), n - 1);
      var last: u16 := n - 1;
      assert payloads[last] == packets[places[last]].payload;
    }
  }
}
