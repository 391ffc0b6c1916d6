# CultNet: a verified model

A Dafny 4.11 project that models the protocol core of the `cultnet-rs` library and proves what it promises.
`dafny verify dfyconfig.toml` checks all of it.

The main subject is the reliable-UDP session, a state machine without I/O: it numbers packets, acknowledges through a
window of the highest number and the 32 below it, keeps unacknowledged reliable packets for resending until they expire,
suppresses duplicates, fragments and reassembles, delivers in order per channel, and has a latest-wins mode. Beside it
stand its binary packet codec, the length-prefixed stream framer, the canonical JSON printer behind schema hashes, the
read-only snapshot exchange, and the mappings of raw and legacy messages to MessagePack values.

How the files fit together:

- `Prelude`, `Packets`, `BigEndian`, `Utf8`, `Text`: shared types and encodings.
- `AckWindow`, `Receiver`, `Protocol`: the session as values and functions, one function per operation, and one step
  relation (`Protocol.Step`) over all operations. These functions are the specification.
- `Session`: the session as the class it is, with its counters, maps and sets as fields. Every method is proved to
  compute what the specification says, loops included.
- `Histories`: runs of one session over arbitrary operations, arbitrary packets and arbitrary clock readings, with the
  log of released frames since the last reset and the books of every number ever tracked.
- `HostileReceiver`, `DeliveryOrder`, `ReceiverRuns`: what holds for arbitrary packets.
- `SenderRuns`: the ledger, the bounded queue, all-or-nothing sends and the resend schedule.
- `Timing`: over the same runs, told from the operations and their times alone: when exactly a packet is sent again, when
  exactly it expires, when exactly a silent peer is given up, and what connects and disconnects a session.
- `Sending`: when exactly a send, a dial and its answer succeed, with the error otherwise, and what the packets carry.
- `Reassembly`, `FragmentSets`: fragmentation undone, and what becomes of any fragments of one set.
- `OrderedRefinement`, `CursorGuess`: ordered delivery as a refinement of "the longest complete prefix", including exactly
  when a guessed cursor is right.
- `TwoEndpoints`, `PeerMessages`: two sessions joined by a network that may drop, duplicate, delay and reorder: a packet
  can be delivered at any time after it was put on the wire, any number of times or never; and what a receiver buffers,
  holds and hands over of its peer's messages.
- `Provenance`: in the same runs, which operation made each packet on the wire, and what taking it reports.
- `SystemDelivery`, `EndToEnd`: in the same runs, what became of every message sent, in each mode: the exact condition
  under which it was handed over, held behind a gap, overtaken or passed by, and where each ordered channel began.
- `SharedKeys`: exactly when fragment ids that repeat spoil delivery.
- `Clearing`: in the two-endpoint runs, exactly when a packet the peer's window has moved past can still be cleared.
- `PacketCodec`, `Framer`, `CanonicalJson`, `Messages`, `Snapshot`, `Base64Url`, `Contracts`, `WireForms`: the
  other cores.
- `SnapshotFaults`: which fault a refused query, request or response is refused for.
- `WireNames`, `WireReads`: the two message mappings spelled out: which messages are valid, what stands on the wire under
  which name, and which values parse to what.

Round trips hold for any consistent choice of bytes, names and orders. So every format is also pinned down byte by byte
or name by name, in predicates that use numbers and texts only: `PacketCodec.IsWireOf`, `Framing.IsFrameOf`,
`Text.ComesBefore`, `WireNames.IsPayloadOf`, `WireReads.IsDocument` and their like.

Where a property is false of the code as it stands, the code was kept, the failing input given and the exact condition
proved:

- Ordered delivery from a guessed cursor can lose for good a message that arrived completely:
  `CursorGuess.GuessedCursorIsRightExactlyWhenSafe` says when, for histories with any other traffic, and
  `CursorGuess.PingLosesMessage` is the shortest such history.
- A packet can be lost silently when sessions start at number 0, because an acknowledgement sent before anything was
  received names 0: `TwoEndpoints.SilentLossExactlyFromZero`.
- Fragment ids repeat after 65535 fragmented sends, and then a message can be lost or made up:
  `SharedKeys.FaithfulExactlyWithDistinctKeys`.
- A packet the peer has received can stay pending until it expires, because acknowledgements reach only 32 numbers back:
  `Clearing.ReceivedYetNeverCleared` is such a run, and `Clearing.ClearableExactlyByOldPackets` says exactly when a packet
  the window has moved past can still be cleared.
- An acknowledgement names only received numbers exactly when something was received:
  `AckWindow.AckIsSoundOnceSomethingArrived`.
- The codec accepts channel ids of 220 to 255 bytes when encoding and rejects them when decoding, although the encoder's
  own error message allows 255: `PacketCodec.DecodeUndoesEncode`.

## Model

| member | source | states |
|---|---|---|
| `OrderedRefinement.OrderedDeliveryReleasesPrefix` | src/rudp.rs:346-815 | From a cursor at the first of any messages sent in order under contiguous sequences, fragmented or whole, after every arrival history (reordered, duplicated, lost, mixed with other traffic) the channel has released exactly the longest prefix of messages whose packets have all arrived, each once, in order, byte for byte. |
| `OrderedRefinement.PrefixIsLongest` | src/rudp.rs:777-815 | The prefix of that specification is the longest one: every message before its end is complete, the one at its end is not. |
| `CursorGuess.GuessedCursorIsRightExactlyWhenSafe` | src/rudp.rs:354-357 | On a channel without a cursor, where the first delivery guesses it from the highest sequence seen, the same refinement holds for all arrival histories, other traffic included, if and only if: there are no messages; or one that is fragmented, or whole and not ahead of the expected number (with nothing seen yet: numbered at most 1); or the highest number seen is the one before the first message, nothing is fragmented, and no number is left beyond the last message. Otherwise there is a history after which the first message has arrived completely and is never released, whatever arrives later. |
| `CursorGuess.OwnPacketsAreRightExactlyWhenSafe` | src/rudp.rs:354-357 | The same for histories of nothing but the messages' own packets and repeats of numbers received before: there the exact condition is weaker, since no other packet can raise the highest number seen. |
| `CursorGuess.PingLosesMessage` | src/rudp.rs:354-357 | The concrete loss: after number 4, a ping numbered 7 and message 6 arrive before message 5; the guess was safe until the ping, and message 5 is never released, whatever arrives later. |
| `CursorGuess.SafeGuessSuffices` | src/rudp.rs:758-770 | The sufficient half for one history, with or without other traffic: the receiver that guesses behaves as one whose cursor was set at the first message. |
| `CursorGuess.OvertakenMessageIsLost` | src/rudp.rs:758-775 | If a later message completes first and something is fragmented or the highest number does not fit, the first message, although it arrived completely, is lost for good: after every continuation of that history with any traffic no ordered frame of the channel carries its number, and with own packets only no frame at all. |
| `CursorGuess.MessagePastGapIsHeld` | src/rudp.rs:777-786 | A whole message ahead of the number expected after the highest one seen is lost in the same sense: the cursor stays short of it under every continuation, so a number used by a control packet stalls the channel. |
| `CursorGuess.BlockedThroughout` | src/rudp.rs:751-815 | The invariant behind both: once the cursor is short of the first message, or that message is complete and not held, no further traffic changes this or releases it. |
| `OrderedRefinement.OwnPacketIsTracked` | src/rudp.rs:433-486 | One packet of the messages, new or repeated: the frames released are exactly those by which the complete prefix grows, and cursor, reorder buffer and fragment buffers are again determined by what has arrived. |
| `OrderedRefinement.ForeignPacketIsTracked` | src/rudp.rs:346-486 | A packet of other messages, other channels or of control type changes neither what the channel holds nor what it releases. |
| `OrderedRefinement.DrainReleasesPrefix` | src/rudp.rs:794-815 | Draining a reorder buffer that holds every complete later message releases them up to the first gap and leaves exactly those behind it. |
| `OrderedRefinement.PartArrives` | src/rudp.rs:673-749 | A new part of one of several messages with separate numbers and buffers is reassembled to nothing before the last part and to the whole message with it, and leaves the buffers of all others as they were. |
| `PeerMessages.ConsecutiveSendsAreInSequence` | src/rudp.rs:282-344 | Ordered messages sent one after the other on a channel, with different ids where fragmented, have the form ordered delivery is proved complete for. |
| `EndToEnd.AcknowledgedMeansDeliveredOnce` | src/rudp.rs:282-344 | In every run of two sessions over a network that drops, duplicates and reorders, once all packets of an unordered, unsequenced message have left the pending table by acknowledgement, the peer has handed the message over exactly once with its original bytes, fragmented or not. The sender must start above number 0, and, as in the following rows, no two of its fragmented messages may share channel and id. |
| `EndToEnd.RunKeysAreDistinct` | src/rudp.rs:817-824 | When that is so: in every run no two fragmented messages of a channel share an id if and only if no channel has two of which the earlier one already got the last id; up to 65535 fragmented sends it is always so. |
| `EndToEnd.EveryFrameWasSent` | src/rudp.rs:346-486 | In the same runs every frame an endpoint hands over, in any mode, is a message the peer sent on that channel, with the sent payload and first sequence, in the mode it was sent in. |
| `PeerMessages.IdsAreDistinctUpToSaturation` | src/rudp.rs:817-824 | The fragment ids handed out are pairwise distinct if and only if at most 65535 messages were fragmented. |
| `SharedKeys.FaithfulExactlyWithDistinctKeys` | src/rudp.rs:705-749 | For any messages of a peer and a new receiver: after every arrival history of their packets and the peer's control packets, everything released is a message sent and every message that arrived completely is accounted for (a plain one released), if and only if no two fragmented messages of one channel share a fragment id. |
| `SharedKeys.DisplacedMessageIsLost` | src/rudp.rs:705-722 | The failing half for two messages of one key that differ in ordering or number of fragments: one packet of the first, then all of the second, and the second is rejected packet by packet, complete and unaccounted for. |
| `SharedKeys.MixtureIsReleased` | src/rudp.rs:705-749 | The failing half for two messages of one key and shape, of any number of fragments: the first packet of the later one, then the others of the earlier one, and a frame is released under a number no message starts at. |
| `PeerMessages.IntakeKeepsFiled` | src/rudp.rs:346-749 | Any packet the peer ever put on the wire keeps the receiver's books: its buffers hold exactly what arrived of the peer's messages, and everything it holds or released is one of them. |
| `PeerMessages.ActingKeepsCatalogued` | src/rudp.rs:282-344 | Every operation keeps the wire partitioned into the parts of the messages sent, in increasing separate ranges, and control packets numbered outside them. |
| `EndToEnd.EveryMessageIsAccountedFor` | src/rudp.rs:346-815 | At every moment of every run of two sessions over a lossy network, every message sent has met its exact fate. A plain one was handed over if and only if all its packets arrived; a latest-wins one only if they did, and if it was not although they did, a newer one of its channel was. An ordered one that arrived completely was handed over if and only if it starts between the place where its channel began and the cursor, is held if and only if it starts beyond the cursor, and never starts at it; nothing incomplete is held or handed over. |
| `EndToEnd.OrderedReleasesAreABlock` | src/rudp.rs:751-815 | In the same runs, what an ordered channel has handed over is one block of consecutive messages of the peer in the order sent, each starting where the one before ended, none skipped or repeated; it ends at the cursor, and the message that would continue it has not arrived completely. |
| `EndToEnd.OrderedChannelReleasesPrefix` | src/rudp.rs:751-815 | In the same runs, of ordered messages sent under contiguous numbers from where the channel began, exactly the longest prefix of messages that arrived completely has been handed over, byte for byte. |
| `EndToEnd.AcknowledgedSequenceIsDelivered` | src/rudp.rs:282-344 | Once all packets of such a sequence have left the pending table of a sender that started above 0 by acknowledgement, the peer's ordered frames of the channel begin with its messages in the order sent, byte for byte, and each was handed over once and no more. |
| `EndToEnd.WhereAChannelBegins` | src/rudp.rs:354-357 | In the same runs, an ordered channel with a cursor began at one turn, in which a packet completed an ordered message while the channel had none: at that message, or at the number after the highest one received until then if that is lower. Nothing moved it since. |
| `EndToEnd.BeginsAtTheFirstMessage` | src/rudp.rs:758-770 | Hence a channel began at the first ordered message sent on it if and only if that message completed first while nothing, or a number not below the one before it, had been received; or the highest number received until then was the one before it. |
| `SystemDelivery.IntakeKeepsSettled` | src/rudp.rs:433-486 | Any packet the peer ever put on the wire leaves every message settled: the complete ones handed over, held, overtaken or behind the cursor, the others untouched. |
| `SystemDelivery.IntakeKeepsAhead` | src/rudp.rs:777-815 | Such a packet leaves every buffered frame strictly ahead of its channel's cursor. |
| `DeliveryOrder.DeliveryMoves` | src/rudp.rs:751-815 | Ordered delivery never moves a cursor back, drops from the buffer only what is behind the new cursor, keeps or releases the frame at hand unless it is behind, and releases only that frame and buffered ones. |
| `DeliveryOrder.IntakeKeepsStart` | src/rudp.rs:751-792 | Whatever packet below the maximum number arrives, the place where an ordered channel began never changes. |
| `SystemDelivery.DrainStaysBehind` | src/rudp.rs:794-815 | Draining steps over no buffered message of the peer: whatever stays buffered is ahead of the new cursor. |
| `TwoEndpoints.NoSilentLoss` | src/rudp.rs:536-671 | In every run of two sessions without a reset, every reliable number tracked by a side that started above 0 is pending, counted as expired, or in the peer's received set, and these are disjoint on the sender's side. |
| `TwoEndpoints.RunGoesOn` | src/rudp.rs:162-547 | Runs of the system never get stuck: at any moment either side can take any operation other than a reset that does not run out of numbers, with any packet the peer has put on the wire so far, again or for the first time. |
| `TwoEndpoints.EveryAcknowledgementIsTrue` | src/rudp.rs:584-604 | Every packet on the wire, however stale, acknowledges only numbers its creator has received (or 0), and each endpoint has received only what the peer put on the wire. |
| `TwoEndpoints.SilentLossExactlyFromZero` | src/rudp.rs:643-671 | For any two sessions' options, no run loses silently what one side sends if and only if that side starts above 0, or nothing it sends can ever be acknowledged: its pending limit is 0, the connection ids differ, or the peer has no number to send a packet under. |
| `TwoEndpoints.ConnectIsLost` | src/rudp.rs:584-671 | The run that shows it in every other case: a connect packet numbered 0 is cleared by an acknowledgement of a peer that has received nothing. |
| `Clearing.NothingNewAcknowledges` | src/rudp.rs:662-671 | In every run, once the highest number a side received exceeds q + 32, every packet of that side found on the wire later and acknowledging q was on the wire already at that moment. |
| `Clearing.PastTheWindow` | src/rudp.rs:643-671 | In every run, a pending packet q the peer's window has moved past is from then on pending, expired, or was cleared at a turn that took a packet on the wire at that moment. |
| `Clearing.ClearableExactlyByOldPackets` | src/rudp.rs:643-671 | From any moment at which q is pending and out of the peer's reach, some continuation of the run clears q if and only if a packet acknowledging q is on the wire and could be taken at once. |
| `Clearing.ReceivedYetNeverCleared` | src/rudp.rs:652-671 | For any two sessions on one connection with room for 34 pending packets: a run in which the peer has received the first packet of a message and yet no continuation clears it, so it is resent until it expires. |
| `TwoEndpoints.EmittedAreFresh` | src/rudp.rs:572-605 | Every operation numbers the packets it creates consecutively from the counter, and stamps each with the acknowledgement state of the receiving half at that moment. |
| `TwoEndpoints.ActingKeepsHonest` | src/rudp.rs:536-671 | One operation of one endpoint keeps its numbers unique, its acknowledgements true, its pending packets on the wire and its ledger balanced. |
| `Provenance.EveryPacketWasMade` | src/rudp.rs:203-520 | In every run of two sessions, every packet on the wire was made at some turn by the one kind of operation that makes its kind, with its channel, flags and payload: connects by dials, accepts by answers to a connect packet, data by sends, acks and pings by their calls, pongs by taking a ping of the same payload, disconnects by hanging up with that reason. |
| `Provenance.EveryPongAnswersAPing` | src/rudp.rs:372-389 | In every run, every pong on the wire was made in a turn that took a ping the peer had made before, and carries the payload that ping was made with. |
| `Provenance.PongReportsThePing` | src/rudp.rs:391-407 | In every run, taking a pong reports a pong with the payload of a ping this side made before, and nothing else. |
| `Provenance.DisconnectReportsTheReason` | src/rudp.rs:409-420 | In every run, taking a disconnect packet reports the reason of a hang-up of the peer, and nothing else. |
| `Provenance.ControlReports` | src/rudp.rs:359-431 | What taking each kind of packet without data reports: accepts, acks and connects nothing, pings a numbered pong of their payload as reply, pongs and disconnects their payload. |
| `Provenance.DataReports` | src/rudp.rs:433-486 | What taking a data packet reports: the frames released, in order, or the reassembly error, and nothing else. |
| `Provenance.EmittedAreCounted` | src/rudp.rs:203-520 | How many packets each operation makes; resends, probes and resets make none anew. |
| `Provenance.ControlIsControl` | src/rudp.rs:492 | Control packets go to the channel named control. |
| `ReceiverRuns.AtMostOnce` | src/rudp.rs:433-749 | Over any run with arbitrary packets numbered below the 32-bit maximum, between resets, no two frames released on any channels share a sequence number. |
| `ReceiverRuns.OrderedFramesFormAChain` | src/rudp.rs:751-815 | For arbitrary packets numbered below the maximum, every ordered frame released on a channel starts exactly where the previous one's range ended, and the cursor stands at the end of the last. |
| `ReceiverRuns.NothingWaitsAtTheCursor` | src/rudp.rs:794-815 | In every reachable state no channel buffers a frame at its cursor. |
| `ReceiverRuns.LatestNeverGoesBack` | src/rudp.rs:453-472 | Frames released in latest-wins mode on a channel have strictly increasing sequences, for any packets numbered below the maximum between resets. |
| `ReceiverRuns.FullBuffersAreComplete` | src/rudp.rs:725-738 | In every reachable state a fragment buffer with as many payloads as it needs has every index: the missing-index exits are never taken. |
| `ReceiverRuns.StepOnReceiver` | src/rudp.rs:226-268 | Only an accepted handshake, a packet of the connection and a reset touch the receiving half, and how. |
| `HostileReceiver.IntakeKeepsUsedOnce` | src/rudp.rs:433-486 | Whatever packet numbered below the maximum arrives, each received number stays in at most one place among fragment buffers, reorder buffers and released frames. |
| `HostileReceiver.FullBufferHasEveryIndex` | src/rudp.rs:725-738 | The pigeonhole argument: as many distinct indexes below the fragment count as the count are all of them. |
| `HostileReceiver.IntakeIsShaped` | src/rudp.rs:346-486 | Any packet numbered below the maximum keeps the receiver well formed, so no sequence arithmetic overflows. |
| `HostileReceiver.RejectsExactly` | src/rudp.rs:677-714 | A fragment is rejected if and only if its id is 0, or its index is not below its count, or its count or ordering differs from that of the set it belongs to, in that order of errors; a rejected one changes no buffer. |
| `DeliveryOrder.DrainIsChain` | src/rudp.rs:794-815 | Draining releases a chain of ranges from the cursor to the new cursor, shrinks the buffer and leaves nothing at the cursor. |
| `DeliveryOrder.IntakeKeepsChains` | src/rudp.rs:751-815 | One packet numbered below the maximum extends every channel's chain of ordered frames or leaves it alone. |
| `DeliveryOrder.IntakeKeepsRises` | src/rudp.rs:453-472 | One packet numbered below the maximum keeps every latest-wins channel increasing up to its newest frame; this uses duplicate suppression and the uniqueness of reassembled numbers. |
| `Reassembly.ReassemblyUndoesFragmentation` | src/rudp.rs:296-328 | Feeding the packets of one fragmented send to reassembly in any order yields nothing before the last one and then one frame with the exact payload, the least sequence and the next one after the greatest, with every other buffer untouched. |
| `Reassembly.ShuffledPartsReassemble` | src/rudp.rs:705-749 | The same for the parts of any message in any order. |
| `Reassembly.SendsAMessage` | src/rudp.rs:282-344 | The packets of a successful send are exactly the parts of one message, whose chunks concatenate to the payload and whose numbers start at the counter. |
| `Reassembly.ChunksCover` | src/rudp.rs:305-309 | The first k fragments are the payload up to where the k-th ends. |
| `Reassembly.CompleteBufferYieldsMessage` | src/rudp.rs:729-748 | A buffer of all parts is assembled to the message's exact bytes, first number and following number. |
| `FragmentSets.CompleteSetIsHandedOver` | src/rudp.rs:705-749 | For any fragments of one set, whoever sent them, with indexes repeated and contents at odds: the set is handed over with its last missing index, put together index by index from the latest fragment of each, under the least of their numbers and up to the greatest, and its buffer is gone. |
| `FragmentSets.IncompleteSetWaits` | src/rudp.rs:715-728 | Before that nothing is handed over, the buffer holds under each index the latest fragment, and no other buffer changes. |
| `AckWindow.WindowIsExact` | src/rudp.rs:643-671 | The sequences cleared by the acknowledgement state of a non-empty received set are precisely the received ones within 32 of the highest. |
| `AckWindow.ClearsExactly` | src/rudp.rs:643-650 | What any acknowledgement clears, whoever sent it: its own number, and for each of the 32 binary digits of its mask that is 1 the number that far below, where there is one. |
| `AckWindow.AckStateBits` | src/rudp.rs:662-671 | Bit b of the mask is set if and only if b is below 32 and the number b + 1 below the highest one was received; the acknowledgement is the highest number, or 0. |
| `AckWindow.AckIsSoundOnceSomethingArrived` | src/rudp.rs:643-671 | An acknowledgement names only received numbers if and only if something has been received; before that it names exactly 0. |
| `SenderRuns.RunIsBalanced` | src/rudp.rs:607-650 | In every reachable state the numbers ever tracked split disjointly into pending, acknowledged, expired and abandoned by a reset, the expired counter is the size of the expired part, and every pending entry sits under its packet's number, below the counter. |
| `SenderRuns.StepMoves` | src/rudp.rs:607-650 | What every operation starts to track and settles: fresh numbers come in, pending ones go out to one book each, and a packet that stays pending keeps its content and deadline. |
| `SenderRuns.QueueIsBounded` | src/rudp.rs:621-631 | With a limit set, the pending table never exceeds it in any run. |
| `SenderRuns.SendIsAllOrNothing` | src/rudp.rs:282-344 | A send that fails consumed no sequence number and no fragment id and only purged; one that succeeds handed out consecutive fresh numbers and tracks every packet under its own if reliable. |
| `SenderRuns.PendingPacketsNeverChange` | src/rudp.rs:536-547 | While a number is pending its packet and deadline are those first tracked. |
| `SenderRuns.NoResendAfterTheDeadline` | src/rudp.rs:633-641 | No packet is resent after its deadline, in any run. |
| `SenderRuns.ResendsAreSpaced` | src/rudp.rs:536-547 | Two resends of one packet are at least the resend delay apart under a monotone clock, and with a positive delay under any clock. |
| `SenderRuns.NumbersOnlyGrow` | src/rudp.rs:584-588 | The sequence counter never goes back, not even over a reset. |
| `Timing.SentAgainExactlyWhenDue` | src/rudp.rs:536-547 | In every run, at any call for due resends, a pending packet is sent again if and only if the lifetime given with the operation that first sent it is not over and the operation that last sent it, first or again, was at least the resend delay ago (always, if the delay is 0). |
| `Timing.ExpiresExactlyPastItsLifetime` | src/rudp.rs:607-641 | In every run, a pending packet is counted as expired by an operation if and only if that operation looks for expired packets (a call for due resends, or a send while connected) at a time past the sum of the time and the lifetime of the operation that first sent it. So the first such operation past that time does it. |
| `Timing.ExpiredWasOutlived` | src/rudp.rs:633-641 | Whatever is counted as expired was pending when some operation looked for expired packets past its lifetime. |
| `Timing.NeverExpiresWithoutLifetime` | src/rudp.rs:608-610 | A number first sent without a lifetime, handshakes included, is never counted as expired. |
| `Timing.GivenUpExactlyAfterSilence` | src/rudp.rs:522-534 | In every run, a connected session has heard its peer since the last reset; a timeout probe disconnects it if and only if the last operation that heard the peer was more than the timeout before, and changes nothing else. |
| `Timing.ProbeOfUnconnectedIsIdle` | src/rudp.rs:522-525 | A timeout probe of a session that is not connected changes nothing. |
| `Timing.WhatConnects` | src/rudp.rs:346-420 | Which operations connect and disconnect a session, kind by kind, and that all others leave it as it is. |
| `Timing.PendingRemembers` | src/rudp.rs:607-619 | In every reachable state each entry of the pending table carries the deadline set by the operation that first sent the packet and the time of the operation that last sent it. |
| `Sending.SendSucceedsExactly` | src/rudp.rs:282-344 | A send succeeds if and only if the session is connected, the payload takes at most 65535 packets of the limit, and these fit the queue behind the unexpired ones, if reliable; it yields as few packets as the limit allows, and otherwise the error of the first condition that fails. |
| `Sending.ZeroLimitFails` | src/rudp.rs:289-299 | A limit of 0 fails every send, after the check for the connection. |
| `Sending.PacketsKeepTheLimit` | src/rudp.rs:296-343 | No packet of a successful send carries more than the limit, the payloads concatenate to the message, and a payload within the limit goes out whole and unfragmented. |
| `Sending.DialSucceedsExactly` | src/rudp.rs:203-224 | A dial succeeds if and only if the queue has room for one packet. |
| `Sending.AnswerSucceedsExactly` | src/rudp.rs:226-268 | A dial is answered if and only if it is a connect packet of the connection and, for the first one, the queue has room; otherwise the error of the first condition that fails. |
| `Sessions.Session.constructor` | src/rudp.rs:142-160 | A new session is the specified fresh state. |
| `Sessions.Session.ResetPeerState` | src/rudp.rs:174-184 | Forgets the peer's state and the pending table and keeps the counters. |
| `Sessions.Session.AssumeConnected` | src/rudp.rs:186-189 | Marks the session connected at a time and changes nothing else. |
| `Sessions.Session.AckStateNow` | src/rudp.rs:662-671 | The loop over the 32 mask bits computes the specified acknowledgement state. |
| `Sessions.Session.CreatePacketWithFragments` | src/rudp.rs:572-605 | Takes one sequence number and stamps the packet with the current acknowledgement state. |
| `Sessions.Session.CreatePacket` | src/rudp.rs:549-570 | The same without fragment fields. |
| `Sessions.Session.TrackReliable` | src/rudp.rs:607-619 | Enters one packet into the pending table with its saturating deadline; what that deadline means is `Timing.ExpiresExactlyPastItsLifetime`. |
| `Sessions.Session.EnsureReliableCapacity` | src/rudp.rs:621-631 | Answers whether the limit leaves room. |
| `Sessions.Session.PurgeExpiredReliable` | src/rudp.rs:633-641 | Removes exactly the expired entries and counts them. |
| `Sessions.Session.ApplyAcknowledgements` | src/rudp.rs:643-650 | The loop over the mask removes exactly the acknowledged set from the pending table. |
| `Sessions.Session.RememberReceived` | src/rudp.rs:652-660 | Adds a number to the received set and raises the highest. |
| `Sessions.Session.AllocateFragmentId` | src/rudp.rs:817-824 | Hands out the current id and advances it with saturation. |
| `Sessions.Session.CreateConnect` | src/rudp.rs:203-224 | The new state and result are those of the specification, error case included. |
| `Sessions.Session.AcceptConnect` | src/rudp.rs:226-268 | The same, for the three errors and for first and repeated connects. |
| `Sessions.Session.SendMany` | src/rudp.rs:282-344 | The new state and packets, or the error, are those of the specification. |
| `Sessions.Session.SendFragments` | src/rudp.rs:303-326 | The loop over fragments creates and tracks the specified packets. |
| `Sessions.Session.Send` | src/rudp.rs:270-280 | Send yields the single packet of an unfragmented send. |
| `Sessions.Session.Receive` | src/rudp.rs:346-486 | The new state and result are those of the specification, for every packet type and error; what is reported is spelled out in `Provenance.ControlReports` and `Provenance.DataReports`. |
| `Sessions.Session.ReceiveData` | src/rudp.rs:433-486 | The data branch: duplicate suppression, reassembly, latest-wins filter and ordered delivery as specified. |
| `Sessions.Session.Reassemble` | src/rudp.rs:673-749 | Reassembly with its errors, as specified. |
| `Sessions.JoinFragments` | src/rudp.rs:729-748 | The loop over fragment indexes assembles a buffer exactly when it is complete. |
| `Sessions.Extremes` | src/rudp.rs:744-747 | The least and greatest of the collected sequences. |
| `Sessions.Session.DeliverOrdered` | src/rudp.rs:751-792 | Ordered delivery as specified: drop, hold, or release and drain. |
| `Sessions.Session.DrainOrdered` | src/rudp.rs:794-815 | The loop releases what the recursive specification releases and leaves what it leaves. |
| `Sessions.Session.CreateAck` | src/rudp.rs:488-497 | An ack packet as specified. |
| `Sessions.Session.CreatePing` | src/rudp.rs:499-508 | A ping packet as specified. |
| `Sessions.Session.CreateDisconnect` | src/rudp.rs:510-520 | A disconnect packet as specified; the session is no longer connected. |
| `Sessions.Session.CheckTimeout` | src/rudp.rs:522-534 | Disconnects exactly when the specification says, and answers whether it did; that this is after more than the timeout of silence is `Timing.GivenUpExactlyAfterSilence`. |
| `Sessions.Session.DueResends` | src/rudp.rs:536-547 | Returns in increasing order exactly the unexpired packets that have waited the resend delay, each unchanged, and purges and touches the table as specified; which those are in terms of what was sent when is `Timing.SentAgainExactlyWhenDue`. |
| `Sessions.TouchDue` | src/rudp.rs:538-545 | The loop over the table: due entries are listed in key order and get the new send time, the rest is unchanged. Due means due in the sense of `Timing.SentAgainExactlyWhenDue`. |
| `PacketCodec.DecodeUndoesEncode` | src/rudp.rs:1271-1348 | Decoding an encoded packet gives it back exactly when the channel id has at most 219 bytes and the payload length fits 32 bits; ids of 220 to 255 bytes are always rejected for their truncated header length, longer payloads for their truncated length. |
| `PacketCodec.EncodeUndoesDecode` | src/rudp.rs:1301-1359 | Encoding a decoded wire gives it back if and only if the reserved flag bits are clear, the fragment flag agrees with the fragment count, and byte 35 is zero. |
| `PacketCodec.DecodeIsStable` | src/rudp.rs:1271-1348 | What the decoder accepts, it accepts again after re-encoding, as the same packet. |
| `PacketCodec.EncodeIsInjective` | src/rudp.rs:1271-1299 | Two packets within the limits never share an encoding. |
| `PacketCodec.EncodePacket` | src/rudp.rs:1271-1299 | Writing field after field into the buffer produces the wire form of the packet, byte by byte as in `PacketCodec.IsWireOf`, or the error exactly for ids over 255 bytes. |
| `PacketCodec.EncodesTheWireForm` | src/rudp.rs:1271-1299 | Bytes are the encoding of a packet if and only if they are its wire form: 43 4E 52 30, version 0, the type as 1 to 7, bits 0 to 3 for reliable, ordered, sequenced and fragmented, the header length, the numbers with the most significant byte first, the lengths, the channel id and the payload. |
| `PacketCodec.DecodesTheWireForm` | src/rudp.rs:1301-1348 | Which bytes decode, in the same numbers, and that the packet is the one whose fields they hold. |
| `PacketCodec.FirstDecodeError` | src/rudp.rs:1301-1345 | Which error a rejected wire is reported with: that of the first check it fails. |
| `PacketCodec.CopyInto` | src/rudp.rs:1279-1297 | Copying a field at an offset extends the written prefix by that field. |
| `PacketCodec.WireFields` | src/rudp.rs:1281-1297 | Where each field of an encoded packet is found; what the bytes are is `PacketCodec.EncodesTheWireForm`. |
| `PacketCodec.TypeRoundTrips` | src/rudp.rs:1361-1391 | The packet type codes and their reading undo each other. |
| `PacketCodec.FlagsRoundTrip` | src/rudp.rs:1350-1359 | The three delivery flags are read back from the flags byte. |
| `BigEndian.U32RoundTrips` | src/rudp.rs:1285-1341 | Big-endian 32-bit numbers and their four bytes undo each other. |
| `Utf8.StringsAreValid` | src/rudp.rs:1345 | The bytes of every string pass the decoder's UTF-8 check. |
| `Utf8.ValidExactlyForStrings` | src/rudp.rs:1345 | Bytes pass the check if and only if they are the bytes of some string. |
| `Utf8.BytesKeepOrder` | src/schema_discovery.rs:172 | The order of strings by their UTF-8 bytes is their order by code points. |
| `Framing.LengthPrefixedMessageFramer.Push` | src/framing.rs:27-48 | One push returns the frames a one-shot parse of buffer and chunk returns, and leaves its remainder. |
| `Framing.EncodeFrame` | src/framing.rs:6-15 | Builds the length prefix and payload, or fails for payloads over 32 bits. |
| `Framing.EncodedIsFrame` | src/framing.rs:6-15 | A frame is four bytes of length, the most significant first, and the payload. |
| `Framing.ChunkingDoesNotMatter` | src/framing.rs:27-48 | For every stream and every split into chunks, the frames of successive pushes and the buffer left are those of one parse of the whole stream. |
| `Framing.EverySplitIsTheSame` | src/framing.rs:27-48 | Two splits of one stream return the same frames and buffer. |
| `Framing.RemainderIsIncomplete` | src/framing.rs:31-42 | The remainder never holds a complete frame. |
| `Framing.EncodedFramesArrive` | src/framing.rs:6-48 | Concatenated encoded frames, pushed in any pieces, yield exactly their payloads and an empty buffer. |
| `Framing.ParseUndoesEncode` | src/framing.rs:6-48 | The same for one parse, with any incomplete tail left over. |
| `Framing.EncodeUndoesParse` | src/framing.rs:27-48 | No byte is lost or made up: a stream is the encoding of its parsed frames followed by the remainder. |
| `CanonicalJson.CanonicalTextIsTheMeaning` | src/schema_discovery.rs:157-190 | Two parsed values have the same canonical text if and only if they mean the same, that is, differ at most in the order of object members, at any depth. |
| `CanonicalJson.ReorderedMembersPrintAlike` | src/schema_discovery.rs:151-190 | Reordering the members of an object does not change its text. |
| `CanonicalJson.PrintIsPlainOfNorm` | src/schema_discovery.rs:170-188 | Printing sorts members by key at every depth and is otherwise plain printing; the order is that of `Text.SortIsLexicographic`. |
| `CanonicalJson.MembersAreWrittenInOrder` | src/schema_discovery.rs:170-182 | The text of an object is its members, each once, with their keys quoted and in lexicographic order of code points, each value in its own canonical text. |
| `CanonicalJson.EscapesAreStandard` | src/schema_discovery.rs:162 | Which characters of a string are escaped, and as what, character by character. |
| `CanonicalJson.SmallTexts` | src/schema_discovery.rs:157-190 | The very texts of null, true, false, numbers, strings, and of arrays and objects of none and one; with the laws on joining, of every value. |
| `CanonicalJson.EscapesJoin` | src/schema_discovery.rs:162 | Strings are escaped character by character; `CanonicalJson.OneCharacter` is the single one. |
| `CanonicalJson.CommasJoin` | src/schema_discovery.rs:166-183 | Longer lists are shorter ones joined by a comma. |
| `CanonicalJson.ValuesAreApart` | src/schema_discovery.rs:157-190 | A printed value can be read back whatever delimiter follows it: no text is the beginning of another's. |
| `CanonicalJson.EscapedStringsAreApart` | src/schema_discovery.rs:162 | Escaped strings can be read back: an escape ends where it ends, and only the closing quote closes. |
| `CanonicalJson.MeaningDeterminesNorm` | src/schema_discovery.rs:170-188 | Values with the same meaning have the same sorted form. |
| `Text.SortSorts` | src/schema_discovery.rs:172 | Sorting entries with distinct keys orders them by key and changes nothing else; which order that is says `Text.SortIsLexicographic`. |
| `Text.SortIsLexicographic` | src/schema_discovery.rs:172 | In the sorted entries, of any two keys the earlier one is the beginning of the later one or has the smaller code point where they first differ. |
| `Text.BlankIsWhitespace` | src/contracts.rs:548-553 | A text is blank if and only if it consists of the 25 white space characters listed. |
| `Text.IncreasingIsDetermined` | src/schema_discovery.rs:172 | Entries in increasing key order are determined by the map they represent. |
| `Snapshot.SnapshotRoundTrip` | src/snapshot_query.rs:64-298 | Against a source with distinct, registered records, the answer to a valid query is accepted if and only if every record that policy and schema-by-key cross product let through is expected with matching metadata; it is then exactly the source records in policy and expectations, unchanged and in source order. |
| `Snapshot.ServedExactlyWhenSound` | src/snapshot_query.rs:88-132 | A valid query is served if and only if every source record has its own identity and a registered schema. |
| `Snapshot.NewQueryExpectsTheRecords` | src/snapshot_query.rs:166-195 | A query is built exactly from an id and a non-empty list of distinct named records, and expects precisely those with their metadata. |
| `Snapshot.ServeReadOnlyRawSnapshot` | src/snapshot_query.rs:64-132 | The loop over the source selects what the specification selects, or reports the first error in its order. |
| `Snapshot.CreateQuery` | src/snapshot_query.rs:166-195 | The loop over the requested records builds the specified query or reports the first error. |
| `Snapshot.AcceptResponse` | src/snapshot_query.rs:220-287 | The loop over the response's records reports the first error or returns them all. |
| `Snapshot.RejectDuplicates` | src/snapshot_query.rs:320-332 | Reports the first blank or repeated name. |
| `Snapshot.ListIsFineWhenDistinct` | src/snapshot_query.rs:320-332 | No error is reported exactly when no name is blank and none is repeated. |
| `Snapshot.SelectionIsVisible` | src/snapshot_query.rs:88-125 | The records served are exactly the visible ones, each once. |
| `Snapshot.ResponseIsFineWhenExpected` | src/snapshot_query.rs:238-286 | Records with distinct identities are accepted exactly when each is expected with matching metadata. |
| `Snapshot.ReadOnlySnapshotPolicy.Allow` | src/snapshot_query.rs:40-51 | Adds one identity unless a part of it is blank. |
| `Snapshot.Ascending` | src/snapshot_query.rs:197-217 | The requested names are listed in increasing order without repetition, as a sorted set is; which order that is says `Snapshot.NamesAreListedInOrder`. |
| `Snapshot.NamesAreListedInOrder` | src/snapshot_query.rs:197-217 | Of any two names requested the earlier one is the beginning of the later one or has the smaller code point where they first differ. |
| `Snapshot.ServesExactly` | src/snapshot_query.rs:64-132 | Which requests are served, condition by condition, and that the answer holds exactly the source records in policy and request, in source order, under the id of the request. |
| `SnapshotFaults.QueryFaults` | src/snapshot_query.rs:166-195 | Why a query is not built: a blank id, no records, or the first record that is blank or asked for before, as that error. |
| `SnapshotFaults.ServeFaults` | src/snapshot_query.rs:64-132 | Why a request is not served: the first check that fails, in order, and within a list the first name or record at fault. |
| `SnapshotFaults.AcceptFaults` | src/snapshot_query.rs:220-287 | Why a response is not accepted: the first check that fails, and the first record at fault: repeated, unexpected, or with other metadata. |
| `Snapshot.AcceptsExactly` | src/snapshot_query.rs:220-287 | Which responses are accepted, condition by condition: the id of the query, no record twice, every record expected, and each expected piece of metadata present and the same. |
| `Contracts.MessagesReadBack` | src/contracts.rs:287-325 | Whatever either contract's public encoder accepts, validation included, parses back to the same message, up to an absent include-schema flag of a legacy catalog request becoming false. |
| `WireForms.EncodeUndoesParse` | src/contracts.rs:287-325 | The other direction: a value that parses under either contract is given back by encoding the parsed message, validation included, if and only if it has the form the encoder writes: exactly its fields in its order, null rather than absent, bytes rather than strings, and, in the legacy contract, which parses without validating, no empty credential, no blank text and no descriptor without contracts. |
| `WireForms.RawDocumentRewritten` | src/contracts.rs:668-774 | A parsed raw document is written back as it came if and only if it had all nine fields in order and its payload as bytes. |
| `WireForms.RawMessageRewritten` | src/contracts.rs:583-667 | The same for raw messages: the three fields of the put or of the snapshot in order, each document in form. |
| `WireForms.DescriptorRewritten` | src/contracts.rs:1031-1224 | A parsed descriptor is valid and written back as it came if and only if it had all eight fields in order, a list of contracts that is not empty, and no blank text. |
| `WireForms.LegacyMessageRewritten` | src/contracts.rs:776-950 | A parsed legacy message is valid and written back as it came if and only if its payload had the message's own number of fields, credentials as bytes that are not empty, and no blank text. |
| `Contracts.RawMessagesReadBack` | src/contracts.rs:583-774 | Parsing undoes encoding for every raw replication message. |
| `Contracts.RawDocumentReadsBack` | src/contracts.rs:668-774 | Every raw document record is read back with its bytes, optional metadata and tags. |
| `Contracts.LegacyMessagesReadBack` | src/contracts.rs:776-950 | Parsing undoes encoding for every legacy message the encoder accepts, up to the same flag. |
| `Contracts.LegacyContractCarries` | src/contracts.rs:854-950 | The legacy encoder accepts exactly the messages of its contract whose credentials are canonical, non-blank base64url. |
| `Contracts.DescriptorReadsBack` | src/contracts.rs:1031-1224 | Every schema descriptor is read back from its legacy map. |
| `Contracts.BytesReadBack` | src/contracts.rs:952-957 | Text that is accepted as base64url is read back as the same text. |
| `WireNames.ValidatesExactly` | src/contracts.rs:347-569 | A message passes validation if and only if none of its texts is blank, no payload is empty and no descriptor lacks contracts, field by field. |
| `WireNames.EncodesExactly` | src/contracts.rs:309-325 | Which messages each contract carries: valid ones of its own kinds, and for the legacy contract those whose credentials are canonical base64url. |
| `WireNames.RawPutOnTheWire` | src/contracts.rs:624-640 | What stands under each name of a raw put. |
| `WireNames.RawSnapshotOnTheWire` | src/contracts.rs:641-660 | What stands under each name of a raw snapshot response. |
| `WireNames.LegacyOnTheWire` | src/contracts.rs:854-950 | A legacy message on the wire: its tag from 0 to 8, and its fields in their places, credentials as the bytes whose base64url text they are. |
| `WireNames.NamesOnTheWire` | src/contracts.rs:1001-1119 | The names of schema kinds and contracts. |
| `WireReads.RawParsesExactly` | src/contracts.rs:583-774 | A value parses to a raw message if and only if it holds, under the names of its version, exactly the fields of that message, and the message is valid. Fields may come in any order among others, absent is as good as null, and a text as good as its bytes. |
| `WireReads.LegacyParsesExactly` | src/contracts.rs:776-1119 | A value parses to a legacy message if and only if it is a pair of the tag and a list that holds the fields of the message in their places. |
| `WireReads.DocumentParsesExactly` | src/contracts.rs:668-719 | The same for one raw document. |
| `WireReads.DescriptorParsesExactly` | src/contracts.rs:1031-1086 | The same for one schema descriptor; contracts may be absent or null. |
| `WireReads.FirstDocumentFault` | src/contracts.rs:668-719 | Which error a value that is no raw document is refused with, fault by fault in the order they are looked for. |
| `WireReads.FirstRawFault` | src/contracts.rs:583-621 | Which error a value is refused with that is no map, or whose version is absent, no text, or not of a raw message. |
| `WireReads.FirstLegacyFault` | src/contracts.rs:776-793 | Which error a value is refused with that is no pair of a 64-bit tag and a list, or whose tag is none of the nine. |
| `WireNames.FirstInvalid` | src/contracts.rs:515-546 | Which error an invalid document or descriptor is refused with. |
| `WireReads.NamesAreFoundFirst` | src/contracts.rs:571-581 | A name stands for the value at the first place that carries it. |
| `Base64Url.DecodeUndoesEncode` | src/contracts.rs:952-957 | Decoding undoes encoding for all bytes. |
| `Base64Url.EncodeUndoesDecode` | src/contracts.rs:1121-1126 | Only canonical text decodes: encoding the result gives the text back. |
| `Base64Url.TextOfBytes` | src/contracts.rs:952-957 | The text of bytes, digit by digit: every three bytes are four digits of the alphabet as listed, and one or two bytes at the end two or three, without padding. |

## Left out

- Sequence overflow: a sender that would hand out a number past the 32-bit maximum panics (`checked_add`, src/rudp.rs:584-588); here the operations require that the counter has room. The receiver's plain `+ 1` on a packet numbered 4294967295 panics only in builds with overflow checks and wraps to 0 in the others; here a received packet is required to be numbered below the maximum, so neither behaviour is modelled.
- Clocks, sockets and randomness: times are parameters, and the network is the set of packets put on the wire; `CultNetRudpSocketTransportConnection` with its reset on connect appears only as the reset that ends an epoch.
- Resets in the two-endpoint system: at-most-once and delivery claims are per epoch between resets; the single-session ledger covers resets through its abandoned book.
- Liveness: nothing says that the network delivers anything; what the window can and cannot clear is in `Clearing`.
- ReceiverRuns.AtMostOnce: packets numbered 4294967295 are excluded, because the receiver's `+ 1` on that number overflows: a panic with overflow checks, a wrap to 0 without.
- ReceiverRuns.OrderedFramesFormAChain: packets numbered 4294967295 are excluded for the same overflow.
- ReceiverRuns.LatestNeverGoesBack: packets numbered 4294967295 are excluded for the same overflow.
- HostileReceiver.IntakeKeepsUsedOnce: packets numbered 4294967295 are excluded for the same overflow.
- DeliveryOrder.IntakeKeepsChains: packets numbered 4294967295 are excluded for the same overflow.
- DeliveryOrder.IntakeKeepsRises: packets numbered 4294967295 are excluded for the same overflow.
- DeliveryOrder.IntakeKeepsStart: packets numbered 4294967295 are excluded for the same overflow.
- CursorGuess.OwnPacketsAreRightExactlyWhenSafe: no other traffic; the general theorem is `CursorGuess.GuessedCursorIsRightExactlyWhenSafe`.
- Memory and width of counters: the expired counter and collection sizes are unbounded naturals; `usize` is taken to have 64 bits.
- Getters such as `pending_reliable_sequences` and `last_received_at_ms`: plain reads of fields.
- Error messages: errors are values of an enumeration; which error is reported first is kept, its text is not.
- Transport profiles, channel descriptors, TCP transport and reconnect delays: constant records and a thin stream wrapper that would only add easy members.
- Security and service identity (`src/security.rs`, `src/service_identity.rs`): foreign cryptography and the file system.
- Provider health and deployment brake contracts: long conjunctions of field checks.
- Replication into CultCache: the cache itself is not part of this model.
- The JSON form of the other cultnet.schema.v0 messages, and the MessagePack byte encoding: library behaviour; the mappings start from a value tree in which floats, extensions and strings that are not UTF-8 are lumped together.
- Messages without a raw or legacy form (hello, document put and delete, JSON snapshot response): they reach neither mapping.
- CanonicalJson.CanonicalTextIsTheMeaning: a number is given by its rendering, assumed injective and free of delimiters; parsing of JSON text and the SHA-256 digest of the canonical text are not modelled.
- CanonicalJson.PrintIsPlainOfNorm: members are printed before they are sorted by key, the original sorts first; with distinct keys the text is the same.
- Schema registration, listing and catalog responses: map lookups and filters around the canonical hash.
- Snapshot.Ascending: the order is part of the request but nothing depends on it; it is a specification function, not compiled.
- The document registry of the snapshot server: only the set of registered schema ids is used.
