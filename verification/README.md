# A verified model of the mesh node's protocol core

This Dafny project models the protocol core of a Reticulum/LXMF mesh node written in Rust, and proves what its parts promise
each other. It covers five connected components:

- the reliable channel on a link: adaptive send window, retransmission, proofs, reordering ring, watchdog
  (`FlowControl`, `LinkModel`, `LinkObject`, `LinkRuns`, `Retry`, `WatchdogRuns`, `InOrder`, `EndToEnd`, `Delivery`,
  `Envelopes`);
- the byte stream over that channel (`Cutting`, `Streams`, `StreamRuns`);
- the radio and serial pipeline: packet serialisation, byte stuffing as in section 4.2 of RFC 1662 without a checksum,
  segmentation, per-peer reassembly, deframing, parsing (`Buffers`, `Packets`, `Feeding`, `HdlcFraming`, `KissFraming`,
  `SerialLink`, `Segmentation`, `BleLink`);
- the LXMF MessagePack codec and the persistent outbound queue (`MsgPack`, `CountedLoops`, `SkippedValues`, `Lxmf`, `Outbox`),
  with the path-response cache (`PathCache`);
- the two-round Solana co-sign protocol (`SolanaWire`, `CoSign`).

`dafny verify dfyconfig.toml` checks everything.

## How it is modelled

Code that changes objects step by step is a class or a method with loops, proved equal to a function on values; the theorems
about runs are then lemmas about those functions. A link is one object with the source's fields grouped into three records
(timers, channel, window). Sequence numbers, tries and window bytes keep their 16 and 8 bits; comparing sequence numbers
follows section 3.2 of RFC 1982. Concurrency is a state machine whose steps interleave in any order.

What lies outside is a parameter. The hash of a packet, what an arriving packet decrypts to and which packet a proof proves
are given with each event, while whether a message can be encrypted into a packet follows from its length; signing,
verifying, compressing and the check for valid UTF-8 are function values of which only the law needed is assumed (a signature
verifies under its signer's key and, where that is said, under no other; decompression inverts compression).
Times are real numbers of seconds, passed in. A transmission succeeds or fails as its step says, and so does every access to
the store.

## Where the code does not do what one would expect

Each of these is proved, in the member named.

- The receiver proves a channel packet before it looks at its receive window, and the send window counts outstanding packets,
  not the span of their numbers. So a message 48 ahead of a lost one is reported delivered and lost
  (`EndToEnd.UndisciplinedDeliveryIsLost`); the exact condition is `EndToEnd.ProofIsTruthfulIff`.
- A send that fails because its payload is longer than 409 bytes, or because no interface takes the packet, has used up its
  sequence number; the receiver then never passes that number (`EndToEnd.SendLeavesHoleIff`,
  `EndToEnd.FailedSendBlocksTheChannel`).
- The stream writer cuts its chunks for 464 bytes of packet data and makes no allowance for encryption, which leaves 407 bytes
  for the data of a chunk. A ready link refuses every longer chunk, so 408 bytes that do not compress can never be written
  (`Streams.NextChunkTakenIff`, `Streams.IncompressibleIsRefused`), and after the attempt nothing written to any stream of
  that channel is ever read (`StreamRuns.FailedWriteEndsEveryStream`).
- After an odd number of stray flag bytes the serial receive loop pairs every closing flag with the next opening flag for
  good (`SerialLink.RecoversIff`, `SerialLink.NoiseThenPayloads`). The two stateful deframers do recover
  (`HdlcFraming.Deframed`, `KissFraming.Deframed`).
- BLE segments carry no message number, so a partial assembly of the same number of segments leaks into the next message
  (`BleLink.LeftoverHarmlessIff`); one lost segment is enough (`BleLink.OneLossMixesTwoMessages`).
- The map of LXMF fields is read only up to the first key that is no small integer. A custom field, whose key takes two
  bytes, therefore hides images and files behind it (`Lxmf.CustomFieldHidesImage`, `Lxmf.UnknownFieldInvisibleIff`).
- The comments of `rust-core/src/beacon_server.rs:89` name the durable-nonce transaction as the one to be co-signed, but the
  gate accepts a payment only as first instruction, so that transaction is always refused
  (`CoSign.DurableNonceAlwaysRefused`). The plain transaction always passes (`CoSign.HonestCoSign`), even when its second
  account is not the beacon's, and then the beacon's signature is worth nothing (`CoSign.AnySecondAccountPasses`).
- Signing a slot beyond the declared ones overwrites message bytes (`CoSign.SlotOutOfRangeHitsMessage`).
- Arrays with a two-byte header are skipped as if their count were a length (`SkippedValues.LongArraySkippedIff`), and of
  extensions and maps with a four-byte header only the first byte is. Such a value in a field of an unknown kind makes the
  image behind it disappear (`Lxmf.LongArrayHidesImage`, `Lxmf.ImageBehindLongArrayIff`, `Lxmf.ImageBehindUnknownKind`), and
  so does one nested deeper than sixteen levels (`Lxmf.ImageBehindNestedIff`).
- A read of length 0 reports the end of a stream whose EOF message is in, with bytes still buffered
  (`Streams.EmptyReadSignalsEnd`), and a stream closed while its link is not ready never gets an EOF message
  (`Streams.Writer.Close`).
- The fixed-MTU `segment` exceeds 244 bytes for data of 243 or 244 bytes (`Segmentation.SegmentFitsIff`); the transmit loop
  uses the other one.
- A restarted link keeps its next sequence number, while a newly requested one starts at 0 (`LinkRuns.FirstNumberAfter`); a
  peer that starts afresh then takes nothing of the restarted one until the numbers come round (`EndToEnd.FreshPeerTakesIff`).
- A proof that arrives while the link is Stale is dropped, so proofs alone do not keep a link open
  (`LinkRuns.ProofSettlesIff`, `LinkRuns.ProofsDoNotSaveStaleLink`).
- The time of a round-trip packet is measured from the arrival of that very packet, so only the peer's figure counts
  (`LinkRuns.OnlyPeerRttCounts`).
- Entries of the outbound queue in memory are told apart by a sequence number that starts again at 0, and a success for one
  message drops another (`Outbox.SequenceNumbersCollide`, `Outbox.CollisionIsReachable`); the rows in the store are safe all
  the same (`Outbox.RowsDisappearForAReason`).

## Model

| member | source | states |
|---|---|---|
| EndToEnd.DeliveredMeansReceived | rust-core/patches/rns-transport/src/destination/link.rs:380-402 | In every run over a network that loses, repeats and reorders, with each accepted index at most 47 ahead of the receiver and no copy so old that its 16-bit number misleads, the receiver has taken exactly the first k messages off its ring in order, every number the sender marks Delivered belongs to an index taken or in the ring (the latest accepted one with that number, if no send takes a number still outstanding), and all ring keys are at distance 1..47 |
| EndToEnd.PrudentSenderIsNotDeceived | rust-core/patches/rns-transport/src/destination/link.rs:599 | If packet hashes are fresh and the network brings no copy so old that its number misleads, a sender that never lets an unproved number fall 48 behind the next one, which it can see for itself, is never told Delivered for a message the receiver does not have: the latest one with that number |
| EndToEnd.PrudenceSuffices | rust-core/patches/rns-transport/src/destination/link.rs:590-620 | In every run of such a sender, with fresh packet hashes and copies whose numbers tell where they stand, each send meets the discipline of the theorem above and takes a number that is not outstanding |
| EndToEnd.HappenKeepsSession | rust-core/patches/rns-transport/src/destination/link.rs:490-544 | Each send, frame, proof or other event of either end keeps the invariant that ties both ends and the network to absolute message indices |
| EndToEnd.HappenKeepsLatest | rust-core/patches/rns-transport/src/destination/link.rs:500-511 | Each happening keeps it true that outstanding packets and Delivered verdicts stand for the latest message with their number |
| EndToEnd.FailedSendBlocksTheChannel | rust-core/patches/rns-transport/src/destination/link.rs:603-607 | A send refused because its payload is too long for a packet, or whose packet no interface takes, has used up a sequence number, and the receiver never dispatches anything beyond that number |
| EndToEnd.SendLeavesHoleIff | rust-core/patches/rns-transport/src/transport/links.rs:226-243 | A send on a ready link leaves such a hole if and only if its payload is longer than 409 bytes or no interface takes the packet |
| EndToEnd.ProofIsTruthfulIff | rust-core/patches/rns-transport/src/destination/link.rs:393-401 | A frame that arrives and is proved is afterwards held or dispatched if and only if its index is below the end of the receive window |
| EndToEnd.UndisciplinedDeliveryIsLost | rust-core/patches/rns-transport/src/destination/link.rs:599 | From every fresh session whose receiver is open and whose send window has room for two packets, whatever the round-trip time and the interfaces, there is a run, losing one packet, after which message 48 is marked Delivered although the receiver neither dispatched nor buffered it: the send window counts outstanding packets, not the span of their numbers |
| EndToEnd.FreshPeerTakesIff | rust-core/patches/rns-transport/src/destination/link.rs:1143-1167 | A peer that starts afresh, hearing a link that restarted at number n from there on in any order, takes message n if and only if n is 0, and otherwise nothing, until the numbers come round again |
| InOrder.InOrderExactlyOnce | rust-core/patches/rns-transport/src/destination/link.rs:1189-1247 | For every sequence of arrivals whose 16-bit numbers tell where they stand, the envelopes taken off the ring are exactly messages 0..k-1, each once and in order, across wrap-around, message k has not arrived, and nothing held was not received |
| InOrder.FrameRefinesArrive | rust-core/patches/rns-transport/src/destination/link.rs:1199-1226 | One frame has on the 16-bit numbers and the ring the effect that its arrival has on a receiver that knows absolute indices |
| InOrder.FrameRefinesArriveIff | rust-core/patches/rns-transport/src/destination/link.rs:1199-1226 | It has that effect if and only if its number does not look as if it were in the window when it is not, or it overwrites the same envelope |
| InOrder.TellableNear | rust-core/patches/rns-transport/src/destination/link.rs:1199-1213 | Numbers tell everything less than 65488 behind or 65536 ahead apart, and mislead for the 48 indices beyond either end |
| InOrder.DrainRefinesAdvance | rust-core/patches/rns-transport/src/destination/link.rs:1222-1226 | The loop that takes envelopes off the ring hands over exactly the longest consecutive stretch and leaves the rest stored |
| InOrder.EverythingArrivedIsDispatched | rust-core/patches/rns-transport/src/destination/link.rs:1189-1247 | If every index below n arrives at some time while it is in the window, whatever else arrives, the channel has taken all messages below n off its ring, in order |
| LinkRuns.ReachableConsistent | rust-core/patches/rns-transport/src/destination/link.rs:590-689 | In every reachable state packets are outstanding only while Active or Stale and at most 48 of them, Stale holds exactly when stale_since is set, tries are in 1..5, the window bounds are in their class and ring keys are in the window |
| LinkRuns.StepConsistent | rust-core/patches/rns-transport/src/destination/link.rs:268-311 | No event of any kind leaves these states |
| LinkRuns.NewLinksConsistent | rust-core/patches/rns-transport/src/destination/link.rs:154-230 | Both ways of creating a link start in them |
| LinkRuns.ReachableLedger | rust-core/patches/rns-transport/src/destination/link.rs:680-686 | In every reachable state a number is Sent exactly when one outstanding packet carries it, provided hashes and numbers of sends are fresh |
| LinkRuns.SendKeepsLedgerIff | rust-core/patches/rns-transport/src/destination/link.rs:590-620 | A send keeps that correspondence exactly when its hash and its sequence number are fresh (or the hash stands for that very number) |
| LinkRuns.AcceptedMessagesAccountedFor | rust-core/patches/rns-transport/src/destination/link.rs:500-511 | Within one session every accepted message is Sent, Delivered or Failed, and outstanding exactly when it is Sent |
| LinkRuns.StepVerdict | rust-core/patches/rns-transport/src/destination/link.rs:1100-1167 | A message becomes Delivered only by the proof of the outstanding packet with its number while the link is Active, and only a new link request forgets a verdict |
| LinkRuns.ProofSettlesIff | rust-core/patches/rns-transport/src/destination/link.rs:490-511 | A valid proof of an outstanding packet makes its number Delivered if and only if the link is Active and both destination and interface are its own |
| LinkRuns.ProofsDoNotSaveStaleLink | rust-core/patches/rns-transport/src/destination/link.rs:501-502 | A Stale link that hears only proofs, valid or not, drops them all, and is closed at the end of its grace period with all of its messages Failed |
| LinkRuns.OnlyPeerRttCounts | rust-core/patches/rns-transport/src/destination/link.rs:453-470 | After a round-trip packet the round-trip time is the figure of the peer, or zero if that is negative |
| LinkRuns.FirstNumberAfter | rust-core/patches/rns-transport/src/destination/link.rs:1143-1167 | Whichever way it becomes Active, a restarted link sends its next message under the number it had reached, a newly requested one under 0 |
| FlowControl.FlowDeliveryKeepsBounds | rust-core/patches/rns-transport/src/destination/link.rs:754-792 | A delivery keeps min <= window <= max <= 48 and the bounds in one of the four classes of round-trip time |
| FlowControl.FlowTimeoutsKeepBounds | rust-core/patches/rns-transport/src/destination/link.rs:794-807 | So does any number of timeouts |
| FlowControl.FlowTimeoutKeepsBounds | rust-core/patches/rns-transport/src/destination/link.rs:794-807 | So does one timeout |
| FlowControl.FlowRefreshEntersClass | rust-core/patches/rns-transport/src/destination/link.rs:731-752 | A new round-trip time puts the bounds into its own class, the single-slot class exactly above the slow threshold |
| FlowControl.FlowArithmeticNeverWraps | rust-core/patches/rns-transport/src/destination/link.rs:754-807 | None of the u8 additions and subtractions of window bookkeeping wraps in a reachable state |
| FlowControl.FlowTimeoutsReachFloor | rust-core/patches/rns-transport/src/destination/link.rs:794-807 | As many timeouts in a row as lie between the bounds, or more, end at the smallest window of the class, and the maximum stops at minimum plus flexibility |
| Retry.RetriesTerminate | rust-core/patches/rns-transport/src/destination/link.rs:645-689 | In every run without a new accepted send, with proofs, closes and everything else anywhere in it, polls that find something overdue are bounded by the retries left at the start plus one, at most 193, and the one beyond the retries left closes the link |
| Retry.PollMakesProgress | rust-core/patches/rns-transport/src/destination/link.rs:645-689 | A poll that finds an overdue packet spends one retry for each packet it sends again, or closes the link, sends nothing and fails every outstanding message |
| Retry.RetransmissionsBounded | rust-core/patches/rns-transport/src/destination/link.rs:659-678 | In any run, with everything else happening in between, one accepted packet is retransmitted at most four times |
| Retry.BumpCosts | rust-core/patches/rns-transport/src/destination/link.rs:659-678 | Sending a set of packets again costs exactly one retry each |
| Retry.LatePollsSettle | rust-core/patches/rns-transport/src/destination/link.rs:645-689 | When the retransmission loop has run late enough more often than retries were left, with no new accepted send in between, nothing is outstanding any more, whatever else happened |
| Delivery.EverythingIsDelivered | rust-core/patches/rns-transport/src/destination/link.rs:490-544 | In every disciplined run of a link that stays open, with nothing outstanding at the end, each message below the first hole is proved to the sender and dispatched by the receiver, in order |
| Delivery.EveryMessageIsSettled | rust-core/patches/rns-transport/src/destination/link.rs:645-689 | Once that loop has run often enough after the last send, every message sent has the verdict Delivered or Failed; if the link stayed open and no send left a hole, all of them were delivered and the receiver has dispatched them all, in order |
| WatchdogRuns.QuietBeforeDeadline | rust-core/patches/rns-transport/src/destination/link.rs:1013-1038 | No watchdog check before the computed deadline acts |
| WatchdogRuns.ActsExactlyWhenDue | rust-core/patches/rns-transport/src/destination/link.rs:1040-1076 | A check at the instant the deadline was computed acts exactly when the deadline has passed |
| WatchdogRuns.SilentLinkEndsClosed | rust-core/patches/rns-transport/src/destination/link.rs:1040-1076 | A silent link checked at or after its deadlines is closed after at most four checks |
| WatchdogRuns.SilentLinkNotClosedEarly | rust-core/patches/rns-transport/src/destination/link.rs:985-1076 | And never before the stale time since its last sign of life and then the grace period have gone by |
| LinkObject.ChannelLink.SendChannelMessage | rust-core/patches/rns-transport/src/destination/link.rs:590-620 | On the mutable link: the whole new state and answer of a send, with the number used up also when the packed envelope is too long to be encrypted into a packet |
| LinkObject.ChannelLink.MarkChannelFailed | rust-core/patches/rns-transport/src/destination/link.rs:634-643 | On the mutable link: the entry found by the search goes, the number is Failed |
| LinkObject.ChannelLink.ResendOverdue | rust-core/patches/rns-transport/src/destination/link.rs:659-678 | On the mutable link: the retransmission loop in any order of the hash map: all overdue packets bumped, or the ones before an exhausted one |
| LinkObject.ChannelLink.PollChannelTimeouts | rust-core/patches/rns-transport/src/destination/link.rs:645-689 | On the mutable link: the state and packets of a poll do not depend on the iteration order of the hash map |
| LinkObject.ChannelLink.FailOutstanding | rust-core/patches/rns-transport/src/destination/link.rs:681-683 | On the mutable link: draining the outstanding packets one by one fails exactly their numbers |
| LinkObject.ChannelLink.HandleChannelFrame | rust-core/patches/rns-transport/src/destination/link.rs:1189-1247 | On the mutable link: acceptance and the new ring, next number and envelopes taken off by a frame |
| LinkObject.ChannelLink.TakeReady | rust-core/patches/rns-transport/src/destination/link.rs:1222-1226 | On the mutable link: the loop that empties the ring from the next number on |
| LinkObject.ChannelLink.NoteChannelDelivery | rust-core/patches/rns-transport/src/destination/link.rs:754-792 | On the mutable link: the window after a delivery, from the step-by-step updates |
| LinkObject.ChannelLink.NoteChannelTimeout | rust-core/patches/rns-transport/src/destination/link.rs:794-807 | On the mutable link: the window after a timeout |
| LinkObject.ChannelLink.HandleDataPacket | rust-core/patches/rns-transport/src/destination/link.rs:380-472 | On the mutable link: the answer and new state for each packet context; a round-trip packet leaves the figure of the peer |
| LinkObject.ChannelLink.HandleLinkPacket | rust-core/patches/rns-transport/src/destination/link.rs:490-544 | On the mutable link: packets for another link or from another interface change nothing; data, proofs and request proofs have their specified effect, and no proof has any on a Stale link |
| LinkObject.ChannelLink.FinalizeLocalClose | rust-core/patches/rns-transport/src/destination/link.rs:1100-1120 | On the mutable link: closing fails what is outstanding, empties the ring and resets numbers and window |
| LinkObject.ChannelLink.RestartLink | rust-core/patches/rns-transport/src/destination/link.rs:1143-1167 | On the mutable link: a restart fails what is outstanding but keeps the next number and the open flag |
| LinkObject.ChannelLink.Request | rust-core/patches/rns-transport/src/destination/link.rs:268-311 | On the mutable link: a new request forgets all channel state |
| LinkObject.ChannelLink.CheckLinkWatchdog | rust-core/patches/rns-transport/src/destination/link.rs:1040-1076 | On the mutable link: the new state and the action of one watchdog check |
| LinkObject.ChannelLink.TearDown | rust-core/patches/rns-transport/src/destination/link.rs:1126-1137 | On the mutable link: a close packet goes out only while Active or Stale, and the link is closed either way |
| Envelopes.EnvelopeRoundTripIff | rust-core/patches/rns-transport/src/channel.rs:46-67 | Packing and unpacking a channel envelope give it back exactly when its payload is shorter than 65536 bytes |
| Envelopes.UnpackPack | rust-core/patches/rns-transport/src/channel.rs:46-67 | Otherwise the receiver sees the payload cut to its length modulo 65536 |
| Envelopes.FitsPacketIff | rust-core/patches/rns-transport/src/crypt/fernet.rs:128-146 | A packed envelope can be encrypted into the 464 bytes of a packet exactly when its payload is at most 409 bytes long |
| Streams.DecodeEncode | rust-core/patches/rns-transport/src/channel_buffer.rs:63-102 | Decoding inverts encoding for every stream id in range and every flag, and refuses exactly what does not decompress to at most 16384 bytes |
| Streams.EncodeChunk | rust-core/patches/rns-transport/src/channel_buffer.rs:324-364 | Given a compressor whose inverse recovers its input, every chunk makes progress, encodes to at most 458 bytes (which a link need not take), is accepted by the decoder and carries exactly a prefix of the data, the first of the four attempts that fits |
| Streams.Writer.Write | rust-core/patches/rns-transport/src/channel_buffer.rs:256-268 | The next chunk is sent whole or not at all, as the state of the link and the length of the chunk decide, and the answer says which |
| Streams.Writer.WriteAll | rust-core/patches/rns-transport/src/channel_buffer.rs:270-288 | It terminates: the chunks go one after the other, up to the first that the link does not take, which decides the answer |
| Streams.OneWriteAdds | rust-core/patches/rns-transport/src/channel_buffer.rs:256-268 | By such a write the stream grows by exactly the bytes reported, and by nothing if it fails |
| Streams.WholeWriteAdds | rust-core/patches/rns-transport/src/channel_buffer.rs:270-288 | By such writing it grows by exactly a prefix of the data, the reported one unless an error is reported, and by all of it exactly when every chunk went |
| Streams.ReadyTakesIff | rust-core/patches/rns-transport/src/destination/link.rs:590-620 | A ready link takes a stream message exactly when it encodes to at most 409 bytes, that is, has at most 407 bytes of data; any other fails and uses up a sequence number |
| Streams.NextChunkTakenIff | rust-core/patches/rns-transport/src/channel_buffer.rs:324-364 | A ready link takes the next chunk of a stream exactly when the first attempt that compresses comes to at most 407 bytes or, if none does, there are at most 407 bytes of data |
| Streams.IncompressibleIsRefused | rust-core/patches/rns-transport/src/channel_buffer.rs:361-364 | So 408 bytes or more that do not get shorter by compression always fail on a ready link |
| Streams.FourHundredAndEightZeros | rust-core/patches/rns-transport/src/channel_buffer.rs:361-364 | For instance 408 zeros with a compressor that leaves them as they are, where 407 would go |
| Streams.ReadyWholeWriteIff | rust-core/patches/rns-transport/src/channel_buffer.rs:270-288 | Over a link that is ready each time, writing everything succeeds exactly when no chunk has more than 407 bytes of data, and otherwise reports the error of the first that has, although everything before it was sent |
| Streams.Writer.Close | rust-core/patches/rns-transport/src/channel_buffer.rs:290-322 | The EOF message is the last one sent, and it is sent exactly when the channel opened and took it, which a ready link always does; a writer whose link was not ready counts as closed without one |
| Streams.ReadsAreTheStream | rust-core/patches/rns-transport/src/channel_buffer.rs:161-224 | For every mix of deliveries in order and reads of any size, the bytes read followed by the bytes buffered are the bytes of the delivered messages of this stream, and eof is set exactly when its EOF message was delivered |
| Streams.EofMeansEverything | rust-core/patches/rns-transport/src/channel_buffer.rs:221-224 | When the reader reports the end, the reads have returned every byte of the whole stream |
| Streams.WritersEndWithEof | rust-core/patches/rns-transport/src/channel_buffer.rs:256-322 | What a writer has sent meets the conditions of both theorems |
| Streams.EmptyReadSignalsEnd | rust-core/patches/rns-transport/src/channel_buffer.rs:206-215 | An empty result signals the end exactly when eof is set and nothing is buffered or the length asked for is 0 |
| StreamRuns.ReadsArePrefixOfWrites | rust-core/patches/rns-transport/src/channel_buffer.rs:161-224 | In every run of writers over a disciplined channel session on a network that loses, repeats and reorders, for all sizes and times of reads, the bytes read and buffered are a prefix of the bytes written to the stream, and all of them have been read once the reader reports the end |
| StreamRuns.WholeStreamsArrive | rust-core/patches/rns-transport/src/channel_buffer.rs:161-224 | If the link stayed open, no send left a hole and nothing is outstanding, what was read and buffered is everything written, and the end is known exactly if the EOF message was sent |
| StreamRuns.FailedWriteEndsEveryStream | rust-core/patches/rns-transport/src/channel_buffer.rs:256-268 | After a write whose message is too long for the link, or whose packet no interface takes, nothing written later to any stream of the session is ever read |
| StreamRuns.WriteFailsIff | rust-core/patches/rns-transport/src/channel_buffer.rs:256-268 | On a ready link a write does that exactly when its chunk has more than 407 bytes of data or no interface takes the packet |
| StreamRuns.Perform | rust-core/patches/rns-transport/src/channel_buffer.rs:256-322 | A writer object that performs the acts of its stream in a run has sent exactly what the run lists as written to that stream |
| StreamRuns.ActsKeepStep | rust-core/patches/rns-transport/src/transport/links.rs:226-243 | In every run the messages that the writers' sends put into the channel are, in order, the stream messages the channel accepted; each can be decoded, and no stream goes on behind its EOF message |
| StreamRuns.DispatchedOfAccepted | rust-core/patches/rns-transport/src/destination/link.rs:1228-1236 | What the handlers of stream messages get in such a session is the stream messages that the channel accepted, up to the number the receiver expects, in order |
| Streams.Reader.OnMessage | rust-core/patches/rns-transport/src/channel_buffer.rs:165-181 | The handler appends what a decodable message of its stream carries and refuses everything else unchanged |
| Streams.Reader.Read | rust-core/patches/rns-transport/src/channel_buffer.rs:206-215 | A read removes from the front exactly what it returns |
| Buffers.StaticBuffer.Write | rust-core/patches/rns-transport/src/buffer.rs:63-79 | A write appends all of the data or, when it does not fit, nothing |
| Buffers.StaticBuffer.SafeWrite | rust-core/patches/rns-transport/src/buffer.rs:50-56 | The clamped write appends the longest prefix that fits |
| Buffers.StaticBuffer.RotateLeft | rust-core/patches/rns-transport/src/buffer.rs:81-91 | Rotation drops exactly the first bytes of the contents and keeps the rest in order |
| Buffers.OutputBuffer.Write | rust-core/patches/rns-transport/src/buffer.rs:128-144 | As for the static buffer, on a borrowed array |
| Buffers.InputBuffer.Read | rust-core/patches/rns-transport/src/buffer.rs:205-215 | A read returns and consumes exactly the next bytes, or nothing when there are too few |
| Packets.MetaRoundTrip | rust-core/patches/rns-transport/src/packet.rs:201-220 | The flag byte gives back all six header fields |
| Packets.MetaIsOnto | rust-core/patches/rns-transport/src/packet.rs:201-220 | All 256 flag bytes mean different headers |
| Packets.CodeRoundTrip | rust-core/patches/rns-transport/src/packet.rs:123-173 | All 21 context codes come back; a byte is its own code exactly if it is one of them |
| Packets.PacketRoundTripIff | rust-core/patches/rns-transport/src/serde.rs:29-101 | Serialising and parsing give the packet back exactly when it has no access code and has a transport address just when its header is Type2 |
| Packets.ParsedRerendersIff | rust-core/patches/rns-transport/src/serde.rs:72-101 | Whatever parses is serialised to the same bytes exactly when its context code is a known one |
| Packets.Serialize | rust-core/patches/rns-transport/src/serde.rs:29-44 | On an output buffer the wire form is appended in full exactly when it fits |
| Packets.Deserialize | rust-core/patches/rns-transport/src/serde.rs:71-102 | From an input buffer exactly the parsed packet is read, and data over 464 bytes is an error |
| Packets.FromBytes | rust-core/patches/rns-transport/src/packet.rs:272-313 | Reads the same packets as deserialising, except that over-long data is cut to 464 bytes |
| Packets.ToBytes | rust-core/patches/rns-transport/src/packet.rs:315-331 | Writes the same bytes as serialising, except that a Type2 header without transport address is an error |
| Feeding.ChunkingIsInvisible | rust-core/src/framing.rs:51-80 | How the input of a deframer is cut into chunks makes no difference to its frames and state |
| HdlcFraming.Deframed | rust-core/src/framing.rs:14-80 | For every list of payloads, every chunking of their encodings and every earlier state, the HDLC deframer returns at most one stale frame and then exactly the non-empty payloads |
| HdlcFraming.OneFrame | rust-core/src/framing.rs:51-80 | From every state one encoded payload yields at most one stale frame, then itself, and leaves nothing behind |
| HdlcFraming.StuffHasNoFlag | rust-core/src/framing.rs:17-29 | No flag byte occurs inside a frame |
| HdlcFraming.HdlcEncode | rust-core/src/framing.rs:14-32 | The encoder loop writes the stuffed payload between two flags |
| HdlcFraming.HdlcDeframer.Feed | rust-core/src/framing.rs:51-80 | The loop is the byte-wise step folded over the input |
| KissFraming.Deframed | rust-core/src/framing.rs:104-184 | The same for KISS: at most one stale frame, then each non-empty payload as a data frame |
| KissFraming.OneFrame | rust-core/src/framing.rs:144-184 | The same for one payload |
| KissFraming.KissEncode | rust-core/src/framing.rs:104-123 | The encoder loop writes the data command and the stuffed payload between two frame ends |
| KissFraming.KissDeframer.Feed | rust-core/src/framing.rs:144-184 | The loop is the byte-wise step folded over the input |
| KissFraming.KissDeframer.Reset | rust-core/src/framing.rs:186-190 | A reset leaves the old command in place, but no frame of it can appear |
| SerialLink.PacketsCross | rust-core/patches/rns-transport/src/iface/serial.rs:307-330 | Well-formed packets no longer than the MTU, serialised, framed and read in pieces of any sizes, all come out of the parser unchanged, in order, once each |
| SerialLink.InPhaseDelivers | rust-core/patches/rns-transport/src/iface/serial.rs:307-330 | Behind bytes without a flag that fit the buffer together with the first frame, the receive loop returns exactly the payloads sent, for every cut into reads |
| SerialLink.DiscardNeverFiresIff | rust-core/patches/rns-transport/src/iface/serial.rs:328-330 | For every cut into reads the loop gets out of such a wire what one read would, the discard of an over-long buffer never happening, if and only if those bytes and the first frame short of its last byte are at most 64 MTUs |
| SerialLink.DrainMerges | rust-core/patches/rns-transport/src/iface/serial.rs:310-326 | Draining early and then more gives what draining once later gives |
| SerialLink.RecoversIff | rust-core/patches/rns-transport/src/iface/serial.rs:307-330 | For every cut into reads and any noise up to that bound, the loop yields what was in the noise and then the payloads if and only if the noise has an even number of flags |
| SerialLink.NoiseThenPayloads | rust-core/patches/rns-transport/src/iface/serial.rs:307-330 | Behind an odd number of flags it yields at most one piece of junk, then an empty frame for each later payload, and never a payload again |
| SerialLink.UnstuffStuff | rust-core/patches/rns-transport/src/iface/hdlc.rs:62-96 | Decoding the stuffed payload up to the closing flag gives the payload |
| SerialLink.Encode | rust-core/patches/rns-transport/src/iface/hdlc.rs:10-27 | The frame is written in full exactly when it fits the buffer |
| SerialLink.FindFrame | rust-core/patches/rns-transport/src/iface/hdlc.rs:30-60 | The search returns the first two flags, or None when there are fewer |
| SerialLink.Decode | rust-core/patches/rns-transport/src/iface/hdlc.rs:62-96 | Decoding succeeds exactly when a closing flag ends the frame and the content fits |
| SerialLink.WireCapacitySuffices | rust-core/patches/rns-transport/src/iface/serial.rs:29-32 | The transmit buffer is never too small for a payload within the MTU |
| SerialLink.SerialReceiver.OnRead | rust-core/patches/rns-transport/src/iface/serial.rs:307-332 | One read leaves in the buffer and hands on exactly what the specification of the loop says |
| BleLink.PacketCrossesBle | rust-core/src/ble_iface.rs:369-489 | Any well-formed packet, serialised, framed, cut for a limit of at least 6, its segments arriving in any order among other traffic and with duplicates before completion, comes back as exactly that one packet when the last missing segment arrives |
| BleLink.PacketReassembled | rust-core/src/ble_iface.rs:378-405 | Its frame is whole exactly when the last missing segment has arrived, and no earlier segment yields anything |
| BleLink.ReassembledExactly | rust-core/src/ble_iface.rs:291-308 | The same for any message of 2 to 255 segments, with no assembly of the same size left over for the peer |
| BleLink.LeftoverHarmlessIff | rust-core/src/ble_iface.rs:388-399 | A message of two or more segments comes out with its last missing segment, and nothing before, in every order of arrivals, if and only if the peer has no unfinished assembly of the same size with a filled slot |
| BleLink.OneLossMixesTwoMessages | rust-core/src/ble_iface.rs:388-399 | Two messages sent in order, with only the first segment lost, make the receiver hand on the first half of the second with the second half of the first, and the second message never comes out |
| BleLink.SegmentsCarryTheFrame | rust-core/src/ble_iface.rs:263-283 | For every packet and limit of at least 6 there are at most 255 segments, each within the limit, which carry the frame between them |
| BleLink.FrameYieldsPacket | rust-core/src/ble_iface.rs:408-429 | Deframing and parsing a frame give the packet with all fields after at most one stale frame |
| BleLink.DeframerStaysQuiet | rust-core/src/ble_iface.rs:408 | The deframer shared by all peers holds nothing back between whole frames |
| Segmentation.ChunkCount | rust-core/src/ble_iface.rs:271-274 | The announced total is the number of chunks |
| Segmentation.ChunksJoin | rust-core/src/ble_iface.rs:273-274 | The chunks joined are the data, and none is empty or over-long |
| Segmentation.SegmentsAreFaithful | rust-core/src/ble_iface.rs:271-282 | Up to 255 segments, index and total survive the cast to a byte |
| Segmentation.TotalFitsIff | rust-core/src/ble_iface.rs:271-272 | The total fits a byte exactly up to 255 times the segment payload |
| Segmentation.SegmentFitsIff | rust-core/src/ble_iface.rs:239-260 | The fixed-MTU variant keeps within 244 bytes exactly when the data is not 243 or 244 bytes long |
| BleLink.BleReceiver.OnFrame | rust-core/src/ble_iface.rs:369-429 | One received frame changes assemblies and deframer and yields packets exactly as specified |
| BleLink.BleReceiver.Assemble | rust-core/src/ble_iface.rs:378-400 | One frame changes the assemblies and yields a blob exactly as specified |
| BleLink.BleTransmitter.SendPacket | rust-core/src/ble_iface.rs:433-489 | Every packet is queued as all its segments for all peers; neither drop branch for the packet can be taken |
| Lxmf.LxmfRoundTrip | rust-core/src/node.rs:2335-2346 | Decoding 96 header bytes followed by the encoder's output returns title, body, image and files unchanged, for all lengths within the limits; only an image without data is not sent |
| Lxmf.PayloadDecodes | rust-core/src/node.rs:2421-2459 | A payload with any list of fields, known and unknown in any order and with any keys, whose values behind unknown small integers are such that skipping consumes them whole, decodes to what the fields before the first key that is no small integer add up to |
| Lxmf.AddsUpTo | rust-core/src/node.rs:2436-2456 | Fields add up to the last image among them and all attachments in order |
| Lxmf.UnknownFieldInvisibleIff | rust-core/src/node.rs:2431-2456 | Adding a field of an unknown kind, with any value behind a key that is no small integer and one that skipping consumes whole behind a small integer, anywhere in the map leaves the decoded message unchanged if and only if its key is a small integer, or another sort of key has already ended the map, or the fields behind it hold no attachment and no other image |
| Lxmf.CustomFieldHidesImage | rust-core/src/node.rs:2432-2435 | A custom field 0xfb in front of an image makes the image disappear |
| Lxmf.ImageBehindValueIff | rust-core/src/node.rs:2421-2459 | An image behind a field with an unknown small integer for a key comes through exactly when skipping consumes the value of that field whole, and is lost when it stops inside, at a byte that is neither 5 nor 6, the keys the decoder knows |
| Lxmf.ImageBehindNestedIff | rust-core/src/node.rs:2393-2419 | For the kinds that skipping supports this is so exactly when they are nested to depth at most 16 |
| Lxmf.ImageBehindLongArrayIff | rust-core/src/node.rs:2405 | For arrays with a two-byte header exactly when all their elements encode to one byte |
| Lxmf.ImageBehindUnknownKind | rust-core/src/node.rs:2417 | Behind an extension value, or a map with a four-byte header, the image is always lost |
| Lxmf.LongArrayHidesImage | rust-core/src/node.rs:2405 | The bytes 01 dc 00 01 cc 00, a list of one number under the key 1, make the image behind them disappear |
| SkippedValues.ValueSkippedIff | rust-core/src/node.rs:2393-2419 | For every value tree of supported kinds, skipping consumes exactly that one encoded value if and only if it is nested to depth at most 16, and never more |
| SkippedValues.SkipLeaves | rust-core/src/node.rs:2393-2419 | Too deep a value leaves the cursor at the start of one of its inner values, never inside one |
| SkippedValues.LongArraySkippedIff | rust-core/src/node.rs:2405 | Skipping an array with a two-byte header consumes it exactly when all its elements encode to one byte, since its count is taken for a length |
| MsgPack.BinRoundTripIff | rust-core/src/node.rs:2348-2362 | A blob is read back exactly when it is at most 16 MiB long |
| MsgPack.StrRoundTripIff | rust-core/src/node.rs:2584-2593 | A string is read back exactly when it is at most 65535 bytes long |
| MsgPack.ArrayHeaderRoundTripIff | rust-core/src/node.rs:2595-2606 | An array header is read back exactly up to 65535 entries |
| Lxmf.ActualIsFaithful | rust-core/src/node.rs:2348-2419 | The cursor primitives read and skip everything within the limits |
| Lxmf.BuildFields | rust-core/src/node.rs:2527-2571 | The loop over fields writes the map header and the entries of image and attachments |
| Lxmf.DecodeLxmf | rust-core/src/node.rs:2335-2346 | The cursor decoder returns what the specification returns on arbitrary bytes |
| Lxmf.ReadFields | rust-core/src/node.rs:2421-2459 | So does the loop over map entries, with its early break |
| MsgPack.Cursor.ReadBytes | rust-core/src/node.rs:2348-2362 | Result and cursor of a tolerant read, failures included |
| MsgPack.Cursor.Skip | rust-core/src/node.rs:2393-2419 | The recursive skip moves the cursor as specified |
| MsgPack.MpArray | rust-core/src/node.rs:2595-2606 | The encoder loop writes header and entries |
| SolanaWire.GateIff | rust-core/src/beacon_server.rs:316-376 | On every serialised message with fewer than 2^16 keys, instructions, indices and data bytes the gate answers true exactly when the first instruction exists, calls the configured program and starts with the discriminator |
| SolanaWire.VerifyExecutePayment | rust-core/src/beacon_server.rs:316-376 | The gate never reads out of range, whatever the bytes, and decides as specified |
| SolanaWire.ExtractKeyIff | rust-core/src/beacon_server.rs:380-389 | Every account key of a serialised message is found at its index, and none beyond |
| SolanaWire.CompactRoundTrip | rust-core/src/solana_tx.rs:124-134 | A compact count is read back with the cursor behind it |
| SolanaWire.EncodeCompact | rust-core/src/solana_tx.rs:124-134 | The loop writes seven bits at a time, lowest first |
| SolanaWire.ReadCompactU16 | rust-core/src/beacon_server.rs:393-400 | The loop reads at most three bytes and refuses a longer count |
| SolanaWire.SerializeMessage | rust-core/src/solana_tx.rs:156-175 | The loops write header, keys, blockhash and instructions in order |
| CoSign.HonestCoSign | rust-core/src/solana_tx.rs:324-403 | For any accounts, equal ones included, the unsigned build, the client's signature in slot 0 and the beacon's checks and signature in slot 1 succeed, leave the message as built, and both slots verify under account keys 0 and 1 |
| CoSign.CoSignedIff | rust-core/src/beacon_server.rs:112-147 | The beacon co-signs a well-formed transaction exactly when two signatures are declared, the first account's signature is valid and the first instruction is the payment |
| CoSign.SecondSlotVerifiesIff | rust-core/src/beacon_server.rs:112-147 | Of every transaction the beacon co-signs, slot 1 verifies under account key 1 if and only if that key is its own, which it never checks |
| CoSign.AnySecondAccountPasses | rust-core/src/beacon_server.rs:135-147 | A payment built for any second account whatever passes all checks and is co-signed |
| CoSign.DurableNonceAlwaysRefused | rust-core/src/solana_tx.rs:224-303 | The beacon refuses every transaction of the durable-nonce builder, because its first instruction advances the nonce |
| CoSign.SigningCommutes | rust-core/src/solana_tx.rs:390-403 | Signing two different existing slots gives the same bytes in either order |
| CoSign.SignThenVerify | rust-core/src/solana_tx.rs:407-417 | A signed slot verifies under the signer's key, and the verdict on any other slot is unchanged |
| CoSign.SignInRange | rust-core/src/solana_tx.rs:390-403 | Signing an existing slot changes that slot and nothing else |
| CoSign.SlotOutOfRangeHitsMessage | rust-core/src/solana_tx.rs:398-401 | A slot index at or beyond the count, where the bytes exist, overwrites part of the message |
| CoSign.PlainAccountsResolve | rust-core/src/solana_tx.rs:338-369 | The instruction of the plain transaction refers to its eleven accounts in order, for equal accounts too |
| CoSign.DurableAccountsResolve | rust-core/src/solana_tx.rs:233-297 | So does the payment instruction of the durable-nonce transaction, in its longer table |
| CoSign.PaymentDataReads | rust-core/src/solana_tx.rs:79-88 | Every parameter is read back from its offset in the 104 bytes |
| CoSign.SignTxAtSlot | rust-core/src/solana_tx.rs:390-403 | Malformed transactions and slots beyond the end are returned unchanged; otherwise exactly one slot is overwritten |
| CoSign.VerifySlotSignature | rust-core/src/solana_tx.rs:407-417 | The verdict on a slot, with every malformed case refused |
| CoSign.CoSignTransaction | rust-core/src/beacon_server.rs:112-147 | The beacon's checks in order, and slot 1 written at its fixed place, which is in range |
| CoSign.BuildUnsignedExecutePayment | rust-core/src/solana_tx.rs:324-373 | Two empty slots and the message with twelve accounts and one instruction |
| CoSign.PartialSignExecutePayment | rust-core/src/solana_tx.rs:224-303 | Slot 0 signed, slot 1 empty, and the message with fourteen accounts and two instructions |
| Outbox.RowsDisappearForAReason | rust-core/src/node.rs:389-437 | In every interleaving of sends, announces, retries, expiry, restarts and store failures, a row that is gone was transmitted successfully or had at least fifty failed periodic attempts, and every transmission on its behalf was to its own destination with its own payload |
| Outbox.RunIsSafe | rust-core/src/node.rs:1489-1535 | In every run each entry in memory with a store id carries that row's destination and payload, and attempts never exceed the failed periodic transmissions |
| Outbox.SequenceNumbersCollide | rust-core/src/node.rs:743-747 | What a successful periodic transmission leaves in memory is exactly the entries with another sequence number |
| Outbox.CollisionIsReachable | rust-core/src/node.rs:1336 | A run from the empty node, with one restart, in which a success for the first message drops the second from memory untransmitted, its row staying in the store |
| Outbox.MessageStore.EnqueueOutbound | rust-core/src/store.rs:204-211 | A new row with an id never used before, all others unchanged |
| Outbox.MessageStore.AllOutboundQueue | rust-core/src/store.rs:213-234 | The rows with fewer than fifty attempts, by ascending id |
| Outbox.MessageStore.DrainExpiredOutbound | rust-core/src/store.rs:248-271 | Exactly the rows at or above the limit go |
| Outbox.PendingList.TakeFor | rust-core/src/node.rs:390-396 | The entries for the destination are taken out in order, the others stay in order |
| Outbox.PendingList.Load | rust-core/src/node.rs:342-352 | Rows are added unless their number was in the list before loading |
| PathCache.CacheMeetsSpec | rust-core/patches/rns-transport/src/destination.rs:419-464 | Over every run under a clock that does not run backwards a tag is answered with its original packet exactly while 30 s have not passed and fewer than 64 newer tags were inserted; after each request at most 64 tags remain, queued once each by expiry |
| PathCache.RespondRefines | rust-core/patches/rns-transport/src/destination.rs:437-464 | One request keeps the cache equal to the living part of the history and gives the same response |
| PathCache.PruneIsSharp | rust-core/patches/rns-transport/src/destination.rs:419-427 | Pruning leaves exactly the answers that are neither expired nor pushed out |
| PathCache.Destination.PathResponseWithTag | rust-core/patches/rns-transport/src/destination.rs:437-464 | The method on map and queue has the specified response and state |
| PathCache.Destination.PrunePathResponses | rust-core/patches/rns-transport/src/destination.rs:419-427 | The loop pops from the front until the oldest entry is to stay |

## Left out

- Ed25519, X25519, HKDF, AES, HMAC, SHA-256, bzip2 and zlib: parameters, as said above.
- The transport core, resources, link payloads, ids and proofs, and `TransportChannel` are not part of this model; sends over
  them are outcomes chosen by the environment.
- Rounding of f32 and f64 durations: times are reals with the same thresholds.
- Tasks, locks, timers and random numbers: atomic steps with explicit time.
- Handlers of channel messages: the order in which registered handlers run, their panics, and the search for a free handler
  id; the model records which message types have handlers and which envelopes are taken off the ring for them.
- Fields of the link object: they are grouped into three records that are reassigned, so separate aliasing of single fields
  is not captured.
- Keys, identities, destinations and events of a link, which do not influence channel, timers or window.
- `PeerAssembly` is a value in the receiver's map rather than an object of its own; update in place and reassignment coincide,
  since the map owns it.
- The BLE receive queue with its cap and rate limit, and the lists of connected peers: frames and peers are inputs.
- Serial port handling, back-off and reconnects; `usize` saturation of the wire buffer size.
- JSON, base64, hex, base58 and HTTP around media, accounts and transactions: the model starts from decoded values and ends
  at the bytes to submit.
- SQLite: a finite map from ids to rows, with every access allowed to fail; corrupt rows are not modelled.
- Lxmf.ImageBehindValueIff: says nothing of values inside which skipping stops at one of the bytes 5 and 6, because the
  decoder then looks for a field there, and of those that skipping overruns, which are cut short and so no values.
- Lxmf.ImageBehindNestedIff: asks for values without these two bytes altogether, for the same reason.
- Close packets: whether one can be built stays a parameter of the events that may send one.
- The f64 timestamp of a payload: eight bytes that the decoder skips.
- `pending_sends` conservation and one terminal event per message: false as stated, because sequence numbers are reused and
  expiry leaves entries in memory.
- Beacon registry, group registry, receipts, configuration parsing, log ring, announce data and discovery caches: easy
  members only.
- JNI, C and Swift bindings, the TypeScript hook and the example application.
- `channel.rs`'s own `Channel` type, which the link does not use: only its envelopes are modelled.
