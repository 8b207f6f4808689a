# Reticulum-Go: verified core

A Dafny model of the parts of Reticulum-Go whose correctness does not follow from reading one
function: the reliable channel and the byte streams on it, the backbone stream with its framing, the
windowed counters, the token and announce codecs, and three small concurrent protocols.

| module | models |
|---|---|
| `ReceiveRing`, `Envelope`, `Receiver` | inbound half of a channel: 16-bit acceptance window, reorder ring, parallel workers |
| `AdaptiveWindow`, `Sender` | outbound half: sequence reservation, retries, delivery proofs, wakeups |
| `EndToEnd`, `Freshness`, `SequenceWrap`, `Completion` | both halves with a lossy, duplicating, reordering network; runs of any length; what breaks at the wrap; that everything sent can still arrive |
| `Channel` | the channel object, method by method, proved to take the steps of the models above |
| `StreamBuffer`, `StreamOverChannel`, `StreamCompletion` | byte streams: message format, writer, reader, many streams on one channel |
| `Wrappers` | optional values |
| `Bytes`, `Hdlc`, `Backbone`, `Draining` | octet stuffing, the chunked decoder, the transmit queue and write interest |
| `WindowedCounter` | sixty-bucket event counters against the plain event log |
| `Cbc`, `Token`, `Announce` | in-place CBC, padding, tokens, announce packets |
| `ResponseOwnership`, `Blackhole`, `VerdictCache` | control API responses, blackhole table, discovery caches |

A concurrent protocol is a function `Apply(state, event)` whose events are the sections that run
without interruption (under a mutex, or between two of them); an event that is not enabled changes
nothing. `Run` folds a list of events, and a theorem about every run is a statement about every list.
Code that updates fields or arrays in place is a class or a method proved against the same step
functions, so what is proved of the runs is proved of the code's sections.

## What the model assumes

- A failed outlet send or resend puts nothing on the wire. Packets returned by the outlet are
  distinct; the model numbers them in the order in which they were accepted.
- Round-trip times and expiry times are real numbers. Clock readings are inputs.
- The block cipher maps blocks to blocks and its two directions undo each other; HMAC-SHA256 returns
  32 bytes; the compressor's output decompresses to its input for chunks of at most 16384 bytes;
  signatures are checked by an arbitrary predicate. Nothing else is assumed of any primitive.
- Request ids of the control API are unique.

## What is false of the code, and exactly when it is true

- *Resynchronisation of the frame decoder.* After one frame longer than the assembler the decoder
  takes every closing flag for an opening one and never delivers again
  (`Hdlc.SilentAfterOverlong`). It is between frames after a stream if and only if no payload was
  longer than the assembler (`Hdlc.ResyncIff`).
- *In-order, duplicate-free delivery on a channel.* It holds for all runs with at most `n` sends if and
  only if `n` is below 65536 (`SequenceWrap.PrefixUpToIff`): with 65536 sends a late duplicate of the
  first packet is delivered as a new message (`SequenceWrap.WrapDeliversDuplicate`). In runs of any
  length it holds, given how far from the receiver's position an accepted packet may have been sent
  and whether a twin of it may be hidden in the ring, if and only if that distance is at most 65487 and
  there is no hidden twin, or the distance is at most 2 (`SequenceWrap.EnoughIff`). So fresh packets
  alone are not enough: in `SequenceWrap.TwinsBreak` none is more than three messages away, and a
  duplicate that slipped into the ring at the wrap is delivered as a new message one lap later.
- *The receive ring holds no duplicates.* It holds none in all runs that drained at most `n` messages
  if and only if `n` is below 65536 (`SequenceWrap.DistinctUpToIff`, with the run
  `SequenceWrap.WrapDuplicatesInRing`). For one step: inserting keeps a duplicate-free ring
  duplicate-free if and only if no twin hides behind an entry the new one is inserted before
  (`ReceiveRing.EmplaceDistinctIff`).
- *A stream identifier is any 16-bit number.* A writer and a reader opened with the same identifier
  match if and only if it is at most 0x3fff (`StreamBuffer.SameIdIff`).
- *A write fits the outlet.* Without compression a non-empty write fits if and only if the outlet MDU
  is at least 9 (`StreamBuffer.PlainFitsIff`).
- *The rates of a counter are sums over the last 12 and 60 buckets.* Two things break this. An add
  whose clock is 60 buckets or more behind is counted in a newer bucket
  (`WindowedCounter.LandsInOwnBucketIff`, `WindowedCounter.AddRepresentsIff`). And a snapshot whose
  clock is behind the newest bucket still sums the whole ring, so that it counts newer events; because
  the registry reads the clock before it takes the counter's mutex (`pkg/health/registry.go:37`,
  `pkg/health/registry.go:149`), no clock step is needed for that (`WindowedCounter.ReaderBehind`: adds
  at 0 and 295 seconds, read at 290). Without late adds a figure over n buckets at bucket `cur` is
  right for every history whose newest bucket is `last` if and only if cur - n >= last - 60
  (`WindowedCounter.GuaranteedIff`): the short rate may be read up to 48 buckets behind, the long one
  not behind at all. For one history, late adds or not, it is right if and only if what it counts too much
  weighs as much as what it misses (`WindowedCounter.FigureExactIff`).
- *An open stream with bytes left has write interest armed, or a sender about to arm it.* A frame of
  more than 8 MiB overflows the empty queue, and its sender has closed nothing yet
  (`Backbone.OverlongStrands`). The property holds in all runs whose frames are at most `n` bytes if and
  only if `n` is at most 8 MiB (`Backbone.NeverStrandsIff`); with longer ones, the third possibility is
  that a sender is about to close the stream (`Backbone.NoStrandedBytes`). In goroutine mode there is no
  poller: a send leaves nothing in the queue if and only if the socket takes all of it
  (`Backbone.GoModeDrainsIff`, with `Backbone.GoModeLeftover`), and what it leaves waits for the next
  send in every continuation (`Backbone.GoModeWaits`).
- *Blackholed peers never enter the discovery caches.* The code stores the verdict and then asks whether
  to report it, so a blackholed record is cached and not reported (`VerdictCache.DecodedIsCached`,
  `VerdictCache.BlackholedEntersCache`). The documented property holds of a run if and only if no
  successful validation in it was of a blackholed record (`VerdictCache.BlackholedNeverEntersIff`).
- *The cached blackhole set covers `Has`.* It does at a clock reading that is not behind an earlier one
  (`Blackhole.CacheSound`). With readings in any order it does if and only if the set was just rebuilt
  or no entry expires after the reading and by the one it was built at (`Blackhole.ReturnedCoversIff`);
  an entry until 10, a query at 10 and a clock set back to 5 miss it (`Blackhole.ClockBackMisses`).

Smaller observations. `Send` documents that sequence allocation happens only after a successful outlet
send; the code allocates before and restores on failure, which is equivalent because one mutex
serialises senders, and the test that the reservation is still current never fails
(`Sender.ReservationHolds`). The too-large-padding error of `RemovePKCS7Padding` cannot occur.
`DecryptCBC` refuses block sizes above 32 while `EncryptCBC` takes any.

## Model

| member | source | states |
|---|---|---|
| `EndToEnd.DeliveredPrefix` | pkg/channel/channel.go:188-510 | for every interleaving of sends, failed sends, resends, loss, duplication, reordering and parallel dispatch with fewer than 65536 sends, the messages handed to the handlers are a prefix of the messages sent |
| `EndToEnd.DeliveredModulo` | pkg/channel/channel.go:188-510 | in every run without any bound, the k-th delivered message was sent as number h with h congruent to k modulo 65536 |
| `EndToEnd.RunKeepsInv` | pkg/channel/channel.go:188-510 | sender and receiver invariants hold in every run, and every envelope that arrived was sent |
| `Completion.Completes` | pkg/channel/channel.go:188-510 | no dead end: from every reachable state with fewer than 65536 sends, whatever was lost, given up or cleared by a close, some continuation of network and receiver events alone hands the handlers exactly the messages sent |
| `Completion.RunOnWire` | pkg/channel/channel.go:221-292 | in every run each message sent has a transmission on the wire |
| `Completion.Unlock` | pkg/channel/channel.go:416-448 | from every state of the invariants the worker that owns the dispatch lock can finish and release it |
| `SequenceWrap.PrefixUpToIff` | pkg/channel/channel.go:188-510 | all runs with at most n sends deliver a prefix if and only if n < 65536 |
| `SequenceWrap.WrapDeliversDuplicate` | pkg/channel/channel.go:455-510 | a run from the initial state with exactly 65536 sends that delivers an old duplicate as new |
| `SequenceWrap.WrapDuplicatesInRing` | pkg/channel/channel.go:475-490 | a run from the initial state that has drained 65536 messages and leaves the same sequence twice in the ring |
| `SequenceWrap.DistinctUpToIff` | pkg/channel/channel.go:475-510 | the ring is duplicate-free in all runs that drained at most n messages if and only if n < 65536 |
| `SequenceWrap.OldDuplicateDelivered` | pkg/channel/channel.go:455-510 | a run without hidden twins, with one accepted packet from exactly 65488 messages away, that delivers an old duplicate |
| `SequenceWrap.TwinsBreak` | pkg/channel/channel.go:475-510 | a run in which no accepted packet is more than three messages away and a message of one lap is delivered in the next |
| `SequenceWrap.EnoughIff` | pkg/channel/channel.go:428-510 | runs of any length deliver a prefix exactly if accepted packets come from at most 65487 messages away and have no hidden twin, or from at most 2 |
| `Freshness.FreshDelivery` | pkg/channel/channel.go:428-510 | the positive half of that, for every interleaving of any length |
| `Freshness.RunKeepsExact` | pkg/channel/channel.go:428-510 | in such runs what was drained are the messages in order, and the ring holds each of the next few at most once |
| `Freshness.DrainPlaced` | pkg/channel/channel.go:492-510 | draining a ring of distinct near messages yields the next ones in order and leaves such a ring, across wraps |
| `ReceiveRing.AcceptedIffInWindow` | pkg/channel/channel.go:455-473 | a sequence passes the stale and the far-ahead test exactly when it is at most 48 ahead modulo 65536, at the wrap too, in numbers |
| `ReceiveRing.FindSlot` | pkg/channel/channel.go:475-490 | the slot is the first entry the new one goes before, and nothing in front of it is a duplicate |
| `ReceiveRing.EmplaceInserts` | pkg/channel/channel.go:475-490 | inserting puts the new entry in one place and keeps every other entry and their order; a duplicate changes nothing |
| `ReceiveRing.EmplaceConserves` | pkg/channel/channel.go:475-490 | ring after = ring before plus the new entry, as multisets |
| `ReceiveRing.ExpectedIsDrained` | pkg/channel/channel.go:475-510 | the expected sequence, if the ring does not hold it, is inserted and comes out first |
| `ReceiveRing.EmplaceDistinctIff` | pkg/channel/channel.go:475-490 | a duplicate-free ring stays so exactly when there is no hidden twin |
| `ReceiveRing.EmplaceSorted` | pkg/channel/channel.go:475-490 | before the wrap, inserting keeps the ring strictly sorted and in the window, and changes it exactly when the sequence is new |
| `ReceiveRing.Drain` | pkg/channel/channel.go:492-510 | after draining, the ring does not hold the next expected sequence |
| `ReceiveRing.DrainConserves` | pkg/channel/channel.go:492-510 | ring before = ring after plus drained run, as multisets |
| `ReceiveRing.DrainConsecutive` | pkg/channel/channel.go:492-510 | the drained run carries consecutive sequences from the cursor, across the wrap, and the cursor moves past exactly that run |
| `ReceiveRing.DrainSorted` | pkg/channel/channel.go:492-510 | draining keeps the ring sorted and strictly ahead of the cursor; only a run to the top of the sequence space wraps it, and that run empties the ring |
| `ReceiveRing.InboundTidy` | pkg/channel/channel.go:428-510 | one accepted packet before the wrap keeps the ring sorted and in next+1 .. next+48 |
| `ReceiveRing.TidyBound` | pkg/channel/channel.go:466-473 | such a ring is duplicate-free and holds at most 48 entries |
| `ReceiveRing.NoHiddenTwin` | pkg/channel/channel.go:475-490 | if the unwrapped entries are sorted among themselves, no accepted sequence has a hidden twin |
| `ReceiveRing.EmplaceUnrepeated` | pkg/channel/channel.go:475-490 | inserting an accepted sequence keeps the ring duplicate-free and its unwrapped entries sorted, with wrapped ones waiting too |
| `ReceiveRing.DrainUnrepeated` | pkg/channel/channel.go:492-510 | draining keeps that as long as the cursor does not wrap |
| `Envelope.ParsePack` | pkg/channel/channel.go:171-181 | a packed envelope parses to itself whatever bytes follow it |
| `Envelope.PackParse` | pkg/channel/channel.go:381-392 | whatever parses starts with the packing of what it parses to |
| `Envelope.WireLayout` | pkg/channel/channel.go:171-181 | type, sequence and length with the high byte first, then the body; refused exactly above 65535 bytes |
| `Envelope.NotParsed` | pkg/channel/channel.go:381-392 | refused exactly below six bytes or below the length the header promises |
| `Receiver.RunKeepsInv` | pkg/channel/channel.go:381-451 | lock ownership, drain order and origin of every entry, in every interleaving of workers |
| `Receiver.DispatchOrder` | pkg/channel/channel.go:416-448 | handler log plus the lock holder's undispatched batch is the drained list, for any number of workers |
| `Receiver.DispatchedSequences` | pkg/channel/channel.go:428-448 | the k-th dispatched message carries sequence k modulo 65536 and did arrive, in every run |
| `Receiver.RingBeforeWrap` | pkg/channel/channel.go:455-510 | before the wrap the ring is sorted, duplicate-free, in next+1 .. next+48, at most 48 long |
| `Receiver.RingDistinct` | pkg/channel/channel.go:475-510 | until 65536 messages were drained the ring holds no sequence twice |
| `Receiver.NothingLost` | pkg/channel/channel.go:428-510 | in every run what was put into the ring = drained + still in the ring + in it when it was closed, as multisets; without a close nothing is missing |
| `Receiver.PacketPath` | pkg/channel/channel.go:381-415 | a packet that parses, unpacks and is in the window goes on to the lock |
| `Receiver.ProcessPath` | pkg/channel/channel.go:428-440 | under the lock it is put into the ring exactly if it is in the window and has a slot, and drained at once if it is the expected one |
| `Receiver.CloseLaw` | pkg/channel/channel.go:693-706 | a close empties the ring and leaves cursor, drained list and workers |
| `AdaptiveWindow.WindowBounds` | pkg/channel/channel.go:613-648 | for any deliveries at any round-trip times and any timeouts from either initial setting, 1 <= window <= max <= 48, min <= max, and min never decreases |
| `AdaptiveWindow.InitialIs` | pkg/channel/channel.go:102-122 | the two initial settings, in numbers |
| `AdaptiveWindow.DeliveryLaw` | pkg/channel/channel.go:613-638 | a delivery opens the window by one up to its limit, and moves the limits exactly at the tenth fast or medium round |
| `AdaptiveWindow.FastRoundsAre` | pkg/channel/channel.go:613-638 | in every run the fast rounds are the fast deliveries since the last slower one |
| `AdaptiveWindow.MediumRoundsAre` | pkg/channel/channel.go:613-638 | in every run the medium rounds are the medium deliveries since the last slow one |
| `AdaptiveWindow.FastLink` | pkg/channel/channel.go:613-638 | the window after any number of fast deliveries, in closed form |
| `AdaptiveWindow.TimeoutLaw` | pkg/channel/channel.go:641-648 | the window after any number of timeouts, in closed form |
| `Sender.RunKeepsInv` | pkg/channel/channel.go:188-323 | sequence, wire, room, accounting, tries and wakeup invariants in every run |
| `Sender.SenderAccounting` | pkg/channel/channel.go:188-316 | at every quiescent state the next sequence is the number of successful sends modulo 65536; each send is exactly one of outstanding, delivered, given up, dropped; at most 48 outstanding; at most five transmissions each |
| `Sender.GivenUpAfterFive` | pkg/channel/channel.go:259-292 | in every run a given-up envelope was transmitted exactly five times, unless a resend of it was refused, and then fewer |
| `Sender.TimeoutLaw` | pkg/channel/channel.go:259-292 | with fewer than five tries and an outlet that resends, the entry stays in its place with one try more; otherwise it leaves the ring and the waiters are released |
| `Sender.ResendTransmits` | pkg/channel/channel.go:259-292 | in every run such a timeout adds exactly one transmission, of that envelope, and gives nothing up |
| `Sender.DeliveryLaw` | pkg/channel/channel.go:295-316 | a delivery proof removes exactly its envelope, opens the window and releases the waiters |
| `Sender.CloseLaw` | pkg/channel/channel.go:693-706 | a close drops exactly what is outstanding |
| `Sender.ReservationHolds` | pkg/channel/channel.go:201-219 | the reserved sequence is always still current at commit |
| `Sender.NoLostWakeup` | pkg/channel/channel.go:550-573 | a waiter blocked on an unclosed generation that saw the outlet up implies a full window; a blocked idle waiter implies a non-empty ring |
| `Sender.WaitLaw` | pkg/channel/channel.go:550-684 | `WaitReady` returns at once exactly if the outlet is up and the window has room, `WaitTxIdle` exactly if nothing is outstanding; anyone else blocks on the generation captured before the test |
| `Sender.EveryoneReleased` | pkg/channel/channel.go:259-332 | in every run a delivery, a give-up, a close and a dead outlet release everyone who is waiting |
| `Sender.Find` | pkg/channel/channel.go:266-270 | the first entry of the packet, or none |
| `Channel.Channel.constructor` | pkg/channel/channel.go:102-122 | starts in the initial state of the models |
| `Channel.Channel.Send` | pkg/channel/channel.go:188-248 | the call takes the steps of the sender model; refusals and outlet failures leave every field as it was; exactly when each error is returned and when the message is sent, in numbers |
| `Channel.Channel.HandleTimeout` | pkg/channel/channel.go:259-292 | takes the timeout step of the sender model, the one that `Sender.TimeoutLaw` and `Sender.GivenUpAfterFive` pin down |
| `Channel.Channel.HandleDelivered` | pkg/channel/channel.go:295-316 | takes the delivery step of the sender model, the one of `Sender.DeliveryLaw` |
| `Channel.Channel.AdjustWindowOnDelivered` | pkg/channel/channel.go:613-638 | takes the delivery step of the window model |
| `Channel.Channel.ShrinkWindowOnTimeout` | pkg/channel/channel.go:641-648 | takes the timeout step of the window model |
| `Channel.Channel.EmplaceRX` | pkg/channel/channel.go:475-490 | if it reports an insertion the ring is the old one with the new entry in one place, otherwise the old one; which place is that of `ReceiveRing.FindSlot` |
| `Channel.Channel.FindRX` | pkg/channel/channel.go:494-501 | the first entry with the sequence, or none |
| `Channel.Channel.DrainRX` | pkg/channel/channel.go:492-510 | ring, cursor and output are those of the drain that is proved conserving and consecutive |
| `Channel.Channel.Receive` | pkg/channel/channel.go:428-440 | exactly the accepted and new sequences are emplaced and drained; anything else changes nothing |
| `Channel.Channel.Close` | pkg/channel/channel.go:693-706 | empties both rings and releases the waiters |
| `StreamBuffer.UnpackPack` | pkg/buffer/buffer.go:26-58 | unpacking a packed message gives it back with the identifier cut to 14 bits |
| `StreamBuffer.PackUnpack` | pkg/buffer/buffer.go:26-58 | every body of two bytes or more is the packing of what it unpacks to |
| `StreamBuffer.StreamLayout` | pkg/buffer/buffer.go:26-58 | top bit end of stream, next bit compressed, fourteen bits of identifier, high byte first, then the data |
| `StreamBuffer.NotUnpacked` | pkg/buffer/buffer.go:46-49 | refused exactly below two bytes |
| `StreamBuffer.SameIdIff` | pkg/buffer/buffer.go:157-161 | same identifier on both ends matches exactly up to 0x3fff |
| `StreamBuffer.TryCompress` | pkg/buffer/buffer.go:277-288 | a chosen fraction lies in the buffer, compresses well and is not empty |
| `StreamBuffer.TriesInOrder` | pkg/buffer/buffer.go:277-288 | the whole buffer, its half or its third, the first of them that compresses to less than itself and less than the limit |
| `StreamBuffer.CompressedIff` | pkg/buffer/buffer.go:265-295 | a write is compressed exactly if the policy allows it, more than 32 bytes are at hand and one of the tries is worthwhile |
| `StreamBuffer.PlainTakes` | pkg/buffer/buffer.go:265-295 | an uncompressed write takes the whole buffer up to 16384 bytes and up to the outlet MDU less eight, one byte below nine |
| `StreamBuffer.LimitsAre` | pkg/buffer/buffer.go:251-257 | the outlet and stream limits, in numbers |
| `StreamBuffer.ComposeFaithful` | pkg/buffer/buffer.go:265-295 | the message decodes to exactly the bytes the write reports, at least one of a non-empty buffer |
| `StreamBuffer.ComposeFits` | pkg/buffer/buffer.go:251-295 | every write fits an outlet MDU of nine or more, compressed or not |
| `StreamBuffer.PlainFitsIff` | pkg/buffer/buffer.go:251-295 | an uncompressed write fits exactly when the MDU is nine or more |
| `StreamBuffer.ByteStreamConservation` | pkg/buffer/buffer.go:105-305 | with any number of streams interleaved, read + buffered + not yet dispatched = reported by the writers, absent the overflow drop |
| `StreamBuffer.EofOnlyAfterDrain` | pkg/buffer/buffer.go:105-118 | end of stream is reported only after an end-of-stream message and after every delivered byte was read |
| `StreamBuffer.RunKeepsInv` | pkg/buffer/buffer.go:105-305 | every reader agrees with the delivered part of the write log in every run |
| `StreamBuffer.OverflowedIff` | pkg/buffer/buffer.go:157-202 | in every run a reader drops data exactly when its unread bytes went over 8388608 at some point |
| `StreamBuffer.WriteLaw` | pkg/buffer/buffer.go:265-311 | an accepted write that fits is logged with a prefix of its buffer, one byte at least, and marked as the end exactly after a close; a close logs an empty end-of-stream message |
| `StreamBuffer.StepLaw` | pkg/buffer/buffer.go:105-118 | a dispatch moves on by one message; a read hands out as much as there is and is asked for |
| `StreamBuffer.RawChannelWriter.Compressed` | pkg/buffer/buffer.go:277-288 | the loop finds the first fraction that compresses well, or none |
| `StreamBuffer.RawChannelWriter.NextMessage` | pkg/buffer/buffer.go:265-295 | the write composes the message proved faithful and fitting |
| `StreamBuffer.ReadOnceKeeps` | pkg/buffer/buffer.go:105-118 | a read moves bytes from the buffer to the application and loses none |
| `StreamBuffer.RawChannelWriter.WriteContext` | pkg/buffer/buffer.go:265-305 | reports bytes exactly when the message went out, otherwise zero |
| `StreamBuffer.RawChannelWriter.Close` | pkg/buffer/buffer.go:307-311 | marks the stream ended and sends an empty end-of-stream message exactly when the channel takes it |
| `StreamBuffer.RawChannelReader.HandleMessage` | pkg/buffer/buffer.go:157-202 | takes exactly the messages of its stream; appends the decoded bytes unless more than 8388608 would be buffered, and notes the end of the stream |
| `StreamBuffer.RawChannelReader.Read` | pkg/buffer/buffer.go:105-118 | returns and removes the first bytes of the buffer, as many as there are and are asked for; end of stream exactly when it is empty and ended |
| `StreamOverChannel.ReaderSeesPrefix` | pkg/buffer/buffer.go:157-202 | over the lossy network, with anything else on the channel, a reader has been given a prefix of the bytes sent on its stream |
| `StreamOverChannel.StreamEndToEnd` | pkg/buffer/buffer.go:105-305 | in every run of writers, other senders, channel, lossy network, dispatch and reads, with fewer than 65536 sends: what was read from a stream plus what its reader buffers is what its writers reported for the messages dispatched so far, and a prefix of all they reported, absent the overflow drop |
| `StreamOverChannel.EndOfStreamEndToEnd` | pkg/buffer/buffer.go:105-311 | when a read reports end of stream, every dispatched byte has been read, and a dispatched message ended the stream with everything its writer reported before its close in front of it |
| `StreamOverChannel.OverflowedIff` | pkg/buffer/buffer.go:157-202 | over the real channel too, a reader drops data exactly when its unread bytes went over 8388608 at some point |
| `StreamOverChannel.BeginLaw` | pkg/buffer/buffer.go:265-311 | with no call in progress and room in the window, a write, a close and any other message enter the channel as the message they stand for |
| `StreamCompletion.StreamCompletes` | pkg/buffer/buffer.go:105-311 | no dead end: from every reachable state with fewer than 65536 sends in which the reader dropped nothing, network, receiver and reads alone can give the application exactly what the writers reported |
| `StreamCompletion.Follow` | pkg/buffer/buffer.go:105-202 | a reader that is read after every event follows any such continuation of the channel without an overflow |
| `StreamOverChannel.RunKeepsInv` | pkg/buffer/buffer.go:105-311 | in those runs every send is logged with its origin, end-of-stream messages come last for each writer, and every reader agrees with what was dispatched |
| `StreamOverChannel.AbsorbedIsReported` | pkg/buffer/buffer.go:157-305 | what a reader takes from the messages sent is what the writers of its stream reported, whatever else was sent between |
| `Hdlc.AppendEscape` | pkg/backbone/hdlc.go:152-161 | appends the escaping that the decoder is proved to undo |
| `Hdlc.AppendFrame` | pkg/backbone/hdlc.go:164-168 | appends one whole frame |
| `Hdlc.StuffedByte` | pkg/backbone/hdlc.go:152-161 | 0x7E becomes 0x7D 0x5E, 0x7D becomes 0x7D 0x5D, every other byte itself |
| `Hdlc.FrameShape` | pkg/backbone/hdlc.go:164-168 | a frame is the payload, one byte more for each special byte and two flags, which appear at its ends only |
| `Hdlc.SegmentDecoded` | pkg/backbone/hdlc.go:92-119 | what any flag-free stretch inside a frame decodes to, malformed escapes included |
| `Hdlc.HDLCDecoder.constructor` | pkg/backbone/hdlc.go:31-44 | starts between frames |
| `Hdlc.HDLCDecoder.Feed` | pkg/backbone/hdlc.go:46-79 | the chunked loop reaches the state and makes the callbacks of the byte-at-a-time decoder |
| `Hdlc.HDLCDecoder.AppendRun` | pkg/backbone/hdlc.go:81-90 | appends the run, or abandons the frame when it does not fit |
| `Hdlc.HDLCDecoder.FeedByte` | pkg/backbone/hdlc.go:92-119 | takes the reference step for one byte |
| `Hdlc.HDLCDecoder.EmitPacket` | pkg/backbone/hdlc.go:121-134 | hands out payloads of 20 bytes up to the MTU and nothing else |
| `Hdlc.HDLCDecoder.Reset` | pkg/backbone/hdlc.go:136-140 | back between frames, packets handed out stay |
| `Hdlc.FeedAppend` | pkg/backbone/hdlc.go:46-119 | feeding two chunks is feeding their concatenation |
| `Hdlc.FeedKeepsValid` | pkg/backbone/hdlc.go:81-134 | escape implies in frame, out of frame implies no data, data never exceeds the assembler, packets are never revoked |
| `Hdlc.RunIsBytewise` | pkg/backbone/hdlc.go:81-119 | appending a run without flags and escapes is feeding each byte |
| `Hdlc.DecodeEscaped` | pkg/backbone/hdlc.go:92-161 | inside a frame the escaped payload decodes to the payload, or the frame is abandoned if it is too long |
| `Hdlc.FrameFromIdle` | pkg/backbone/hdlc.go:92-168 | what one frame does to a decoder between frames, over-long ones included |
| `Hdlc.FrameFromDesync` | pkg/backbone/hdlc.go:92-119 | a desynchronised decoder swallows a whole frame and stays desynchronised |
| `Hdlc.DecodeStream` | pkg/backbone/hdlc.go:46-168 | exactly what is delivered for any list of payloads: the emittable ones before the first over-long one |
| `Hdlc.ResyncIff` | pkg/backbone/hdlc.go:81-119 | the decoder is between frames afterwards exactly when no payload was over-long |
| `Hdlc.SilentAfterOverlong` | pkg/backbone/hdlc.go:81-119 | after one over-long payload nothing is delivered, whatever follows |
| `Hdlc.RoundTripIff` | pkg/backbone/hdlc.go:46-168 | the peer gets exactly the payloads sent, in order, if and only if each is deliverable |
| `Hdlc.DeliverableIff` | pkg/backbone/hdlc.go:31-134 | deliverable means 20 bytes up to the MTU, or up to 2048 if the MTU is not positive |
| `Backbone.Stream.constructor` | pkg/backbone/hub.go:165-212 | an empty queue without write interest |
| `Backbone.Stream.QueueSend` | pkg/backbone/hub.go:237-277 | appends one frame; reports overflow exactly above 8388608 bytes, and that write interest must be armed exactly if it was not wanted |
| `Backbone.QueueLaw` | pkg/backbone/hub.go:237-277 | the same of the step that the system takes |
| `Backbone.Stream.WriteTake` | pkg/backbone/hub.go:440-453 | the locked step of the write event: takes the whole queue, or turns write interest off when it is empty |
| `Backbone.Stream.WriteReturn` | pkg/backbone/hub.go:455-482 | the unwritten tail goes back in front of what was queued meanwhile; interest goes off only when nothing is left |
| `Backbone.ByteConservation` | pkg/backbone/hub.go:237-482 | in every run with partial writes and concurrent senders, wire + in flight + queued is the framing of everything queued, in order |
| `Backbone.EndToEndExact` | pkg/backbone/hub.go:237-482 | in every run the peer has a prefix of what the queued payloads decode to, and all of it once everything is read |
| `Backbone.EndToEnd` | pkg/backbone/hub.go:237-482 | for payloads of 20 bytes up to the MTU the peer has an in-order prefix of what was queued |
| `Backbone.FittingNeverStrands` | pkg/backbone/hub.go:237-482 | with frames of at most 8 MiB, an open stream with bytes left has write interest armed or a sender about to arm it, in every run |
| `Backbone.OverlongStrands` | pkg/backbone/hub.go:262-267 | one longer frame is left with neither |
| `Backbone.NeverStrandsIff` | pkg/backbone/hub.go:237-482 | all runs with frames of at most n bytes keep it if and only if n is at most 8 MiB |
| `Backbone.NoStrandedBytes` | pkg/backbone/hub.go:237-482 | whatever the frames: armed, or a sender about to arm, or one about to close the stream |
| `Draining.Drains` | pkg/backbone/hub.go:237-482 | no dead end: from every reachable state of an open stream whose frames fit, without another send and with write events only while interest is armed, every queued byte can reach the wire and the peer all that the payloads decode to |
| `Backbone.ClosedIsFinal` | pkg/backbone/hub.go:237-240 | once a stream is closed and the sends past the test are done, nothing is queued or armed in any continuation |
| `Backbone.CloseLaw` | pkg/backbone/hub.go:320-331 | both ways of closing close the stream and take write interest away |
| `Backbone.WantedIsArmed` | pkg/backbone/hub.go:268-276 | an open stream whose write flag is set is armed, or the sender that set it is about to arm it: no disarm overtakes a newer arm |
| `Backbone.GoModeDrainsIff` | pkg/backbone/hub.go:241-261 | without a poller, a send leaves the queue empty exactly when the socket takes all of it |
| `Backbone.GoModeWaits` | pkg/backbone/hub.go:241-261 | what it leaves stays there in every continuation without another send |
| `Backbone.GoModeLeftover` | pkg/backbone/hub.go:241-261 | an open stream with bytes left and no one about to write them |
| `Backbone.DisarmOnlyWhenDrained` | pkg/backbone/hub.go:440-482 | an event that turns interest off on an open stream leaves no byte and lets the next payload arm again |
| `WindowedCounter.BucketSlot` | pkg/health/window.go:30-36 | the slot is the index modulo 60, negative ones too |
| `WindowedCounter.BucketSpan` | pkg/health/window.go:26-28 | bucket b holds the five seconds from 5b on; bucket 0 nine seconds, negative ones mirrored, because the division truncates |
| `WindowedCounter.AdvanceRepresents` | pkg/health/window.go:58-77 | moving the window forgets only buckets that fall out of it |
| `WindowedCounter.LandsInOwnBucketIff` | pkg/health/window.go:38-45 | an add is counted in its own bucket exactly when the clock has not fallen back by the whole ring, otherwise in a newer one |
| `WindowedCounter.AddRepresents` | pkg/health/window.go:38-45 | any add at any time keeps ring and log in agreement, as counted where it landed |
| `WindowedCounter.AddRepresentsIff` | pkg/health/window.go:38-45 | ring and log agree on it as made at its own time exactly when the clock has not fallen back by the whole ring |
| `WindowedCounter.RunRepresents` | pkg/health/window.go:38-77 | ring and log agree after every list of adds and snapshots at whatever times |
| `WindowedCounter.SnapshotCounts` | pkg/health/window.go:47-88 | after any events at any times the total is the sum of all adds, and a figure over n buckets the sum of what is live in their slots |
| `WindowedCounter.LongFigureIsRing` | pkg/health/window.go:47-88 | the long rate sums the whole ring whatever the reader's clock says |
| `WindowedCounter.FigureExactIff` | pkg/health/window.go:47-88 | a figure is the log's sum exactly when what it counts too much and what it misses agree modulo 2^64, for all events at any times |
| `WindowedCounter.GuaranteedIff` | pkg/health/window.go:47-88 | a figure over n buckets is right for every history without late adds exactly when cur - n >= last - 60 |
| `WindowedCounter.ReaderBehind` | pkg/health/registry.go:148-149 | histories without late adds, read one bucket behind: the long rate is 2 and the log's sum is 1 |
| `WindowedCounter.SnapshotExact` | pkg/health/window.go:47-56 | for any adds and snapshots at non-decreasing times the three figures are the sums of the log, of its last 12 and of its last 60 buckets, modulo 2^64 |
| `WindowedCounter.SnapshotOrdered` | pkg/health/window.go:47-56 | short rate <= long rate <= total after any events at any times, while the total fits 64 bits |
| `WindowedCounter.WindowedCounter.AddEvents` | pkg/health/window.go:38-45 | takes the add step of the model |
| `WindowedCounter.WindowedCounter.Snapshot` | pkg/health/window.go:47-56 | returns the three sums of the advanced ring |
| `WindowedCounter.WindowedCounter.AdvanceLocked` | pkg/health/window.go:58-77 | the clearing loop takes the advance step of the model |
| `WindowedCounter.WindowedCounter.SumLocked` | pkg/health/window.go:79-88 | the wrapping sum of the newest buckets, at most 60 |
| `Cbc.DecryptedEncrypted` | pkg/cryptography/cbc.go:16-57 | decryption undoes encryption under the same IV for every cipher that undoes itself on blocks |
| `Cbc.EncryptedDecrypted` | pkg/cryptography/cbc.go:16-57 | encryption undoes decryption likewise |
| `Cbc.ChainingLaw` | pkg/cryptography/cbc.go:16-32 | each ciphertext block is the encryption of its plaintext block combined with the ciphertext block before it, the first with the IV |
| `Bytes.XorAt` | pkg/cryptography/cbc.go:22-30 | exclusive or, bit by bit |
| `Cbc.EncryptCBC` | pkg/cryptography/cbc.go:16-32 | in place, the buffer becomes its chained encryption and the part before it is untouched; refused exactly for a wrong IV size or a partial block |
| `Cbc.DecryptCBC` | pkg/cryptography/cbc.go:37-57 | the destination, possibly the source itself, becomes the chained decryption; when it is refused nothing changes |
| `Cbc.RoundTrip` | pkg/cryptography/cbc.go:16-57 | encrypting in place and decrypting, in place or apart, gives the plaintext |
| `Token.RemovePKCS7Padding` | pkg/cryptography/pkcs7.go:29-54 | succeeds exactly on padded data and returns its preimage |
| `Token.PadInjective` | pkg/cryptography/pkcs7.go:29-54 | that preimage is unique |
| `Token.LayOut` | pkg/cryptography/aes.go:31-41 | IV, plaintext and padding in one array |
| `Token.EncryptAESCBC` | pkg/cryptography/aes.go:21-46 | IV followed by the chained encryption of the padded plaintext |
| `Token.DecryptAESCBC` | pkg/cryptography/aes.go:48-72 | opens exactly the sealed messages, and which refusal is given when |
| `Token.SplitTokenKey` | pkg/cryptography/token.go:22-31 | exactly 32- and 64-byte keys split, into two halves that make up the key |
| `Token.EncryptToken` | pkg/cryptography/token.go:34-45 | the sealed plaintext followed by its MAC, or a key error |
| `Token.IsTokenIff` | pkg/cryptography/token.go:34-62 | passing the opener's tests is the same as being an output of the encrypter |
| `Token.TokenLayout` | pkg/cryptography/token.go:22-45 | IV, chained encryption of the padded plaintext and 32 bytes of keyed hash over both; the first half of the key authenticates, the second encrypts |
| `Token.DecryptToken` | pkg/cryptography/token.go:48-62 | opens exactly the tokens the encrypter can produce under the key; below 48 bytes it is too short, and the hash is the first thing tested after that |
| `Token.TokenInjective` | pkg/cryptography/token.go:34-62 | a token determines its IV and plaintext |
| `Token.TokenRoundTrip` | pkg/cryptography/token.go:34-62 | decrypting an encrypted token gives the plaintext, for both key sizes and every IV |
| `Announce.BuiltIff` | pkg/announce/announce.go:355-450 | a packet is built exactly for application data up to 333 bytes, 301 with a ratchet |
| `Announce.BuiltFrom` | pkg/announce/announce.go:355-450 | a longer destination hash is cut, a ratchet of another length left out, and it fails exactly if signing those fields does |
| `Announce.BuiltBytes` | pkg/announce/announce.go:355-450 | the bytes of a built packet, flag by flag and field by field |
| `Announce.ParsesIff` | pkg/announce/announce.go:172-263 | the parser accepts exactly the laid-out packets and finds the one way each is laid out |
| `Announce.NotParsed` | pkg/announce/announce.go:172-240 | which refusal is given when, in numbers |
| `Announce.ParseLosesNothing` | pkg/announce/announce.go:172-263 | the fields, put back in wire order, are the packet |
| `Announce.ParseLaidOut` | pkg/announce/announce.go:197-263 | any packet in wire order, of either header type, parses to its fields |
| `Announce.ParseBuilt` | pkg/announce/announce.go:355-450 | parsing a built packet recovers every field, with or without a ratchet |
| `Announce.ParseForwarded` | pkg/announce/announce.go:204-232 | inserting a transport id as header type 2 does not change what is parsed |
| `Announce.BuiltIsAccepted` | pkg/announce/announce.go:172-306 | what its owner built verifies and is accepted, directly and after forwarding |
| `Announce.AcceptedIff` | pkg/announce/announce.go:172-306 | an announce is accepted exactly if it is laid out as a packet with a valid key, a signature that verifies over destination hash, key, name hash, random hash, ratchet and application data, and the destination hash of its name and key |
| `Announce.RefusedAs` | pkg/announce/announce.go:265-306 | and otherwise which of the three tests refuses it |
| `Announce.ParseWithCursor` | pkg/announce/announce.go:172-263 | the cursor code is the parser proved exact |
| `Announce.AppendKeys` | pkg/announce/announce.go:274-275 | appending the signing key to the key slice leaves the packet unchanged |
| `ResponseOwnership.Session.AwaitResponse` | pkg/controlapi/session.go:96-102 | hands out a fresh channel and takes the registration step of the interleaved system |
| `ResponseOwnership.Session.TakeForDelivery` | pkg/controlapi/session.go:107-113 | takes the step that makes the caller the request's only deliverer, exactly when it returns the request's channel |
| `ResponseOwnership.Session.SendResponse` | pkg/controlapi/session.go:117 | in every reachable state the channel is empty, so the send does not block, and it is the delivery step |
| `ResponseOwnership.Session.DeliverResponse` | pkg/controlapi/session.go:107-119 | a whole call reports success exactly when the system records this payload as delivered |
| `ResponseOwnership.Session.ForgetResponse` | pkg/controlapi/session.go:123-131 | the handler returns nil exactly when this call removes the entry, and otherwise waits for the value |
| `ResponseOwnership.Session.ReceiveResponse` | pkg/controlapi/destination.go:155-165 | the handler returns the value that its channel holds |
| `ResponseOwnership.RunKeepsInv` | pkg/controlapi/destination.go:137-170 | each request is pending, taken, buffered or returned consistently, in every interleaving |
| `ResponseOwnership.AtMostOneSuccess` | pkg/controlapi/session.go:107-119 | at most one delivery per request succeeds |
| `ResponseOwnership.ReturnedIffDelivered` | pkg/controlapi/destination.go:152-168 | the handler returns a payload exactly when the delivery of that payload succeeded, and nil exactly when none did or will |
| `ResponseOwnership.NoOneBlocks` | pkg/controlapi/destination.go:152-168 | no delivery blocks, and a handler that lost the entry is one unblocked send away from its value |
| `ResponseOwnership.RankNeverGrows` | pkg/controlapi/destination.go:152-168 | no event of anyone moves a request further from returning |
| `ResponseOwnership.Progress` | pkg/controlapi/destination.go:152-168 | in every run, a request whose timer has fired and whose handler has not returned has an enabled event that brings it strictly closer |
| `ResponseOwnership.WaitingGetsResponse` | pkg/controlapi/destination.go:137-170 | a response to a waiting request, taken, sent and received, is what its handler returns |
| `ResponseOwnership.WaitingTimesOut` | pkg/controlapi/destination.go:137-170 | a waiting request that nobody answers returns nil |
| `ResponseOwnership.RegisteredWaits` | pkg/controlapi/session.go:96-102 | a fresh request waits and changes no other |
| `Blackhole.BlackholeTable.Has` | pkg/blackhole/blackhole.go:125-141 | true exactly for present, unexpired identities |
| `Blackhole.BlackholeTable.Add` | pkg/blackhole/blackhole.go:147-171 | a new identity is there with its source, expiry and reason, a present one keeps its entry, others are unchanged; moves the generation exactly for new ones |
| `Blackhole.BlackholeTable.Remove` | pkg/blackhole/blackhole.go:175-195 | the identity is gone and every other entry unchanged; moves the generation exactly if it was present |
| `Blackhole.BlackholeTable.SweepExpired` | pkg/blackhole/blackhole.go:238-253 | leaves exactly the entries that are not past their time, counts the others, moves the generation if any |
| `Blackhole.BlackholeTable.ActiveIdentitySet` | pkg/blackhole/blackhole.go:259-279 | returns the cached set, rebuilt when the generation has moved |
| `Blackhole.BlackholeTable.MergeEntry` | pkg/blackhole/blackhole.go:445-462 | takes one received entry unless it is malformed, expired or would replace a local one |
| `Blackhole.BlackholeTable.MergeAll` | pkg/blackhole/blackhole.go:443-462 | the merge does not depend on the order in which the map is visited |
| `Blackhole.BlackholeTable.MergeRemote` | pkg/blackhole/blackhole.go:435-466 | merges a well-formed source and moves the generation exactly when something was taken |
| `Blackhole.MergeKeepsLocal` | pkg/blackhole/blackhole.go:443-462 | a merge removes no entry and changes no locally sourced one |
| `Blackhole.MergeLaw` | pkg/blackhole/blackhole.go:435-466 | of each identity: taken with its fields, replacing a non-local entry, exactly if it is well-formed and in time; otherwise unchanged |
| `Blackhole.SweepLaw` | pkg/blackhole/blackhole.go:238-253 | of each identity: left exactly if it is not past its time |
| `Blackhole.RemovedIsGone` | pkg/blackhole/blackhole.go:175-279 | in every run, after a removal and until someone adds it again, an identity is neither in the `Has` set nor in the returned set, at any reading |
| `Blackhole.AddedStays` | pkg/blackhole/blackhole.go:147-171 | in every run, an added identity keeps its entry until it is removed, swept past its time or merged by another owner |
| `Blackhole.SweepInvisibleIff` | pkg/blackhole/blackhole.go:238-253 | a sweep at one time is invisible to `Has` at another exactly when no entry expires strictly between, so always from the sweep on |
| `Blackhole.ReturnedIs` | pkg/blackhole/blackhole.go:259-279 | in every run, at clock readings in any order, the returned set is the `Has` set of the present entries at the reading of its rebuild |
| `Blackhole.ReturnedCoversIff` | pkg/blackhole/blackhole.go:259-279 | in every such run it covers `Has` exactly when it was just rebuilt or no entry expires after the reading and by the one it was built at; it always holds present entries only |
| `Blackhole.ReturnedExactIff` | pkg/blackhole/blackhole.go:259-279 | it equals the `Has` set exactly when, besides, none has expired since |
| `Blackhole.ClockBackMisses` | pkg/blackhole/blackhole.go:259-279 | a run with a clock set back in which `Has` reports an identity that the set misses |
| `Blackhole.CacheSound` | pkg/blackhole/blackhole.go:259-279 | at a reading not behind an earlier one: `Has` set <= returned set <= present entries, with equality to the `Has` set after a rebuild |
| `VerdictCache.RememberKeeps` | pkg/discovery/interface_discovery.go:211-235 | the order list stays duplicate-free, lists exactly the keys and is bounded; the new key is in |
| `VerdictCache.Cache.RememberLocked` | pkg/discovery/interface_discovery.go:211-235 | insertion with its eviction loop is the first-in-first-out step of the model |
| `VerdictCache.CachesSound` | pkg/discovery/interface_discovery.go:108-176 | over all interleavings: one validation at a time, of a key in neither cache; disjoint caches; both well-formed and holding the newest insertions |
| `VerdictCache.EvictionIsOldest` | pkg/discovery/interface_discovery.go:211-235 | a verdict is cached exactly while it is among the 2048 newest of its kind |
| `VerdictCache.DecodedIsCached` | pkg/discovery/interface_discovery.go:151-176 | in every run a record that decodes enters the cache, blackholed or not, and is reported exactly if it is not |
| `VerdictCache.RejectedIsCached` | pkg/discovery/interface_discovery.go:152-158 | in every run a record that is refused enters the invalid cache, is not reported, and is ignored when it comes again |
| `VerdictCache.ArrivalLaw` | pkg/discovery/interface_discovery.go:117-145 | what an arrival does: ignored, reported from the cache, dropped while another is validated, or validated |
| `VerdictCache.BlackholedEntersCache` | pkg/discovery/interface_discovery.go:151-176 | a run that reports nothing and leaves a blackholed record in the cache |
| `VerdictCache.BlackholedNeverEntersIff` | pkg/discovery/interface_discovery.go:108-176 | nothing blackholed enters the cache in a run exactly when no successful validation was of a blackholed record |
| `VerdictCache.ReportedIsValid` | pkg/discovery/interface_discovery.go:108-176 | what is reported was found valid, and what was found valid is reported if nothing was blackholed |

## Left out

- EndToEnd.DeliveredPrefix: stated for fewer than 65536 sends because it is false beyond; `SequenceWrap.PrefixUpToIff` proves the bound exact and `SequenceWrap.EnoughIff` says what longer runs need.
- Receiver.RingBeforeWrap: sortedness is stated up to 48 before the wrap, where wrapped entries begin to wait behind larger ones; `RingDistinct` carries the absence of duplicates to the wrap itself.
- Backbone.NoStrandedBytes: for the event-loop mode, like `FittingNeverStrands`; the goroutine mode has no write interest and is described by the `GoMode` lemmas.
- Backbone.EndToEnd: no bound on the transmit queue is claimed, because the unwritten remainder is put back without a test.
- StreamBuffer.ByteStreamConservation: excludes readers that dropped data at their 8 MiB bound, as the code does; `OverflowedIff` says exactly when that is.
- StreamOverChannel.StreamEndToEnd: for fewer than 65536 sends, the bound of the channel below it; messages of the stream type come from writers only.
- WindowedCounter.SnapshotExact: for non-decreasing times, because it is false otherwise; `GuaranteedIff` and `FigureExactIff` say when.
- Sender.NoLostWakeup: says nothing about waiters that saw the outlet down; the code leaves those to its one-second recheck.
- VerdictCache.CachesSound: a cached verdict is not claimed to equal a fresh one, since the key skips the flag byte; the in-place update of a cached record is not modelled, and the answer of the blackhole test is an input.
- Sockets, pollers, file descriptors and accept loops: the poller is one armed bit, the socket writes any prefix.
- bzip2, AES, HMAC, SHA-256, Ed25519 and msgpack: abstract functions.
- Which handler of a channel takes a message, handler registration, and errors from a message's own `Pack`.
- Packet timeout durations, envelope pooling, receipt tracking, logging and health counters.
- Reader callbacks, `WaitReadable`, and stream identifiers above 16 bits, which the code truncates.
- `identity.Remember` and the announce handlers after the destination hash test; retransmission of announces.
- 64-bit overflow of the blackhole generations; Blackhole persistence, source filtering and the wire format of its table.
- Completion.Completes: says what the network can still bring, not that it will; loss without end, fairness and timing are not modelled.
- `bufio` wrappers, links, transport, routing, configuration, command line and bindings.
