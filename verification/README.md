# KCP engine: model and proofs

A Dafny model of a KCP transport: the ARQ engine and its wire format, the actor that drives it and
the byte stream on top of that. `dafny verify dfyconfig.toml` verifies the project (Dafny 4.11).

## What is modelled

Three levels, each proved against the one below it.

**One engine.** `EngineSpec.dfy` says what each engine operation does to a `State`, as functions.
They take the arithmetic of sequence numbers as a parameter: `Wrapping` is what the program runs
(u32, plain `+` wrapping, comparison by the sign of the difference), `Exact` numbers segments by
unbounded integers. Everything else (timestamps, RTT, congestion window, back-off) is u32 in both.
The clock is an argument. `KcpEngine.dfy` has the same operations as a class whose methods update
its fields in place, loop by loop as the program does (binary search, pop loops, the packet loop
over bytes), and proves each equal to its function in `Wrapping`. On the functions rest the
invariants of every run (`SendSide`, `RecvSide`, `Packing`, `Congestion`, `RoundTripTime`,
`Deadlines`) and, for runs in real time, `SegmentLife` and `NoStall`. What one packet and one flush
do to each field is said over the fields themselves, without those functions, in `InputRules`,
`AckTiming`, `WindowGrowth`, `FlushRules`, `StreamQueue` and `Wakeups`.

**Two engines and a network.** `Network.dfy` is a transition system in which any datagram ever
handed over can be delivered at any time, any number of times or never. Histories record what `send`
accepted, the bytes it queued (including the prefix a rejected stream-mode `send` leaves behind),
the segment each number was given to, and what `recv` returned. `NetworkSafety`, `Delivery`,
`Progress`, `WindowProbe` and `Continuation` are about this system in `Exact` numbers. `Refinement`
and `ByteNetwork` show that the system the program runs, 32-bit numbers and bytes on the wire, takes
exactly the same steps, as long as no datagram is delivered 2^31 numbers late. Delivery is carried
over there, and needs no assumption at all until 2 GiB have been written, for the engines and for
the shell on top; progress by rounds, the transmission counts and the absence of a silent stall are
carried over in `Carryover`; the window probe and the continuation are stated in `Exact` numbers
only. `StaleRuns` has a run in which delivery fails without the assumption.

**The shell.** `ActorSpec` and `StreamSpec` are one turn of the actor's loop and the calls of the
stream, over 32-bit engines and bytes, with `select!` as a choice among enabled events. `Driver.dfy`
has them as classes (a bounded channel, the actor with its drain and absorb loops, the stream) and
proves each method equal to its function. `Shell` puts two such sides and the network together;
`ShellTrace` shows that every run of it drives the two engines through a run of the byte-level
system; `ShellSafety` and `ShellDelivery` draw the conclusions from application to application.
`ActorRules` and `StreamRules` say what one turn puts on the network, when it ends the connection, and
what one call of the stream comes to.

Reading order: Word, Protocol, EngineSpec, EngineRun; SendSide, RecvSide, Fragments, Packing;
RoundTripTime, Congestion, Deadlines; AckTiming, WindowGrowth, FlushRules, StreamQueue, Wakeups; Network, NetworkSafety, Delivery, Progress, WindowProbe,
HalfRounds, Continuation; SegmentLife, NoStall; Refinement, ByteNetwork, Carryover; EngineLoops, KcpEngine;
ActorSpec, StreamSpec, Shell, ShellTrace, ShellSafety, ShellDelivery, ActorRules, StreamRules, Driver;
Scripts, FailingRuns, WindowRange, InputRules, StaleRuns, Counterexamples.

Configurations are those `KcpConfig::validate` lets through (kcp/config.rs:154-173), as types.

## Where the code and the expectations part

The model follows the code. Each of these is a lemma with the exact condition; and where a failure
takes more than one call to reach, there is a run of the code, from new engines on, that reaches it.

- A rejected `send` leaves the engine untouched if and only if nothing was merged into the last
  queued segment (`Fragments.RejectionChangesNothingIff`); in stream mode, after one byte, a message
  one segment too long leaves a prefix behind (`Counterexamples.StreamErrorLeavesPrefix`).
- A full receive queue is readable if and only if the next message has no more fragments than the
  receiver's window (`Delivery.FullQueueIsReadableIff`). `send` goes by its own window, and never by
  more than 128 fragments, so this holds in every run whenever the sender's `rcv_wnd` is not the
  larger one, or the receiver's is 128 or more. A message wider than the receiver's window is never
  returned, nor anything after it (`Delivery.WideMessageIsNeverDelivered`), once accepted
  (`Counterexamples.WideMessageBlocks`).
- Back-off has no cap. A segment that timed out waits again if and only if the backed-off timeout is
  below 2^31 ms, and beyond that is due again at once; in normal mode, with no longer an update
  interval, the bound on the timeout is exactly 2^30 ms (`Deadlines.BackoffLastsIff`); 24 timeouts in
  a row are enough (`FailingRuns.BackoffRunsOut`). A flush leaves every timer running if and only if
  each fits (`Deadlines.FlushLeavesDeadlines`).
- `check` is exact at all times if and only if some timer runs and a probe deadline that wrapped to 0,
  which it takes for none (kcp-core/src/engine.rs:508), is not the next one (`Deadlines.CheckIsExactIff`,
  `FailingRuns.ProbeIsOverlooked`).
- A flush can end with a wider window than it numbered segments for, which `check` does not see: a
  second flush at once numbers something if and only if the first one fast-retransmitted, saw no
  timeout and left less in flight than the new window allows (`Deadlines.SecondFlushNumbersIff`,
  `FailingRuns.SecondFlushHasWork`).
- `recv` can take empty segments off the queue and return nothing, which takes a head message of
  2^32 bytes or more; exactly then a window reopens without being announced, and, if the next segment
  waits, it goes on waiting (`RecvSide.StepKeepsWindow`, `RecvSide.ReopeningIsAnnounced`,
  `FailingRuns.RecvSwallows`).
- The congestion window stays within 16 bits, whatever the send window lets be in flight, if and only
  if half the send window (or 2) plus the fast-resend threshold does, or the threshold is 2^32 - 2 or
  more (`Congestion.ThresholdBoundIsSharp`); and it stays there in every run if and only if that
  holds, or the send window is 1, or at most two transmissions are allowed (`WindowRange.WindowStaysIff`).
- With `max_retries` of 1 a flush fails whenever it numbers something (`Deadlines.FreshFlushSucceedsIff`,
  `FailingRuns.OneTryFails`).
- The 32-bit acceptance tests take an old data segment for new if and only if its distance behind the
  next expected number is, in 32 bits, within the window (`ByteNetwork.StaleAcceptedIff`); after 2^32
  segments a duplicate of the first is handed to the application (`StaleRuns.StaleDataIsDelivered`).
- `poll_write` reports the truth if and only if the caller re-polls with a buffer that begins with
  the parked chunk (`ShellSafety.ReportIsTrueIff`, `Counterexamples.MisreportedWrite`).
- `send_queue_len` and the high-water mark are documented as counting messages
  (kcp-core/src/engine.rs:553-559, kcp/stream.rs:27-29); they count segments, and so does the bound proved.

## Model

| member | source | states |
|---|---|---|
| Word.SerialComparison | kcp-core/src/protocol.rs:269-281 | numbers less than half the circle apart compare, after wrapping, as the integers they stand for (RFC 1982, section 3.2) |
| Word.SerialComparisonFails | kcp-core/src/protocol.rs:269-281 | half the circle or more apart the comparison is reversed: the bound cannot be widened |
| Word.InWindow | kcp-core/src/engine.rs:410-415 | the two comparisons that accept a data segment hold if and only if its offset from `rcv_nxt` is in [0, window), under wrapping |
| Protocol.HeaderRoundTrip | kcp-core/src/protocol.rs:85-112 | decoding the encoding of a header, whatever follows it, gives back the header |
| Protocol.HeaderDecodeInjective | kcp-core/src/protocol.rs:85-112 | any 24 bytes are the encoding of the header they decode to |
| Protocol.HeaderLayout | kcp-core/src/protocol.rs:85-112 | the byte each field of a header starts at, and that multi-byte fields have the lowest byte first, written in single bytes |
| Protocol.WireLayout | kcp-core/src/protocol.rs:171-192 | a segment on the wire is 24 header bytes, with its fields where `HeaderLayout` has them, and its data |
| Protocol.WireRoundTrip | kcp-core/src/protocol.rs:171-192 | a segment in front of any bytes is decoded as sent, up to the 32 bits its numbers keep |
| Protocol.DatagramRoundTrip | kcp-core/src/engine.rs:349-365 | the packet loop finds in packed segments exactly those segments, in order |
| Protocol.ParseIsFaithful | kcp-core/src/engine.rs:349-365 | on any bytes whatever the loop ends, the segments found re-encode to the front of the packet, and the ignored tail holds no complete segment |
| Packing.OutputAllPacks | kcp-core/src/engine.rs:964-975 | appending segments keeps all of them in order and every finished datagram non-empty and within the mtu |
| Packing.PackThenParse | kcp-core/src/engine.rs:964-985 | segments that fit go out in non-empty datagrams of at most mtu bytes, and parsing those finds exactly the segments, in order |
| Packing.FlushEmits | kcp-core/src/engine.rs:462-484 | a flush puts out acknowledgements, then probes, then due data, after what was waiting; nothing stays unpacked if it succeeds |
| Packing.ToSendIsDue | kcp-core/src/engine.rs:844-903 | a segment is transmitted if and only if it is in the buffer and due: new, timed out, or overtaken often enough |
| FlushRules.FlushTransmits | kcp-core/src/engine.rs:781-808 | a flush numbers, in order, as many queued segments as the smallest of the windows leaves room for, and gives every segment of the buffer, old and new, the stamp, count, timeout and deadline that its being new, timed out, overtaken or neither calls for, written out |
| FlushRules.FirstFlight | kcp-core/src/engine.rs:93-151 | a new engine sends the smaller of its window and 128 segments at once, each waiting 200 ms, an eighth longer in normal mode |
| FlushRules.FlushSendsDue | kcp-core/src/engine.rs:810-840 | a flush that succeeds puts out a data segment for each position that is due or new and for no other, with its number, fragment number, data and stamp |
| FlushRules.FlushFailsIff | kcp-core/src/engine.rs:826-835 | a flush of a living link fails if and only if a segment that is due has one transmission left, or a single one is allowed and it numbers something |
| FlushRules.FlushFailsIffDead | kcp-core/src/engine.rs:549-551 | so it fails if and only if it is what makes `is_dead` true |
| FlushRules.FlushSetsWindow | kcp-core/src/engine.rs:906-925 | a flush sets the congestion window by whether a segment timed out, was overtaken, both or neither, and otherwise leaves it |
| FlushRules.KeepAliveProbes | kcp-core/src/engine.rs:576-579 | a keep-alive emits a WASK whatever the peer's window |
| FlushRules.ProbeBacksOff | kcp-core/src/engine.rs:745-764 | with the peer's window closed the probe timer starts at 7 s, grows by half at each probe up to two minutes, and stops when the window opens |
| Packing.EveryRunKeepsSizes | kcp-core/src/engine.rs:242-257 | in every run every queued segment is non-empty and within the mss, every finished datagram within the mtu |
| Packing.FlushPacksGreedily | kcp-core/src/engine.rs:964-985 | acknowledgements, probes and data of a flush share datagrams as far as they fit: none could have taken the segment the next one starts with |
| Packing.UnfinishedIff | kcp-core/src/engine.rs:826-835 | a flush leaves a datagram unfinished if and only if it fails |
| Fragments.FragmentShape | kcp-core/src/engine.rs:224-257 | the fragments of a message are as many as counted, none empty or over the mss, all but the last exactly the mss, and together its bytes |
| Fragments.FragmentCountsDown | kcp-core/src/engine.rs:250-253 | in message mode `frg` counts down to 0 |
| Fragments.CountBound | kcp-core/src/engine.rs:224-240 | a fragment count is within a bound if and only if the length is within that many segments |
| Fragments.SendAppends | kcp-core/src/engine.rs:184-269 | `send` appends exactly the message, or the merged prefix of a rejected one, to the queued bytes |
| Fragments.SendAccepts | kcp-core/src/engine.rs:224-240 | `send` accepts if and only if what is left after merging fits the fragment bound |
| Fragments.RejectionChangesNothingIff | kcp-core/src/engine.rs:194-239 | an error leaves the engine unchanged if and only if no prefix was merged; in message mode always |
| Fragments.HeadMessage | kcp-core/src/engine.rs:292-303 | a complete message at the head of the receive queue is what is peeked and taken, no more and no less |
| StreamQueue.WriteFillsUp | kcp-core/src/engine.rs:191-257 | in stream mode a write fills the last segment up to the mss; the rest takes the ceiling of rest / mss segments and is accepted if and only if it is within the fragment bound times the mss, all in lengths |
| StreamQueue.EveryRunKeepsDense | kcp-core/src/engine.rs:191-257 | in every run in stream mode every queued segment but the last is exactly full |
| Counterexamples.StreamErrorLeavesPrefix | kcp-core/src/engine.rs:194-239 | in stream mode, for every configuration, a message one segment too long sent after one byte is rejected and its first mss - 1 bytes stay queued |
| SendSide.InputKeepsSendInv | kcp-core/src/engine.rs:331-459 | on any packet the send buffer stays strictly ascending in [snd_una, snd_nxt), `snd_una` is its front or `snd_nxt` and never goes back |
| SendSide.FlushKeepsSendInv | kcp-core/src/engine.rs:781-808 | a flush keeps that invariant, `snd_nxt - snd_una <= snd_wnd` included, and does not move `snd_una` |
| SendSide.StepKeepsSendInv | kcp-core/src/engine.rs:184-484 | so does every operation on any data, packet and clock |
| SendSide.EveryRunKeepsSendInv | kcp-core/src/engine.rs:610-634 | the send-side invariant holds in every run, on u32 numbers across the wrap as on integers |
| SendSide.DropUnaPops | kcp-core/src/engine.rs:610-618 | `parse_una` pops exactly the longest prefix of numbers before `una` |
| SendSide.InputSurvivors | kcp-core/src/engine.rs:610-652 | what a packet leaves in the send buffer it changes in nothing but the fast-ack count |
| InputRules.ForeignIsSkipped | kcp-core/src/engine.rs:367-375 | a packet does just what its segments of the own conversation do |
| InputRules.InputReports | kcp-core/src/engine.rs:377-378 | the peer's window is what the last of those said, and an announcement is pending if and only if it was or one of them is a WASK |
| InputRules.NewestIsCredited | kcp-core/src/engine.rs:393-405 | of the ACKs of a packet the first is remembered until one later both in number and in time replaces it |
| InputRules.CreditedIsUnbeaten | kcp-core/src/engine.rs:393-405 | so none after the credited one is later both in number and in time; where both ascend it is the last |
| InputRules.BumpCounts | kcp-core/src/engine.rs:643-651 | exactly the segments before the acknowledged number and not stamped after it are counted as overtaken, once |
| InputRules.InputSettles | kcp-core/src/engine.rs:610-652 | on any packet, if no `una` in it is half the circle away, exactly the segments it acknowledges, by number or `una`, leave the send buffer; each other is counted as overtaken if the credited ACK overtook it, and is otherwise as it was |
| AckTiming.InputAnswers | kcp-core/src/engine.rs:408-418 | a packet adds to the list, in order, the number and time stamp of each PUSH segment of the own conversation below the window's end, and nothing else |
| AckTiming.FlushStamps | kcp-core/src/engine.rs:725-743 | a flush starts with an ACK for each entry of the list, in order, with its number and time stamp; all else is stamped with the time of the flush; every segment tells `rcv_nxt`, the room left and the conversation |
| RecvSide.StepKeepsWindow | kcp-core/src/engine.rs:272-328 | every operation, on packets of any size, keeps `rcv_buf` keys in [rcv_nxt, rcv_nxt + rcv_wnd) and the queue within the window; and `rcv_nxt` out of `rcv_buf` unless the queue is full, if and only if it is not a `recv` that swallows segments while the next one waits |
| RecvSide.EveryRunKeepsWindow | kcp-core/src/engine.rs:654-677 | so in every run, whatever the peer sends |
| RecvSide.HugeQueueIsSwallowed | kcp-core/src/engine.rs:292-307 | a queue of more than 2^32 bytes that starts with an empty segment is swallowed in part |
| FailingRuns.RecvSwallows | kcp-core/src/engine.rs:292-317 | and four packets bring it about: the window reopens, no announcement is pending, and the segment that waited still waits |
| RecvSide.EveryRunKeepsRecvInv | kcp-core/src/engine.rs:654-677 | in every run on packets a transport can deliver nothing is ever swallowed, so the whole invariant holds |
| RecvSide.PeekTakesShort | kcp-core/src/engine.rs:277-307 | while the head message is shorter than 2^32 bytes a positive peeked size is exactly what is popped, on any queue a peer can produce |
| RecvSide.ReopeningIsAnnounced | kcp-core/src/engine.rs:314-317 | on packets of any size the advertised window rises from 0 only in `recv`, and ASK_TELL is set then if and only if it was before or `recv` did not swallow segments |
| RecvSide.RecvAnnouncesIff | kcp-core/src/engine.rs:314-317 | `recv` makes an announcement pending if and only if it returns a message and the queue was full and is not any more |
| RecvSide.PeekIsExact | kcp-core/src/engine.rs:583-608 | below 2^31 bytes at the head nothing is there to read if and only if the queue is empty or as short as its first segment's fragment number; otherwise all up to the first that ends a message |
| Deadlines.AnnouncementIsSent | kcp-core/src/engine.rs:772-775 | with ASK_TELL set the next flush emits a WINS segment carrying the current window and `rcv_nxt` |
| NetworkSafety.OnlyAcknowledgedLeave | kcp-core/src/engine.rs:377-391 | a segment leaves the send buffer only if acknowledged: by its number, or by a later `una` |
| NetworkSafety.RecvDelivers | kcp-core/src/engine.rs:272-328 | `recv` returns the next undelivered message once complete and otherwise nothing, and the queue goes on where it ends |
| NetworkSafety.ApplyIsSafe | kcp-core/src/engine.rs:184-484 | every step of two engines over the network keeps: no segment lost, held segments as numbered, delivered messages a prefix, every datagram ever sent truthful |
| NetworkSafety.EveryRunIsSafe | kcp-core/src/engine.rs:184-484 | the system invariant holds in every reachable state |
| Delivery.DeliveryIsInOrder | kcp-core/src/engine.rs:184-328 | over loss, duplication, reordering and delay, what `recv` returned is a prefix of what `send` accepted, in order and unchanged; in stream mode byte by byte |
| Delivery.NoSegmentIsLost | kcp-core/src/engine.rs:377-418 | every number given out is buffered or held by the peer; what is buffered, kept for reordering and queued for reading is what was numbered; every acknowledgement or `una` ever sent names only held segments |
| Delivery.PayloadNeverChanges | kcp-core/src/engine.rs:790-807 | from when a number is given on, whatever is buffered, transmitted or received under it at any later time carries the same payload and `frg` |
| Delivery.FullQueueIsReadable | kcp-core/src/engine.rs:230-240 | in every run, if every message the sender accepts fits the receiver's window, a full receive queue holds a complete message |
| Delivery.FullQueueIsReadableIff | kcp-core/src/engine.rs:583-608 | in general a full queue is readable if and only if the next message fits the receiver's window |
| Delivery.WideMessageIsNeverDelivered | kcp-core/src/engine.rs:230-240 | in every run, once a message of more fragments than the receiver's window has been accepted, no more messages than those before it are ever returned |
| Counterexamples.WideMessageBlocks | kcp-core/src/engine.rs:230-240 | with a receive window of 1 at the receiver only, a first message of two fragments is accepted, delivered, fills the queue, and whatever happens afterwards nothing is ever returned |
| Delivery.ReadableIff | kcp-core/src/engine.rs:583-608 | `recv` returns something if and only if the queue, which starts at a message boundary, holds all fragments of the next message |
| Progress.FrontIsWanted | kcp-core/src/engine.rs:408-418 | a receiver with room expects nothing older than the sender's oldest segment |
| Progress.RoundAdvances | kcp-core/src/engine.rs:462-484 | a round trip of the oldest segment to a receiver with room strictly advances `snd_una` and leaves strictly less queued and unacknowledged |
| Progress.ReadAndRoundAdvances | kcp-core/src/engine.rs:272-328 | so does a round after the application has read all there is, from any reachable state |
| Progress.RoundsFinish | kcp-core/src/engine.rs:565-567 | as many rounds as there were segments end with `has_unsent_data` false |
| Progress.DueFrontIsSent | kcp-core/src/engine.rs:856-899 | a successful flush transmits the oldest segment when it is new, queued with the window open, or its timer has run out |
| HalfRounds.SentIsListed | kcp-core/src/engine.rs:408-418 | between matched windows, when a flush has been delivered to a receiver with room, each segment still in flight can be sent once more or its acknowledgement is ready |
| HalfRounds.ListedIsDropped | kcp-core/src/engine.rs:620-634 | and the peer's flush, delivered, takes out what was acknowledged, so each segment left can be sent once more |
| Continuation.SomeContinuationFinishes | kcp-core/src/engine.rs:565-567 | between matched windows (each `snd_wnd` at most the other's `rcv_wnd`, messages that fit), from every reachable state in which each segment in flight at either side has one transmission left, some continuation ends with `has_unsent_data` false |
| Continuation.NarrowContinuationFinishes | kcp-core/src/engine.rs:565-567 | between other windows, where messages of the sender fit, the same with 2n transmissions left for each segment in flight at either side, n being the segments queued and in flight at the sender |
| WindowProbe.InputAsks | kcp-core/src/engine.rs:377-437 | a WASK anywhere in a packet leaves an announcement pending, nothing in a packet clears one, and the remote window becomes that of the packet's last segment |
| WindowProbe.FlushTellsWindow | kcp-core/src/engine.rs:725-779 | everything a flush puts out carries the window as it is; a probe timer that goes off puts out a WASK |
| WindowProbe.AnnouncementArrives | kcp-core/src/engine.rs:772-778 | a flush with an announcement pending, once delivered, sets the sender's view to the receiver's window |
| WindowProbe.ProbeFindsWindow | kcp-core/src/engine.rs:745-779 | when a stopped sender's probe timer goes off and the probe and its answer arrive, the sender's window is the one the receiver has: open whenever there is room |
| Refinement.InputWraps | kcp-core/src/engine.rs:331-459 | on a fresh packet the u32 engine makes the decisions of the engine on integers and ends in its image |
| Refinement.FlushWraps | kcp-core/src/engine.rs:462-484 | so does a flush, and it succeeds or fails alike |
| Refinement.RecvWraps | kcp-core/src/engine.rs:272-328 | so does `recv`, returning the same message |
| Refinement.SendWraps | kcp-core/src/engine.rs:184-269 | so does `send`, accepting the same messages |
| Refinement.PushDecisionsWrap | kcp-core/src/engine.rs:408-418 | the acceptance tests for data come out the same within 2^31 less the windows of what has been read |
| ByteNetwork.TimelyIsFresh | kcp-core/src/engine.rs:349-437 | a datagram not 2^31 numbers late is fresh in both directions: true ones are never too far ahead |
| ByteNetwork.ByteRunIsImage | kcp-core/src/engine.rs:331-484 | engines on u32 numbers and bytes do, action by action and across the wrap, what engines on integers do |
| ByteNetwork.DeliveryOverBytes | kcp-core/src/engine.rs:184-328 | in-order, unchanged delivery, of the engines as they run |
| ByteNetwork.ShortRunIsTimely | kcp-core/src/protocol.rs:269-281 | a run in which neither side numbers 2^31 segments less two windows is timely throughout |
| ByteNetwork.ShortBytesAreTimely | kcp-core/src/protocol.rs:269-281 | so is a run of bytes in which neither side queues 2^31 bytes less two windows |
| ByteNetwork.DeliveryOfTwoGigabytes | kcp-core/src/engine.rs:184-328 | until 2 GiB less two windows have been submitted, in-order, unchanged delivery of the engines as they run without any assumption on the network |
| ByteNetwork.StaleAcceptedIff | kcp-core/src/engine.rs:408-418 | exactly which old data segments the 32-bit acceptance tests take for new |
| ByteNetwork.StaleDataIsMistaken | kcp-core/src/engine.rs:654-666 | a duplicate one turn old is queued for reading by the 32-bit engine, in any state, where the exact engine drops it |
| StaleRuns.StaleDataIsDelivered | kcp-core/src/engine.rs:408-418 | after a timely run of 2^32 messages, sent, received, read and acknowledged, one more delivery of the first datagram makes `recv` return a message that no `send` gave it: delivery fails without the assumption |
| Carryover.RunWraps | kcp-core/src/engine.rs:184-484 | every run of an engine on u32 numbers fed with fresh packets is the image of a run on integers |
| Carryover.RoundsFinishOverBytes | kcp-core/src/engine.rs:565-567 | progress by rounds of the engines as they run: as many rounds as there were segments end with `has_unsent_data` false |
| Carryover.BooksAreKeptWrapped | kcp-core/src/engine.rs:549-551 | on u32 numbers too `xmit` counts emissions below `dead_link` and `is_dead` is false while no flush has failed |
| Carryover.NoSilentStallWrapped | kcp-core/src/engine.rs:462-518 | and no silent stall on u32 numbers |
| RoundTripTime.NoOverflow | kcp-core/src/engine.rs:683-710 | on bounded state the estimators are the exact weighted means rounded down: no u32 operation of the smoothing overflows (RFC 6298, section 2) |
| RoundTripTime.SampleKeepsRttInv | kcp-core/src/engine.rs:683-715 | after any sample `avg` and `var` are at most 60000 and `rto` between `min_rto` and 60000 |
| RoundTripTime.EveryRunKeepsRttInv | kcp-core/src/engine.rs:683-715 | so in every run, whatever timestamps a peer echoes |
| RoundTripTime.EstimatorConverges | kcp-core/src/engine.rs:683-715 | on a constant sample r the estimator reaches and keeps r-7 <= avg <= r, var <= 7 and rto <= max(min_rto, r + max(interval, 28)) |
| AckTiming.InputMeasures | kcp-core/src/engine.rs:386-389 | over any packet the estimates are the RFC 6298 means, written out, with a sample of the time passed, at most a minute, for every ACK of the own conversation whose stamp is not in the future |
| AckTiming.SampleIsElapsed | kcp-core/src/engine.rs:683-715 | one ACK stamped t that arrives d ms later, d below 2^31, is a sample of min(d, 60000) |
| AckTiming.InputWithoutSample | kcp-core/src/engine.rs:386-389 | a packet without such an ACK, or with stamps in the future only, leaves the estimates alone |
| AckTiming.RoundTripIsMeasured | kcp-core/src/engine.rs:386-418 | a segment put out at t and acknowledged by the peer's next flush gives the sender, d ms after t, a sample of just d ms |
| Congestion.GrowthIsExact | kcp-core/src/engine.rs:927-951 | in a growth step each product and sum is below 2^32 before wrapping, the result agrees with the integers, `incr < (cwnd + 1) * mss` is kept, and at most 2 is added |
| Congestion.FastLossKeeps | kcp-core/src/engine.rs:906-925 | for a configuration the threshold fits, fast loss with up to `snd_wnd` in flight keeps the window invariant, with `ssthresh` half of what was in flight |
| Congestion.ThresholdBoundIsSharp | kcp-core/src/engine.rs:913-914 | with up to `snd_wnd` in flight the new window is at most 65535 if and only if max(snd_wnd / 2, 2) plus the threshold is, or the threshold is at least 2^32 - 2 |
| Congestion.TimeoutLossKeeps | kcp-core/src/engine.rs:917-925 | after a timeout the window is one segment, the threshold half the window before, or 2 if that is more, the remote window as it was, and the invariant holds |
| Congestion.InputKeepsCwndInv | kcp-core/src/engine.rs:927-951 | one packet grows `cwnd` by at most 2 and never shrinks it |
| WindowGrowth.InputGrowsIff | kcp-core/src/engine.rs:927-951 | over any packet: if `snd_una` moved on and the window is below the remote one that the packet leaves, the window grows by one step over the integers; otherwise it stays as it is |
| WindowGrowth.SlowStartCounts | kcp-core/src/engine.rs:930-932 | below the threshold n such packets open the window by n segments |
| WindowGrowth.WindowOpens | kcp-core/src/engine.rs:933-949 | from any window enough such packets bring it to the peer's |
| Congestion.EveryRunKeepsCwndInv | kcp-core/src/engine.rs:906-951 | in every run of such a configuration 1 <= cwnd <= 65535, ssthresh >= 2 and incr < (cwnd + 1) * mss |
| WindowRange.WindowStaysIff | kcp-core/src/engine.rs:906-951 | that holds in every run if and only if the threshold fits, or `snd_wnd` is 1, or `dead_link` at most 2 |
| WindowRange.OvershootRun | kcp-core/src/engine.rs:636-652 | in any other configuration as many copies of one acknowledgement as the threshold says, and a flush, take `cwnd` above 65535 |
| Congestion.EveryRunKeepsWindowOpen | kcp-core/src/engine.rs:906-951 | for every configuration at all, cwnd >= 1 in every run |
| Deadlines.SoonestIsLeast | kcp-core/src/engine.rs:503-507 | the scan of `check` finds the least time to a retransmission |
| Deadlines.FiresFrom | kcp-core/src/engine.rs:745-764 | with every deadline ahead, a timer goes off from the earliest one on and not before |
| Deadlines.CheckIsExactIff | kcp-core/src/engine.rs:496-518 | `check` announces that time, whatever it is, if and only if the deadline is seen: some timer runs, and a probe deadline of 0 is not the next one |
| Wakeups.CheckIsNowIff | kcp-core/src/engine.rs:496-518 | in any state `check` is 0 if and only if an acknowledgement, ASK_SEND or ASK_TELL is pending or a deadline has come |
| Wakeups.CheckIsFirstDeadline | kcp-core/src/engine.rs:503-517 | with nothing pending it is the time to the first deadline, 30 s if there is none |
| Wakeups.ReopeningWakes | kcp-core/src/engine.rs:314-317 | after a `recv` that reopens the window `check` is 0, and a flush at once tells the peer the window |
| FailingRuns.ProbeIsOverlooked | kcp-core/src/engine.rs:508-511 | a run in which the probe deadline falls on 0: a message waits, a probe is due in 7 s, and `check` says 30 s |
| Deadlines.FlushDoesWhatFires | kcp-core/src/engine.rs:745-770 | a flush puts out a timed-out segment again or a WASK only when a timer goes off, and if it succeeds it does |
| Deadlines.CheckMeetsFlush | kcp-core/src/engine.rs:496-518 | so a successful flush e ms later retransmits on timeout or probes if and only if e is at least what `check` announced |
| Deadlines.SecondFlushNumbersIff | kcp-core/src/engine.rs:906-915 | exactly when a flush ends with room in the window that `check` gives no sign of |
| FailingRuns.SecondFlushHasWork | kcp-core/src/engine.rs:906-915 | a run, for every configuration with congestion control, fast resend, a send window of 3 and 4 transmissions, after which every timer runs, `check` asks for no flush, and a second flush at once numbers the queued segment |
| Deadlines.FreshFlushSucceedsIff | kcp-core/src/engine.rs:826-835 | with nothing in flight a flush succeeds if and only if `dead_link` is at least 2 or it numbers nothing |
| FailingRuns.OneTryFails | kcp-core/src/engine.rs:826-835 | so with `max_retries` of 1 the first flush of the first message reports a lost connection |
| Deadlines.ProbeTimerRuns | kcp-core/src/engine.rs:745-764 | with the peer's window closed a flush leaves a probe scheduled with an interval of 7 to 120 s, running if and only if it was not set exactly half the circle ago; with it open none |
| Deadlines.MarkedRunsIff | kcp-core/src/engine.rs:856-899 | a scan leaves the timer of a segment running if and only if it fits, mark by mark |
| Deadlines.FlushLeavesDeadlines | kcp-core/src/engine.rs:462-518 | a flush leaves every timer running and nothing waiting if and only if the timers it finds fit; with data outstanding something is in flight or a probe scheduled |
| Deadlines.EveryFlushLeavesDeadlines | kcp-core/src/engine.rs:462-518 | so every flush of every run, on any packets, in either arithmetic |
| Deadlines.BackoffLastsIff | kcp-core/src/engine.rs:869-880 | a timed-out segment waits again if and only if its backed-off timeout is below 2^31 ms, with the threshold in each mode; beyond it is due again at once |
| FailingRuns.BackoffRunsOut | kcp-core/src/engine.rs:869-880 | in normal mode with 26 transmissions allowed, a segment flushed at each deadline is due again the moment it is sent the 25th time |
| Deadlines.EveryRunKeepsProbeInv | kcp-core/src/engine.rs:746-764 | in every run the probe interval is 0 or between 7000 and 120000 ms |
| SegmentLife.FlushCounts | kcp-core/src/engine.rs:810-840 | a successful flush puts every due segment out exactly once, and no other data |
| SegmentLife.FlushKeepsTracked | kcp-core/src/engine.rs:844-903 | after it each segment's `xmit` is the number of its emissions and below `dead_link` |
| SegmentLife.BooksAreKept | kcp-core/src/engine.rs:549-551 | while no flush has reported a lost connection, `is_dead` is false, `xmit` counts emissions, and at most 5 were fast ones |
| SegmentLife.LossIsDeclaredLate | kcp-core/src/engine.rs:826-835 | a lost connection means a segment went out for the `dead_link`-th time, in normal mode without fast resend at least (2^(dead_link-1) - 1) initial timeouts after its first |
| SegmentLife.InputKeepsTracked | kcp-core/src/engine.rs:636-652 | each fast-ack counter is the number of distinct packets that acknowledged a later number no earlier sent |
| SegmentLife.NewestIsAnAck | kcp-core/src/engine.rs:393-405 | the number and timestamp a packet is credited with are those of one of its ACK segments |
| SegmentLife.FastResendIsJustified | kcp-core/src/engine.rs:882-892 | a fast resend rests on at least `resend` such packets since the counter was zeroed, and fewer than 5 went before it |
| SegmentLife.LivingTimerFits | kcp-core/src/engine.rs:856-899 | in every mode the timer of a live segment whose back-off fits can only not fit by the millisecond |
| NoStall.TrackIsRun | kcp-core/src/engine.rs:184-484 | the engine of a run in real time is the engine after its operations |
| NoStall.NoSilentStall | kcp-core/src/engine.rs:462-518 | in every mode, after every flush of every run that lives and flushes less than 2^31 ms apart, every timer runs and what is outstanding has one, while the back-off of what is in flight cannot reach 2^31 ms |
| NoStall.BackoffFitsFor | kcp-core/src/engine.rs:869-880 | it cannot as long as doubling the first timeout, or the interval if larger, for each transmission stays below 2^31 ms; nor without delay and congestion control with up to 71581 |
| NoStall.AffordableFor | kcp-core/src/engine.rs:869-880 | so with up to 16 transmissions and an interval of up to a minute, and with up to 20 where interval and first timeout are at most 4095 ms |
| NoStall.NoSilentStallFor | kcp-core/src/engine.rs:462-518 | so for those classes nothing else is needed, the default limit of 20 included |
| KcpEngine.Engine.constructor | kcp-core/src/engine.rs:93-151 | a new engine is in the initial state, with its invariant |
| KcpEngine.Engine.Send | kcp-core/src/engine.rs:184-269 | in place: merges, counts, rejects or queues exactly as the specification, changing nothing but `snd_queue` |
| KcpEngine.Engine.QueueFragments | kcp-core/src/engine.rs:242-257 | the fragmenting loop appends exactly the fragments of the message |
| KcpEngine.Engine.PeekSize | kcp-core/src/engine.rs:583-608 | the counting loop finds the size of the head message |
| KcpEngine.Engine.Recv | kcp-core/src/engine.rs:272-328 | returns the head message and leaves the state the specification says, the announcement flag included |
| KcpEngine.Engine.TakeSegments | kcp-core/src/engine.rs:292-303 | the pop loop takes exactly the message and leaves exactly the rest |
| KcpEngine.Engine.MoveToRecvQueue | kcp-core/src/engine.rs:668-677 | the remove-and-put-back loop moves exactly the consecutive segments there is room for |
| KcpEngine.Engine.Input | kcp-core/src/engine.rs:331-459 | on any bytes: too short a packet changes nothing, any other does what its segments say; no datagram is emitted |
| KcpEngine.Engine.InputSegments | kcp-core/src/engine.rs:343-437 | the packet loop terminates and processes exactly the parsed segments in order |
| KcpEngine.Engine.InputSegment | kcp-core/src/engine.rs:367-436 | one segment's effect, foreign conversations skipped and the newest acknowledgement tracked |
| KcpEngine.Engine.ParseUna | kcp-core/src/engine.rs:610-618 | the pop loop drops exactly the acknowledged prefix |
| KcpEngine.Engine.BinarySearch | kcp-core/src/engine.rs:628-631 | over wrapping keys the search finds the segment if and only if it is there |
| KcpEngine.Engine.ParseAck | kcp-core/src/engine.rs:620-634 | the binary search removes exactly what a linear scan would |
| KcpEngine.Engine.ParseFastack | kcp-core/src/engine.rs:636-652 | the early-exit loop counts exactly the leading segments before the acknowledged one |
| KcpEngine.Engine.ParseData | kcp-core/src/engine.rs:654-666 | a segment in the window is stored once and what became consecutive moves on |
| KcpEngine.Engine.UpdateAck | kcp-core/src/engine.rs:683-715 | one RTT sample |
| KcpEngine.Engine.ShrinkBuf | kcp-core/src/engine.rs:717-723 | `snd_una` becomes the oldest unacknowledged number |
| KcpEngine.Engine.UpdateCwnd | kcp-core/src/engine.rs:927-951 | the window grows if and only if `snd_una` advanced and the peer's window is larger |
| KcpEngine.Engine.OutputSegment | kcp-core/src/engine.rs:964-975 | the bytes in the output buffer and queue are the encodings of the packed segments |
| KcpEngine.Engine.FlushOutBuf | kcp-core/src/engine.rs:980-985 | the rest goes out as one more datagram if there is any |
| KcpEngine.Engine.DrainOutput | kcp-core/src/engine.rs:174-176 | the caller gets exactly the encodings of the finished datagrams, and they are gone |
| KcpEngine.Engine.FlushAcks | kcp-core/src/engine.rs:725-743 | one ACK for every entry of the list, in order, and the list is empty |
| KcpEngine.Engine.HandleWindowProbe | kcp-core/src/engine.rs:745-779 | the probe timer's step and the probes that are pending |
| KcpEngine.Engine.MoveToSendBuf | kcp-core/src/engine.rs:781-808 | numbers and moves exactly what the effective window allows |
| KcpEngine.Engine.MarkSegmentsForSend | kcp-core/src/engine.rs:844-903 | marks each segment, returns exactly the indices of those due, and says whether any timed out or was fast |
| KcpEngine.Engine.FlushDataSegments | kcp-core/src/engine.rs:810-840 | emits what is due up to the first segment whose transmissions are used up, and fails if and only if there is one |
| KcpEngine.Engine.UpdateCongestionOnLoss | kcp-core/src/engine.rs:906-925 | the window after fast loss, timeout, both or neither |
| KcpEngine.Engine.Flush | kcp-core/src/engine.rs:462-484 | a whole flush, keeping the class invariant |
| KcpEngine.Engine.KeepAliveProbe | kcp-core/src/engine.rs:576-579 | a flush with a window probe pending |
| KcpEngine.Engine.Check | kcp-core/src/engine.rs:496-518 | the scan computes the time until the next flush is needed |
| KcpEngine.Engine.IsDead | kcp-core/src/engine.rs:549-551 | true if and only if some segment's transmissions are used up |
| ShellTrace.HandOverTogether | kcp/actor.rs:140-180 | a flush and a keep-alive probe handed over together put on the wire what they would one after the other |
| ShellTrace.TraceIsRun | kcp/actor.rs:127-303 | every run of two streams, actors and engines drives the engines through a run of the byte-level system |
| ShellSafety.EngineTakes | kcp/stream.rs:285-296 | a message the stream admits is never refused by `engine.send` |
| ShellSafety.AbsorbKeeps | kcp/actor.rs:251-273 | absorbing takes messages in order, loses none, keeps the queue bound, and stops only at the high-water mark (never, on a close) or an empty channel |
| ShellSafety.DrainKeeps | kcp/actor.rs:351-362 | every message `recv` hands out is in the data channel, in order: none is taken out and not enqueued |
| ShellSafety.TimerDrains | kcp/actor.rs:180-184 | after a timer turn no complete message waits in the engine while the data channel could take it |
| ShellSafety.PacketDrains | kcp/actor.rs:221-237 | so after a packet's turn, for any packet a transport delivers |
| ShellSafety.TurnKeeps | kcp/actor.rs:134-302 | a turn of the loop, whatever the event, loses nothing between the channels and the engine and keeps the bounds |
| ShellSafety.EveryRunKeepsWorld | kcp/actor.rs:127-303 | in every run everything pushed is taken or waiting, everything delivered is pulled or waiting, and the engine has queued exactly what was taken |
| ShellSafety.BackpressureBound | kcp/actor.rs:246-273 | before a close the send queue holds at most max(4 * snd_wnd, 64) - 1 + min(rcv_wnd, 128) segments, the channels at most 16 and 256 messages |
| ActorRules.PacketServes | kcp/actor.rs:221-237 | in the turn a packet comes in, everything then listed is acknowledged on the wire, every segment due or new is sent, and the window is filled as far as there is data |
| ActorRules.PacketIsAnswered | kcp/actor.rs:221-237 | so every data segment below the window's end is acknowledged, with its number and time stamp, in a datagram of the turn it arrives in |
| ActorRules.TimerServes | kcp/actor.rs:140-184 | a timer turn that goes on does the same, and with the peer silent for a keep-alive window a WASK follows |
| ActorRules.OutboundServes | kcp/actor.rs:251-282 | a turn that takes data takes the first messages in order, until the channel is empty or max(64, 4 * snd_wnd) segments are queued, and sends what the window allows |
| ActorRules.CommandServes | kcp/actor.rs:189-193 | a flush the application asks for does the work of a flush |
| ActorRules.CloseServes | kcp/actor.rs:200-216 | so does a close, over all it absorbed |
| ActorRules.LeavingServes | kcp/actor.rs:293-302 | and a closing connection once more when it leaves |
| ActorRules.TurnFailsIff | kcp/actor.rs:140-282 | a turn ends the connection as failed if and only if the network is gone, the peer was silent three windows, or the flush of the turn uses up a segment's transmissions |
| ActorRules.ClosingEndsIff | kcp/actor.rs:293-302 | a turn ends it as acknowledged if and only if it is closing with nothing unsent, and as expired if and only if it is closing late with something unsent |
| ActorRules.CloseTakesAll | kcp/actor.rs:200-216 | a close takes everything that was written, and afterwards, or with the writers gone, no turn takes anything but a close |
| ActorRules.ServedWhileClosing | kcp/actor.rs:134-285 | a closing connection serves its timer and the network only; an open one also commands, and data below max(64, 4 * snd_wnd) queued segments |
| ActorRules.EveryRunKeepsSound | kcp/actor.rs:127-303 | in every run of two connections both engines meet what these rules suppose |
| ShellSafety.ReportIsTrueIff | kcp/stream.rs:466-513 | a count `poll_write` returns is true of the caller's buffer if and only if that begins with the parked chunk |
| Counterexamples.MisreportedWrite | kcp/stream.rs:496-512 | a run in which a caller that polls again with another byte is told it was written, and the parked one goes out |
| ShellSafety.EveryRunKeepsView | kcp/stream.rs:421-513 | for disciplined callers the counts reported are the bytes pushed, and the bytes read, with what is left over, those pulled |
| ShellSafety.ZeroReadIsEof | kcp/stream.rs:421-461 | a read of 0 bytes into a non-empty buffer happens if and only if the stream is at its end or closed |
| StreamRules.WriteIsExact | kcp/stream.rs:466-513 | a write fails if and only if the stream is closed or its actor gone, waits, with its chunk parked, if and only if the channel is full, and otherwise puts exactly one chunk of at most an mss on the channel |
| StreamRules.WaitingWriteIsMade | kcp/stream.rs:496-512 | a write that waited is made once, with the bytes first offered |
| StreamRules.WriteAllCuts | kcp/stream.rs:478-488 | writing a whole buffer puts it on the channel as chunks of exactly an mss and a last one with the rest |
| StreamRules.SendIsExact | kcp/stream.rs:278-296 | when a message is refused for its length, refused as closed, made to wait, and put on the channel whole |
| StreamRules.ReadIsExact | kcp/stream.rs:421-461 | a read hands out as much as fits of what is left over or else of the next message, and waits if and only if there is nothing and more may come |
| StreamRules.MessageInPieces | kcp/stream.rs:421-461 | k reads of a message give its first k times room bytes, in order, and keep the rest |
| StreamRules.ReceiveIsExact | kcp/stream.rs:299-304 | a message is received whole, past what reads left over; none if and only if the stream is closed or at its end |
| ShellDelivery.PulledIsPrefix | kcp/stream.rs:278-304 | the messages one application gets are the first non-empty ones the other sent, in order; their bytes a prefix |
| ShellDelivery.BytesReadWereWritten | kcp/stream.rs:421-513 | the bytes read at one side are a prefix of the bytes reported written at the other |
| ShellDelivery.HeldIsReadable | kcp-core/src/engine.rs:565-567 | with nothing unsent, a peer whose `recv` has nothing more to return has returned everything |
| ShellDelivery.CleanCloseIsHeld | kcp/actor.rs:200-216 | when an actor left because nothing was unsent, all it ever took, what it absorbed on Close included, was numbered, and every number is held by the peer engine |
| ShellDelivery.ReadOutIsAll | kcp/actor.rs:293-302 | and what the peer's engine has returned when its `recv` returns no more is exactly what was taken, as long as messages fit |
| ShellDelivery.CleanClose | kcp/actor.rs:293-302 | and it comes to that: after finitely many reads, the sender gone, `recv` has no more to return |
| ShellDelivery.StreamOfTwoGigabytes | kcp/stream.rs:421-513 | until 2 GiB less two windows have been pushed, messages and bytes arrive as sent without any assumption on the network |
| ShellDelivery.CloseOfTwoGigabytes | kcp/actor.rs:293-302 | and a clean close loses nothing |
| Driver.EngineActor.FlushOutput | kcp/actor.rs:311-328 | every finished datagram goes to the transport, in order |
| Driver.EngineActor.DrainRecv | kcp/actor.rs:351-362 | the reserve-then-receive loop moves exactly the messages there is room for |
| Driver.EngineActor.OnTimer | kcp/actor.rs:140-184 | the timer branch: flush, keep-alive probe or silence, hand-over, drain; leaving on a fatal error |
| Driver.EngineActor.OnClose | kcp/actor.rs:200-215 | the close branch absorbs all that is buffered, stops taking more and flushes |
| Driver.EngineActor.OnPacket | kcp/actor.rs:221-237 | the packet branch: input, flush, hand-over, drain |
| Driver.EngineActor.OnOutbound | kcp/actor.rs:251-282 | the data branch takes one message and what else is there below the high-water mark, then flushes once |
| Driver.EngineActor.CloseCheck | kcp/actor.rs:293-302 | a closing actor leaves if and only if nothing is unsent or the deadline has passed |
| Driver.EngineActor.Turn | kcp/actor.rs:127-303 | one turn of the event loop on any enabled event |
| Driver.KcpStream.PollWrite | kcp/stream.rs:466-513 | at most one mss is handed over, or parked while the channel is full; broken pipe when closed or the actor is gone |
| Driver.KcpStream.PollRead | kcp/stream.rs:421-461 | left-over bytes first, then the next message; pending or end of stream otherwise |
| Driver.KcpStream.Send | kcp/stream.rs:278-296 | one whole message, refused if longer than mss times the fragment bound |
| Driver.KcpStream.Recv | kcp/stream.rs:299-304 | the next message, or none when closed |

## Left out

- ByteNetwork.DeliveryOverBytes: assumes that no datagram is delivered 2^31 numbers less two windows late; `StaleDataIsDelivered` shows delivery fails without it.
- ByteNetwork.ByteRunIsImage: under the same assumption.
- RecvSide.EveryRunKeepsRecvInv: for packets of at most 65536 bytes, the most the receive task reads (kcp/stream.rs:365); `EveryRunKeepsWindow` is for any.
- Congestion.EveryRunKeepsCwndInv: for configurations the fast-resend threshold fits, which validation does not enforce; `WindowStaysIff` has the exact class.
- InputRules.InputSettles: for packets without a `una` half the circle away from the window, where the pop loop, which stops at the first number it does not drop, is the only rule (`SendSide.DropUnaPops`).
- NoStall.NoSilentStall: supposes flushes less than 24.8 days apart and that no back-off can reach 2^31 ms; `EveryFlushLeavesDeadlines` has the exact condition, `NoSilentStallFor` classes that meet it.
- SegmentLife.LossIsDeclaredLate: the time bound is for segments never fast-retransmitted, in normal mode, whose back-off cannot reach 2^31 ms.
- Continuation.SomeContinuationFinishes: for matched windows, such as 32 and 128 at both sides; `NarrowContinuationFinishes`, for others, supposes on every segment in flight at both sides twice as many transmissions left as the sender has segments queued and in flight.
- ShellDelivery.CleanClose: says nothing of a close that ends at the linger deadline or on a failed connection; that all was returned supposes that the sender's messages fit the peer's `rcv_wnd`.
- ShellDelivery.BytesReadWereWritten: for writers that re-poll with the same bytes and readers that do not call `recv` while `poll_read` has bytes left over.
- Progress.RoundAdvances: the round is a hypothesis; that a network delivers one and a clock reaches the timer is not something the program can promise. `Continuation` shows that one is always possible.
- Of a queued or received segment only `frg` and data are kept; `wnd` and `una` of a buffered segment are rewritten on every transmission and appear in the transmitted segment alone.
- Whole messages awaited in `KcpStream::send` and the boxed futures of `poll_write`, `poll_flush` and `poll_shutdown` are modelled as calls that wait and are made again; wakers and one-shot replies are not.
- When the actor stops on a fatal error the engine and any unsent datagrams go down with it; the model keeps the state before the failing flush.
- `update`'s interval gate, `idle_ms` and the keep-alive clock: a timer turn is given what it finds.
- `set_conv` and the server's handshake from conversation 0: both sides start with the same conversation.
- Statistics, tracing, `simulate_packet_loss`, `random_conv_id`, configuration builders and presets, error conversion.
- UDP transport, tasks and real timers; the listener.
- Allocation of `Bytes` and `BytesMut`: byte sequences.
- Zero-length or inconsistent PUSH segments of a peer that is not this engine: the one-engine invariants cover them, delivery supposes both sides run this engine.
