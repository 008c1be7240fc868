# RDTP transfer and OpenFlow controller core: a verified model

A Dafny model of two families of code, with the properties they exist for proved over every input,
every run or every reachable state.

**RDTP reliable transfer.** `Segments` is the wire format and its checksum; `FileChunks` cuts files and
writes chunks back in place; `Flow` holds the sending and receiving halves of the flow state, as the
classes `FlowSender` and `FlowReceiver` proved against the functions `FillWindow`, `OnSenderEvent`,
`OnSegment` and `OnReceiverEvent`; `BusyWaitTimer` is the timer list. `Transfer` joins the two halves by a
network that may lose, duplicate and reorder, proves the invariant that spans both nodes and draws the
safety results from it. `TransferProgress` shows that a live transfer can always be completed and exactly
which transfers can complete at all; `TransferLiveness` bounds every run in which losses are bounded.
`TransferSpan` settles when the sender stays within `windowSize` of its base: the code limits the number of
packets in flight, not their span, so the bound holds in every run only for a window of one, a file that
fits the window, or numbers that run out of 16 bits at once. `SelectiveRepeat` shows that both halves end in the
same state whatever the order and the repetitions of what arrives, and exactly what goes out and is answered.

**OpenFlow and SDN.** `ShortestPaths` is the in-place all-pairs shortest path with its reconstruction,
cooked paths and cache. `OfpMatch` is the match with its wildcard bits and 40-byte wire format,
`MatchContainment` its containment order, `MatchObject` the object that is fixed and unpacked in place,
`PacketMatch` the matches built from packets, and `PacketContainment` what containment says of packets.
`FlowTable` and `FlowMods` are the priority-ordered table and the flow mods, refined from an unordered set
of entries. `Nat` is port allocation, the two record tables and the two flows of a record. `Framing` cuts
the byte stream into messages. `DeferredSender` interleaves the sending thread with the thread that
finishes incomplete writes, and `DeferredLiveness` bounds how long they take. `ConfigScript` is the stack machine for conditional script lines and the tree
interpreter it implements.

`Wrappers`, `Collections` and `ByteStrings` hold an option type, a fact about finite sets, and byte strings.

How the code is rendered:

- Objects that the code updates in place are classes; each method is tied to a function of the old state,
  and the lemmas are about those functions. Lists and dictionaries are `seq` and `map` fields.
- Exceptions and error returns are values (`Option`, a boolean, a reply code). Clocks, random choices, the
  answers of sockets and the decisions of unpackers are parameters.
- Table entries carry a number that stands for the identity of the object; later entries have larger ones.
- Properties that fail for some inputs come with the exact condition: `Segments.RoundTrip`,
  `TransferProgress.CompletableIff`, `TransferSpan.TextbookBoundIff`, `OfpMatch.FlowModRoundTripExact`,
  `OfpMatch.PlainRoundTrip`, `MatchContainment.ContainsIff`, `PacketContainment.TakesPacketsIff`,
  `PacketContainment.InclusionIff`, `Nat.NAT.Create`, `Nat.NAT.Expire`.

Where the code and what surrounds it disagree, the model follows the code:

- The comment on `_unwire_wildcards` and `fix` asks for the logic of `_wire_wildcards`; for IPv6 the latter
  keeps the type-of-service and protocol wildcards on the wire while the others wildcard them. The round
  trip still holds.
- The receiver compares a checksum with itself, because decoding drops the wire checksum;
  `Segments.ReencodeIff` states what a real comparison would have to demand.
- A transfer above 16-bit sequence numbers raises inside the sender, which swallows the error; such a
  transfer runs on without ever completing.
- When the port pool is exhausted a record without a port is stored all the same; two such
  records may share an incoming match, and expiring one raises.

To check the whole project: `dafny verify dfyconfig.toml`.

## Model

| member | source | states |
|---|---|---|
| `Segments.CalculateChecksum` | TP 1 RDTP/src/lib/segment/segment.py:27-38 | the accumulating loop yields the 16-bit value that complements the sum of the header words and the payload words, and raises exactly for declared lengths the payload cannot serve (a trailing odd byte is read from the end of the payload) |
| `Segments.DecodeOfEncode` | TP 1 RDTP/src/lib/segment/segment.py:70-86 | whatever can be encoded decodes to the same fields, with the flags cut down to six bits |
| `Segments.RoundTrip` | TP 1 RDTP/src/lib/segment/segment.py:70-86 | decoding undoes encoding if and only if seq < 2^16, length <= 2047 and flags < 64 |
| `Segments.ReencodeIff` | TP 1 RDTP/src/lib/segment/segment.py:70-96 | which received bytes a decoded segment reproduces: exactly those with the right checksum and zeroes in the unused header bits (the dropped wire checksum is why the checksum must be demanded) |
| `Segments.FlagBits` | TP 1 RDTP/src/lib/segment/segment.py:40-56 | a data segment is never taken for an acknowledgement or a termination, an acknowledgement never for a SYN or a termination, whatever the type bits |
| `Segments.FlagsAreBits` | TP 1 RDTP/src/lib/segment/segment.py:40-56 | every flag is read from its own bit of the header, whatever the others are; a FIN or an ERR terminates |
| `FileChunks.ReadAllChunks` | TP 1 RDTP/src/lib/file_manager/file_reader.py:51-60 | the read loop returns the file cut every chunkSize bytes |
| `FileChunks.ReadBatch` | TP 1 RDTP/src/lib/file_manager/file_reader.py:27-41 | the batch loop returns the cut of windowSize chunks' worth of bytes from the offset, or of what is left of the file |
| `FileChunks.BatchIsWindow` | TP 1 RDTP/src/lib/file_manager/file_reader.py:27-60 | a batch read at a chunk boundary is the matching window of the whole file's chunks |
| `FileChunks.ConcatOfChunks` | TP 1 RDTP/src/lib/file_manager/file_reader.py:51-60 | the chunks of a file, joined, are the file |
| `FileChunks.ChunkAt` | TP 1 RDTP/src/lib/file_manager/file_reader.py:51-60 | chunk i holds exactly the bytes from i * chunkSize on; no chunk is empty or too long |
| `FileChunks.ChunkCount` | TP 1 RDTP/src/lib/file_manager/file_reader.py:51-60 | there are as many chunks as the length divided by the chunk size, rounded up |
| `FileChunks.UploadsFitTheHeader` | TP 1 RDTP/src/lib/state/fin_state.py:37-51 | for files up to 20 MB every chunk fits the 11-bit length field and every sequence number fits 16 bits, up to the FIN on the wire, which is made twice and so numbered two above the last chunk's successor |
| `FileChunks.FileWriter.WriteChunk` | TP 1 RDTP/src/lib/file_manager/file_writer.py:26-37 | writes in place at the offset, or refuses and changes nothing exactly when the data would run past the declared size |
| `FileChunks.FileWriter.WriteBatch` | TP 1 RDTP/src/lib/file_manager/file_writer.py:39-50 | the chunk-by-chunk writes put their concatenation at the offset, or nothing is written exactly when the total would run past the declared size |
| `FileChunks.RunningWrite` | TP 1 RDTP/src/lib/state/flow_state.py:284-285 | a write at the running offset extends the finished prefix and leaves it intact |
| `Flow.FlowSender.MakeWindow` | TP 1 RDTP/src/lib/state/flow_state.py:119-133 | the new packets are the next chunks in order, as many as unsent chunks and free places in flight allow; nextSequenceNumber advances past them |
| `Flow.FlowSender.SendWindow` | TP 1 RDTP/src/lib/state/flow_state.py:135-141 | every packet is sent, enters the packets in flight and gets one timer, in order |
| `Flow.Filled` | TP 1 RDTP/src/lib/state/flow_state.py:119-141 | filling the window adds to the packets in flight exactly the chunks numbered from next on, one timer each, and changes nothing else |
| `Flow.FilledSize` | TP 1 RDTP/src/lib/state/flow_state.py:121-123 | filling the window adds at most its room to the number in flight |
| `Flow.FlowSender.FillAndSend` | TP 1 RDTP/src/lib/state/flow_state.py:75-78 | one pass over the top of the sending loop sends the window and registers it |
| `Flow.FlowSender.HandleAck` | TP 1 RDTP/src/lib/state/flow_state.py:143-157 | an unknown acknowledgement changes nothing; a known one removes its packet and all its timers and moves the base to the first packet still outstanding, or to next |
| `Flow.FlowSender.HandleTimeout` | TP 1 RDTP/src/lib/state/flow_state.py:159-170 | a packet still in flight is sent again with a fresh timer; otherwise nothing happens |
| `Flow.FlowSender.HandleEvent` | TP 1 RDTP/src/lib/state/flow_state.py:80-104 | which events end the sending loop, which are ignored, and what the others do to the window |
| `Flow.ContiguousEnd` | TP 1 RDTP/src/lib/state/flow_state.py:271-279 | the first number from the base on that is not buffered; everything between is buffered |
| `Flow.FlowReceiver.TakeContiguous` | TP 1 RDTP/src/lib/state/flow_state.py:267-279 | the loop takes out exactly the contiguous run, in order, with its byte count |
| `Flow.FlowReceiver.WriteContiguousPackets` | TP 1 RDTP/src/lib/state/flow_state.py:267-289 | the contiguous run is written at the running offset and leaves the buffer |
| `Flow.FlowReceiver.HandleSegmentReceived` | TP 1 RDTP/src/lib/state/flow_state.py:212-265 | acknowledgements are ignored, a FIN is noted, old and buffered packets are acknowledged again, packets beyond the window dropped silently, new ones buffered, acknowledged and written as far as contiguous |
| `Flow.FlowReceiver.HandleEvent` | TP 1 RDTP/src/lib/state/flow_state.py:179-200 | one turn of the receiving loop: it finishes on an abort, or once a FIN was seen and the whole file is there |
| `Transfer.WireOf` | TP 1 RDTP/src/lib/protocol/sender.py:12-16 | what the socket carries for a segment: itself, or nothing when its number does not fit and the sender swallows the error |
| `Transfer.FillInv` | TP 1 RDTP/src/lib/state/flow_state.py:75-78 | filling the window keeps the cross-node invariant |
| `Transfer.ConsumeInv` | TP 1 RDTP/src/lib/state/flow_state.py:80-104 | handling any queued event keeps the cross-node invariant |
| `Transfer.AckKeeps` | TP 1 RDTP/src/lib/state/flow_state.py:143-157 | an acknowledgement of a received packet keeps the sender's half of the invariant: what leaves the window was received |
| `Transfer.OnPacketInv` | TP 1 RDTP/src/lib/state/flow_state.py:212-260 | a packet at or below the receiver's base is always acknowledged, the base packet raises the base, and every byte written is the right one |
| `Transfer.WriteContiguousInv` | TP 1 RDTP/src/lib/state/flow_state.py:267-289 | writing the contiguous run extends the right prefix and never fails for lack of room |
| `Transfer.ReceiveInv` | TP 1 RDTP/src/lib/state/flow_state.py:192-200 | the receiver's turn keeps the cross-node invariant |
| `Transfer.StepInv` | TP 1 RDTP/src/lib/state/flow_state.py:75-289 | every step of sender, receiver, timer and network keeps the invariant |
| `Transfer.RunInv` | TP 1 RDTP/src/lib/state/flow_state.py:75-289 | the invariant holds in every state of every run |
| `Transfer.SafeAtAllTimes` | TP 1 RDTP/src/lib/state/flow_state.py:212-289 | in every reachable state, over loss, duplication and reordering, the downloaded bytes are the file's, every buffered segment holds the right chunk and no write ran past the declared size |
| `Transfer.BaseBehind` | TP 1 RDTP/src/lib/state/flow_state.py:154-157 | base <= recvBase <= next |
| `Transfer.CompletedMeansDelivered` | TP 1 RDTP/src/lib/state/flow_state.py:75-113 | when the sending loop ends with everything acknowledged, the receiver has already written the whole file: shutting down is safe |
| `Transfer.FinishedMeansDelivered` | TP 1 RDTP/src/lib/state/flow_state.py:199-210 | a download that finishes without an abort has the whole file |
| `Transfer.WindowBound` | TP 1 RDTP/src/lib/state/flow_state.py:121-133 | next <= recvBase + receiveWindowSize + windowSize - 1, at most windowSize packets in flight, and the base in flight unless nothing is outstanding |
| `Transfer.OneAlarmEach` | TP 1 RDTP/src/lib/state/flow_state.py:135-170 | every packet in flight has exactly one pending timer or queued timeout: no retransmission is lost or doubled |
| `TransferProgress.ReceiveHealthy` | TP 1 RDTP/src/lib/state/flow_state.py:236-258 | the receiver never drops the packet the sender's window starts with, and acknowledges it |
| `TransferProgress.ConsumeHealthy` | TP 1 RDTP/src/lib/state/flow_state.py:143-170 | a timeout of the base packet puts it on the wire again, its acknowledgement strictly raises the base |
| `TransferProgress.AdvanceBase` | TP 1 RDTP/src/lib/state/flow_state.py:143-170 | from any live state some continuation strictly raises the base or completes |
| `TransferProgress.CanAlwaysComplete` | TP 1 RDTP/src/lib/state/flow_state.py:75-113 | no deadlock: from every reachable live state, even after everything in transit is lost, the transfer can still complete with the whole file written |
| `TransferProgress.TooLongNeverCompletes` | TP 1 RDTP/src/lib/protocol/sender.py:12-16 | a transfer whose last number exceeds 16 bits never completes |
| `TransferProgress.CompletableIff` | TP 1 RDTP/src/lib/state/flow_state.py:75-113 | a transfer can complete if and only if its last sequence number fits 16 bits |
| `TransferProgress.UploadsComplete` | TP 1 RDTP/src/lib/state/flow_state.py:75-113 | uploads of at most 20 MB numbered from 1 can always complete |
| `TransferProgress.WhatEndsIt` | TP 1 RDTP/src/lib/state/flow_state.py:75-113 | the sending loop ends exactly when everything is acknowledged at its top or it takes a FIN, an ERR or an abort; the receiver notes exactly FINs, ERRs and aborts |
| `TransferProgress.EndedStaysEnded` | TP 1 RDTP/src/lib/state/flow_state.py:75-210 | a sender that has left its loop sends and moves nothing more, and a receiver that has finished takes and answers nothing more |
| `TransferProgress.CanBeStopped` | TP 1 RDTP/src/lib/state/flow_state.py:80-104 | at any moment a FIN, an ERR or an abort can reach the sender, and an abort ends the receiver's loop |
| `TransferProgress.QuietRunsStayHealthy` | TP 1 RDTP/src/lib/state/flow_state.py:75-210 | in every run in which nobody asks to stop, sender and receiver stay in their loops until everything is acknowledged, so that completion stays reachable throughout |
| `TransferLiveness.CopyAnswered` | TP 1 RDTP/src/lib/state/flow_state.py:236-258 | every copy of the base packet that arrives is acknowledged |
| `TransferLiveness.HeedMoves` | TP 1 RDTP/src/lib/state/flow_state.py:143-157 | when the loop heeds the base packet's acknowledgement the base moves |
| `TransferLiveness.StayBound` | TP 1 RDTP/src/lib/state/flow_state.py:143-170 | if nothing is lost more than k times in a row, at most (k + 1) * (k + 2) timeouts of a packet are served while it is the base |
| `TransferLiveness.TimeoutsBounded` | TP 1 RDTP/src/lib/state/flow_state.py:75-104 | so a whole run serves at most that many per chunk, however its steps interleave |
| `TransferLiveness.EndsWithin` | TP 1 RDTP/src/lib/state/flow_state.py:75-113 | bounded liveness: if alarms go off and queues are served, every run ends within |chunks| * ((k + 1) * (k + 2) + 1) rounds, with the whole file written unless it was interrupted |
| `TransferSpan.RunTight` | TP 1 RDTP/src/lib/state/flow_state.py:121-123 | stop-and-wait never runs more than one packet ahead of its base |
| `TransferSpan.LateStartTight` | TP 1 RDTP/src/lib/protocol/sender.py:12-16 | a transfer whose second number cannot be encoded stays within its window, as nothing beyond the first packet is ever received |
| `TransferSpan.Overtaking` | TP 1 RDTP/src/lib/state/flow_state.py:119-157 | a run in which the sender gets further than windowSize ahead of its base |
| `TransferSpan.TextbookBoundIff` | TP 1 RDTP/src/lib/state/flow_state.py:119-157 | next <= base + windowSize holds in all runs if and only if the window is one packet, the whole file fits it, or the second number already exceeds 16 bits |
| `SelectiveRepeat.OutOfOrderIsKept` | TP 1 RDTP/src/lib/state/flow_state.py:236-265 | below the end of its window the receiver acknowledges every data packet; one ahead of its base it keeps, once, until it can be written; one beyond the window it drops without an answer |
| `SelectiveRepeat.DeliveredIsReceived` | TP 1 RDTP/src/lib/state/flow_state.py:236-289 | however the packets of its window are ordered and repeated, the receiver has received exactly those |
| `SelectiveRepeat.AnyOrder` | TP 1 RDTP/src/lib/state/flow_state.py:236-289 | the receiver, its file included, ends in the same state whatever the order and the repetitions of the packets |
| `SelectiveRepeat.RunIsWritten` | TP 1 RDTP/src/lib/state/flow_state.py:236-289 | the next packets of its window, in whatever order they come, are all in the file at the end |
| `SelectiveRepeat.DownloadEnds` | TP 1 RDTP/src/lib/state/flow_state.py:199-200 | an arriving segment ends the download if and only if the whole file is there and a FIN has come, that segment included |
| `SelectiveRepeat.AcksInAnyOrder` | TP 1 RDTP/src/lib/state/flow_state.py:143-157 | the sender ends in the same state whatever the order and the repetitions of the acknowledgements: without those packets and their timers, its base at the first packet still out |
| `SelectiveRepeat.WhatGoesOut` | TP 1 RDTP/src/lib/state/flow_state.py:119-170 | in every reachable state a packet goes out exactly when filling the window gets to it or its own timeout is served while it is in flight, and only with a number of 16 bits |
| `SelectiveRepeat.WhatIsAnswered` | TP 1 RDTP/src/lib/state/flow_state.py:236-260 | in every reachable state an arriving packet is acknowledged if and only if it is below the end of the receive window, and nothing else is |
| `SelectiveRepeat.FillsTheWindow` | TP 1 RDTP/src/lib/state/flow_state.py:121-123 | after filling, windowSize packets are in flight or no chunk is unsent |
| `BusyWaitTimer.BusyWaitTimer.InsertSorted` | TP 1 RDTP/src/lib/utils/list.py:8-14 | inserts before the first entry with a strictly later deadline |
| `BusyWaitTimer.InsertKeepsOrder` | TP 1 RDTP/src/lib/utils/list.py:8-14 | insertion keeps the list sorted, adds just the entry, and queues equal deadlines first come first served |
| `BusyWaitTimer.BusyWaitTimer.Schedule` | TP 1 RDTP/src/lib/time/busy_wait_timer.py:39-51 | adds one entry at its deadline and never sleeps past it |
| `BusyWaitTimer.BusyWaitTimer.Cancel` | TP 1 RDTP/src/lib/time/busy_wait_timer.py:53-56 | removes exactly the entries of that name, in place |
| `BusyWaitTimer.BusyWaitTimer.UpdateDeadlines` | TP 1 RDTP/src/lib/time/busy_wait_timer.py:22-34 | notifies exactly the due entries in list order, keeps the rest, and shortens the timeout to the next deadline |
| `BusyWaitTimer.DueIsPrefix` | TP 1 RDTP/src/lib/time/busy_wait_timer.py:26-28 | in a sorted list notifying and filtering split it into a prefix and a suffix: nothing is notified and kept, or lost |
| `BusyWaitTimer.ApplyKeepsValid` | TP 1 RDTP/src/lib/time/busy_wait_timer.py:22-56 | every operation keeps the list sorted and the timeout at or below the next deadline's distance |
| `BusyWaitTimer.NothingLost` | TP 1 RDTP/src/lib/time/busy_wait_timer.py:22-56 | over any history the scheduled entries are exactly the pending, notified and cancelled ones, counted with multiplicity |
| `BusyWaitTimer.OperationsMean` | TP 1 RDTP/src/lib/time/busy_wait_timer.py:22-56 | which entries each operation adds, removes or notifies, and how it sets the next sleep: a schedule cuts it to its delay, a poll to the next deadline, or to 0.1 s when nothing is left |
| `BusyWaitTimer.DeliveredPromptly` | TP 1 RDTP/src/lib/time/busy_wait_timer.py:39-66 | what a poll notifies that comes some time after the computed sleep ended is late by at most that time if the previous poll left it pending; what was scheduled since, by a caller that may have read its clock before that poll and waited for the lock, by less than 0.1 s and that wait more |
| `ShortestPaths.RelaxKeepsGood` | TP 2 ARP-NAT/pox/pox/forwarding/l2_multi.py:91-100 | one in-place relaxation, also of the row and column in use, keeps every entry a walk's length and every intermediate sound |
| `ShortestPaths.RelaxCovers` | TP 2 ARP-NAT/pox/pox/forwarding/l2_multi.py:91-100 | after the relaxation by k the entry is no longer than any walk through the intermediates so far and k |
| `ShortestPaths.CoveringIsCurrent` | TP 2 ARP-NAT/pox/pox/forwarding/l2_multi.py:91-100 | covering all intermediates means exact distances, with an entry exactly for the connected pairs |
| `ShortestPaths.L2Multi.CalcPaths` | TP 2 ARP-NAT/pox/pox/forwarding/l2_multi.py:81-100 | the three in-place loops compute, for every ordered pair, the exact shortest distance, with no entry exactly when no walk exists |
| `ShortestPaths.SplitsExactly` | TP 2 ARP-NAT/pox/pox/forwarding/l2_multi.py:98-100 | every stored intermediate splits its pair into two strictly shorter positive distances that add up |
| `ShortestPaths.RawPathIsWalk` | TP 2 ARP-NAT/pox/pox/forwarding/l2_multi.py:106-121 | the recursive reconstruction terminates and gives a walk of exactly the stored distance |
| `ShortestPaths.RawPathNone` | TP 2 ARP-NAT/pox/pox/forwarding/l2_multi.py:114-115 | no path is reported exactly when none exists |
| `ShortestPaths.L2Multi.GetRawPath` | TP 2 ARP-NAT/pox/pox/forwarding/l2_multi.py:106-121 | fills the cache if it is empty and answers from a current one |
| `ShortestPaths.L2Multi.CheckPath` | TP 2 ARP-NAT/pox/pox/forwarding/l2_multi.py:124-135 | true exactly for paths on which every out port is what the adjacency gives towards the next switch, and every in port what it gives back, none included |
| `ShortestPaths.L2Multi.GetPath` | TP 2 ARP-NAT/pox/pox/forwarding/l2_multi.py:138-161 | no path exactly when there is no walk, otherwise a shortest walk from the first outer port to the final one, on which each out port is the adjacency's towards the next switch and each in port its back towards the one before; the sanity assertion always holds |
| `ShortestPaths.L2Multi.HandleLinkEvent` | TP 2 ARP-NAT/pox/pox/forwarding/l2_multi.py:426-471 | link events empty the path cache and keep the adjacency defined both ways or not at all; a removal falls back on the first other link known in both directions |
| `ShortestPaths.FirstTakesOver` | TP 2 ARP-NAT/pox/pox/forwarding/l2_multi.py:451-460 | the replacement is the first other link between the same switches that is known in the reverse direction too; none exactly when there is none |
| `ShortestPaths.L2Multi.HandleConnectionUp` | TP 2 ARP-NAT/pox/pox/forwarding/l2_multi.py:483-491 | a new switch leaves a filled cache current |
| `OfpMatch.ParseOfBytes` | TP 2 ARP-NAT/pox/pox/openflow/libopenflow_01.py:1184-1230 | the 40-byte layout loses nothing |
| `OfpMatch.WildcardsRoundTrip` | TP 2 ARP-NAT/pox/pox/openflow/libopenflow_01.py:1246-1340 | clearing irrelevant wildcards for the wire and setting them again agrees with fixing the match, for every protocol, IPv6 included |
| `OfpMatch.FlowModRoundTrip` | TP 2 ARP-NAT/pox/pox/openflow/libopenflow_01.py:1184-1372 | for every match, unpacking what a flow mod packed gives the fixed match with normalised prefix wildcards |
| `OfpMatch.FlowModRoundTripExact` | TP 2 ARP-NAT/pox/pox/openflow/libopenflow_01.py:1184-1372 | it gives the fixed match itself if and only if no prefix wildcard that matters exceeds 32 |
| `OfpMatch.PlainRoundTrip` | TP 2 ARP-NAT/pox/pox/openflow/libopenflow_01.py:1184-1372 | outside flow mods a match survives if and only if its irrelevant fields are clear and its prefix wildcards normal |
| `OfpMatch.NormalizedVisible` | TP 2 ARP-NAT/pox/pox/openflow/libopenflow_01.py:1232-1244 | normalising never changes which fields are visible, nor their values |
| `MatchObject.SetNwSrcThenGet` | TP 2 ARP-NAT/pox/pox/openflow/libopenflow_01.py:1063-1089 | a source prefix that is set is read back, lengths above 32 clamped, and no other field changes |
| `MatchObject.SetNwDstThenGet` | TP 2 ARP-NAT/pox/pox/openflow/libopenflow_01.py:1055-1078 | the same for the destination prefix |
| `MatchObject.MatchObject.SetNwSrc` | TP 2 ARP-NAT/pox/pox/openflow/libopenflow_01.py:1080-1089 | stores the address and its wildcard bits in place |
| `MatchObject.MatchObject.SetNwDst` | TP 2 ARP-NAT/pox/pox/openflow/libopenflow_01.py:1069-1078 | stores the address and its wildcard bits in place |
| `MatchObject.MatchObject.Fix` | TP 2 ARP-NAT/pox/pox/openflow/libopenflow_01.py:1285-1312 | assigning None field by field wildcards exactly the fields the protocol rules out |
| `MatchObject.MatchObject.Unpack` | TP 2 ARP-NAT/pox/pox/openflow/libopenflow_01.py:1352-1372 | reads the 40 bytes into the object's fields |
| `MatchObject.PackThenUnpack` | TP 2 ARP-NAT/pox/pox/openflow/libopenflow_01.py:1184-1372 | a match sent in a flow mod leaves the receiver's object as fixing leaves the sender's, up to normalised prefixes |
| `MatchContainment.ContainsReflexive` | TP 2 ARP-NAT/pox/pox/openflow/libopenflow_01.py:1402-1416 | every match contains itself |
| `MatchContainment.ContainsTransitive` | TP 2 ARP-NAT/pox/pox/openflow/libopenflow_01.py:1402-1458 | containment is transitive |
| `MatchContainment.ContainsSound` | TP 2 ARP-NAT/pox/pox/openflow/libopenflow_01.py:1402-1458 | a containing match takes every packet match the contained one takes, prefixes and packets with wildcarded fields included |
| `MatchContainment.MatchesMeans` | TP 2 ARP-NAT/pox/pox/openflow/libopenflow_01.py:1402-1458 | a match takes a fully specified packet exactly if every field is wildcarded or equal and the addresses agree but for the low bits their wildcard counts leave open |
| `MatchContainment.EqualIff` | TP 2 ARP-NAT/pox/pox/openflow/libopenflow_01.py:1460-1475 | equality of matches: the same wildcards, and the same value in every field they leave visible |
| `MatchContainment.ContainsIff` | TP 2 ARP-NAT/pox/pox/openflow/libopenflow_01.py:1402-1458 | what containment says, for every containing match and every contained one without stray address bits: it takes every fully specified match the other takes, and has the other's undefined wildcard bits |
| `MatchContainment.CleanIff` | TP 2 ARP-NAT/pox/pox/openflow/libopenflow_01.py:1440-1456 | a match takes some fully specified match if and only if no stray address bits count against it; only then is there anything to contain |
| `MatchContainment.EverythingMisses` | TP 2 ARP-NAT/pox/pox/openflow/libopenflow_01.py:1416-1421 | the named case: a match with everything wildcarded takes all that the same match with all-ones wildcards takes, and does not contain it |
| `PacketMatch.PacketSpecifies` | TP 2 ARP-NAT/pox/pox/openflow/libopenflow_01.py:946-1013 | the match built from a packet on a port specifies all link fields, priority 0 for untagged packets, and is fully specified exactly for IPv4 with a transport header or, where they count, fragments |
| `PacketMatch.PacketShows` | TP 2 ARP-NAT/pox/pox/openflow/libopenflow_01.py:946-1013 | what it shows of protocol, type of service, addresses and transport fields is what the headers say, and nothing where there are none |
| `PacketContainment.Taken` | TP 2 ARP-NAT/pox/pox/openflow/libopenflow_01.py:956-1458 | what a parsed packet's types and headers imply for a match that takes it: the match could be met, and the packet is also taken by the match with the priority, type and transport fields that are implied |
| `PacketContainment.TakesPacketsIff` | TP 2 ARP-NAT/pox/pox/openflow/libopenflow_01.py:946-1458 | on the matches built from parsed packets, whose types decide tag and header and whose protocol decides the transport: one match takes every packet another takes, and has its undefined bits, if and only if it contains the other with what that implies |
| `PacketContainment.InclusionIff` | TP 2 ARP-NAT/pox/pox/openflow/libopenflow_01.py:946-1458 | for any two matches: one takes every packet another takes if and only if no packet can be as the other demands, or it matches the other with what that implies, wildcard bits aside |
| `PacketContainment.TakesSomePacketIff` | TP 2 ARP-NAT/pox/pox/openflow/libopenflow_01.py:946-1013 | which matches take any parsed packet: exactly those without stray address bits whose VLAN fields, type, headers and transport fields agree with each other |
| `PacketContainment.ImpossibleTakesNothing` | TP 2 ARP-NAT/pox/pox/openflow/libopenflow_01.py:946-1458 | every match takes all the packets of a match that no packet can meet |
| `PacketContainment.UntaggedNotContained` | TP 2 ARP-NAT/pox/pox/openflow/libopenflow_01.py:985-987 | a named case: untagged with priority 0 takes every packet that untagged takes, and does not contain it |
| `PacketContainment.WebNotContained` | TP 2 ARP-NAT/pox/pox/openflow/libopenflow_01.py:989-1006 | a named case: port 80 under IPv4 takes every packet that port 80 takes, and does not contain it |
| `PacketContainment.ArpWebTakesNothing` | TP 2 ARP-NAT/pox/pox/openflow/libopenflow_01.py:989-1011 | a named case: port 80 under ARP takes no packet, so a switch port's packets include its packets, and the match on the switch port contains it neither as it is nor with what it implies |
| `FlowTable.FlowTable.AddEntry` | TP 2 ARP-NAT/pox/pox/openflow/flow_table.py:224-247 | binary insertion keeps descending effective priority with the newest first among equals, and adds just the entry |
| `FlowTable.OrderedIsDetermined` | TP 2 ARP-NAT/pox/pox/openflow/flow_table.py:208-209 | the order leaves no choice: the unordered set of entries determines the table |
| `FlowTable.FlowTable.RemoveSpecificEntries` | TP 2 ARP-NAT/pox/pox/openflow/flow_table.py:276-293 | deleting in place and stopping early is filtering, and the final assertion holds |
| `FlowTable.FlowTable.RemoveExpiredEntries` | TP 2 ARP-NAT/pox/pox/openflow/flow_table.py:295-305 | the idle and hard lists are disjoint, together they are the expired entries, and what remains is the rest in order |
| `FlowTable.HardRemain` | TP 2 ARP-NAT/pox/pox/openflow/flow_table.py:295-305 | removing the idle list and then the hard list leaves exactly the entries that expired neither way |
| `FlowTable.KeepOrdered` | TP 2 ARP-NAT/pox/pox/openflow/flow_table.py:276-311 | filtering keeps the order |
| `FlowTable.FlowTable.RemoveMatchingEntries` | TP 2 ARP-NAT/pox/pox/openflow/flow_table.py:307-311 | returns the matching entries and removes exactly them |
| `FlowTable.FlowTable.EntryForPacket` | TP 2 ARP-NAT/pox/pox/openflow/flow_table.py:313-327 | the first match in the table is the maximum by effective priority and recency of all matching entries; none exactly when none matches |
| `FlowTable.FlowTable.Touch` | TP 2 ARP-NAT/pox/pox/openflow/flow_table.py:102-112 | records the use of an entry in its place in the table |
| `FlowTable.BestIsUnique` | TP 2 ARP-NAT/pox/pox/openflow/flow_table.py:313-327 | that maximum is unique |
| `FlowTable.ExactThenPriorityThenNewest` | TP 2 ARP-NAT/pox/pox/openflow/flow_table.py:79-83 | a lookup finds an exact entry before every wildcarded one whatever the priorities, then the highest priority, then the newest |
| `FlowTable.FlowTable.CheckForOverlappingEntry` | TP 2 ARP-NAT/pox/pox/openflow/flow_table.py:329-354 | the early break loses nothing: true exactly if some entry of the same effective priority contains or is contained |
| `FlowTable.OverlapsIff` | TP 2 ARP-NAT/pox/pox/openflow/flow_table.py:335-354 | overlap is containment either way between two exact entries or two wildcarded ones of the same priority |
| `FlowMods.Switch.FlowModAdd` | TP 2 ARP-NAT/pox/pox/datapaths/switch.py:745-798 | on the ordered table, add does what it does to an unordered set: the refusals, the overlap check, the strict removal and the size limit |
| `FlowMods.Switch.FlowModModify` | TP 2 ARP-NAT/pox/pox/datapaths/switch.py:800-822 | actions are updated where the entries stand; without a match it acts as add |
| `FlowMods.Switch.FlowModDelete` | TP 2 ARP-NAT/pox/pox/datapaths/switch.py:824-840 | exactly the selected entries go, filtered by output port unless OFPP_NONE |
| `FlowMods.Switch.RemoveExpired` | TP 2 ARP-NAT/pox/pox/openflow/flow_table.py:295-305 | expiry removes exactly the expired entries and keeps the switch valid |
| `FlowMods.Switch.RxPacket` | TP 2 ARP-NAT/pox/pox/datapaths/switch.py:513-517 | a packet hits the best entry, whose idle time starts again, and changes nothing else |
| `FlowMods.Switch.HandleEvent` | TP 2 ARP-NAT/pox/pox/datapaths/switch.py:292-306 | every flow mod, packet and expiry refines its specification on an unordered set |
| `FlowMods.MissMeansNewKey` | TP 2 ARP-NAT/pox/pox/datapaths/switch.py:814-816 | a modify acting as add needs no strict removal, because containment is reflexive |
| `FlowMods.ApplyKeeps` | TP 2 ARP-NAT/pox/pox/datapaths/switch.py:745-840 | every flow mod, packet and expiry keeps (match, priority) pairs unique and the table within max_entries |
| `FlowMods.RunKeeps` | TP 2 ARP-NAT/pox/pox/datapaths/switch.py:745-840 | so does every sequence of them |
| `FlowMods.RefusalChangesNothing` | TP 2 ARP-NAT/pox/pox/datapaths/switch.py:752-796 | a flow mod answered with an error leaves the entries as they were, also when the table is full |
| `FlowMods.AddInRun` | TP 2 ARP-NAT/pox/pox/datapaths/switch.py:745-798 | an accepted add after any events: its entry is alone with its match and priority, every other entry is still there, the table is within its bound, with the overlap flag nothing overlaps it, and it takes exactly the packets it matches that no remaining entry of higher effective priority takes |
| `FlowMods.EveryEntryHasOrigin` | TP 2 ARP-NAT/pox/pox/datapaths/switch.py:745-822 | after any events each entry is as some flow mod made it, with that time and those timeouts, and its actions are those of the last flow mod that selects it |
| `FlowMods.FullExactly` | TP 2 ARP-NAT/pox/pox/datapaths/switch.py:752-822 | a flow mod that adds, also a modify without a match, is refused as full exactly when no demanded overlap check fails, max_entries entries are there and an add replaces none of them; emergency entries are never added |
| `FlowMods.StrictDeleteRemovesOne` | TP 2 ARP-NAT/pox/pox/datapaths/switch.py:836-840 | a strict delete removes at most one entry, and only one with that match and priority |
| `FlowMods.DeleteSelects` | TP 2 ARP-NAT/pox/pox/datapaths/switch.py:824-840 | a delete removes exactly what its match contains, a strict one exactly what has its match and priority, both only with an output to the given port unless that is OFPP_NONE |
| `FlowMods.ModifySelects` | TP 2 ARP-NAT/pox/pox/datapaths/switch.py:800-822 | a modify gives its actions to exactly what its match contains, a strict one to what has its match and priority, whatever the port; if there is nothing it adds |
| `FlowMods.ExpirySelects` | TP 2 ARP-NAT/pox/pox/openflow/flow_table.py:112-126 | an entry stays exactly while it has not been idle, or there, for longer than a timeout that it has; without timeouts it stays |
| `FlowMods.AddReplies` | TP 2 ARP-NAT/pox/pox/datapaths/switch.py:752-785 | when an add is refused for an emergency timeout, for a removal notice or for an overlap; an accepted entry is in the table |
| `FlowMods.AddedIsBest` | TP 2 ARP-NAT/pox/pox/openflow/flow_table.py:313-327 | a new entry takes exactly the packets it matches that no entry of higher effective priority takes |
| `FlowMods.ModifyKeepsLookups` | TP 2 ARP-NAT/pox/pox/datapaths/switch.py:800-812 | a modify changes what packets get, never which entry they hit |
| `FlowMods.DeleteFallsThrough` | TP 2 ARP-NAT/pox/pox/datapaths/switch.py:824-834 | after a delete a packet goes to an entry if and only if that is spared and all matching entries above it are not |
| `FlowMods.DeleteInRun` | TP 2 ARP-NAT/pox/pox/datapaths/switch.py:824-840 | so it is at any moment of any run, for plain and strict deletes with or without a port filter |
| `FlowMods.DeleteLeavesOthers` | TP 2 ARP-NAT/pox/pox/datapaths/switch.py:824-834 | a delete without a port filter leaves exactly the entries that take some fully specified match its match does not, or have undefined wildcard bits its match lacks |
| `FlowMods.DeleteAllLeavesUndefined` | TP 2 ARP-NAT/pox/pox/datapaths/switch.py:824-834 | so deleting everything leaves an entry unpacked from all-ones wildcards |
| `FlowMods.PacketKeepsLookups` | TP 2 ARP-NAT/pox/pox/datapaths/switch.py:513-517 | packets never move each other to another entry or other actions |
| `FlowMods.UseDefersExpiry` | TP 2 ARP-NAT/pox/pox/openflow/flow_table.py:102-126 | an entry outlives an expiry exactly if its last packet is recent enough and its hard timeout has not passed |
| `Nat.NAT.PickPort` | TP 2 ARP-NAT/pox/pox/misc/nat.py:144-171 | terminates, gives the first free port in probing order, at least 1024, and gives none if and only if every port it would try is taken: the start, all from it to 65533, and all of 49152 to 65533 |
| `Nat.NAT.Create` | TP 2 ARP-NAT/pox/pox/misc/nat.py:250-308 | adds one record to both tables; which invariant that keeps in every case, when there is no port, and exactly when the tables stop inverting each other |
| `Nat.CreateKeeps` | TP 2 ARP-NAT/pox/pox/misc/nat.py:307-308 | a fresh port makes the incoming match new, so records with ports stay in both tables and the ports injective |
| `Nat.PortlessKeeps` | TP 2 ARP-NAT/pox/pox/misc/nat.py:254-308 | a record without a port can only push out the incoming entry of another such record |
| `Nat.PortsMeanInverse` | TP 2 ARP-NAT/pox/pox/misc/nat.py:103-106 | while every record has a port the two tables hold the same records and invert each other |
| `Nat.NAT.HandlePacketIn` | TP 2 ARP-NAT/pox/pox/misc/nat.py:197-327 | in every reachable state: which packets are ignored, reinstalled, dropped for a while or given a record, with the packet, port, gateway and DNS choice it is made from; what is sent in which order, when encoding fails, and exactly when a record is left without a port |
| `Nat.NAT.Expire` | TP 2 ARP-NAT/pox/pox/misc/nat.py:120-132 | in every reachable state, raises if and only if an expired record has no port; otherwise exactly the expired records and their ports go; unexpired records always stay |
| `Nat.DropPorted` | TP 2 ARP-NAT/pox/pox/misc/nat.py:126-129 | dropping a record with a port from both tables and freeing it keeps the tables and the ports exact |
| `Nat.DropPortless` | TP 2 ARP-NAT/pox/pox/misc/nat.py:126-129 | an expiry that raises half way at a record without a port keeps them, too |
| `Nat.OutgoingEncodes` | TP 2 ARP-NAT/pox/pox/misc/nat.py:299-300 | the outgoing flow can be encoded if and only if a port was found |
| `Nat.OutgoingTranslates` | TP 2 ARP-NAT/pox/pox/misc/nat.py:295-302 | the outgoing flow sends each packet it matches once, outside, from the outside address and the record's port, with the DNS substitution and the skipped port rewrite |
| `Nat.IncomingInverts` | TP 2 ARP-NAT/pox/pox/misc/nat.py:261-283 | the reply, whatever its destination MAC, matches the incoming flow, which turns it into the reply to the original packet |
| `Nat.NoCrossTalk` | TP 2 ARP-NAT/pox/pox/misc/nat.py:261-286 | no reply is matched by the flow of another live record with a port |
| `Nat.LiveRecordTranslates` | TP 2 ARP-NAT/pox/pox/misc/nat.py:249-308 | while a record with a port lives, also beside records without, both directions translate, inversely, and no other such record takes its replies |
| `Nat.FlowsMatch` | TP 2 ARP-NAT/pox/pox/misc/nat.py:256-294 | the outgoing flow matches the record's own packet from its own port and nothing else; the incoming one what comes from the gateway and the server to the outside address and the record's port, if it has one, at any MAC |
| `Nat.ThereAndBack` | TP 2 ARP-NAT/pox/pox/misc/nat.py:249-308 | a packet from inside goes out to the gateway from the outside address and port, and a query to the translator to the name server; the answer leaves by the port the packet came in on, as its answer, and no other record takes it |
| `Framing.Connection.Read` | TP 2 ARP-NAT/pox/pox/openflow/of_01.py:903-950 | one read dispatches what parsing the buffer and the new bytes gives, keeps the remainder, and fails exactly on an empty read, a bad version or a bad message |
| `Framing.ParseConserves` | TP 2 ARP-NAT/pox/pox/openflow/of_01.py:913-948 | messages followed by the rest are the stream, and parsing stops only before an incomplete or a bad message |
| `Framing.ParseOfConcat` | TP 2 ARP-NAT/pox/pox/openflow/of_01.py:913-948 | concatenated well-formed messages parse back to themselves |
| `Framing.ParseAppend` | TP 2 ARP-NAT/pox/pox/openflow/of_01.py:909-948 | parsing can stop and go on with what was left over; a failure stays a failure |
| `Framing.ChunkingIndependent` | TP 2 ARP-NAT/pox/pox/openflow/of_01.py:903-950 | however the stream is cut into reads, well-formed or not, the messages dispatched and the connection's fate are those of parsing it whole |
| `Framing.DispatchedThenBuffered` | TP 2 ARP-NAT/pox/pox/openflow/of_01.py:909-948 | while the connection is open, dispatched bytes followed by the buffer are the received bytes, and the buffer holds no whole message |
| `Framing.MessagesArrive` | TP 2 ARP-NAT/pox/pox/openflow/of_01.py:903-950 | well-formed messages are dispatched one for one and in order, leaving an empty buffer, however they arrive |
| `DeferredSender.DeferredSender.Sliceup` | TP 2 ARP-NAT/pox/pox/openflow/of_01.py:426-437 | the slicing loop computes the slices |
| `DeferredSender.SlicesAreData` | TP 2 ARP-NAT/pox/pox/openflow/of_01.py:426-437 | the slices joined are the data; none is empty or longer than PIPE_BUF, and all but the last are full |
| `DeferredSender.DeferredSender.Send` | TP 2 ARP-NAT/pox/pox/openflow/of_01.py:439-450 | sets the flag and appends the slices to the connection's queue |
| `DeferredSender.DeferredSender.Flush` | TP 2 ARP-NAT/pox/pox/openflow/of_01.py:480-510 | writes what the socket takes, keeps the rest, drops an empty queue, and clears the flag and stops exactly when no queue is left |
| `DeferredSender.DrainedConserves` | TP 2 ARP-NAT/pox/pox/openflow/of_01.py:483-496 | what is written followed by what stays queued is what was queued |
| `DeferredSender.FlushIsRun` | TP 2 ARP-NAT/pox/pox/openflow/of_01.py:480-496 | the flush of a connection is a run of the flusher's steps |
| `DeferredSender.TurnIsRun` | TP 2 ARP-NAT/pox/pox/openflow/of_01.py:480-510 | so is its whole turn at a connection: the same bytes written, the same queues and flag, and the round stops exactly when no queue is left |
| `DeferredSender.ClearFlagSendsDirectly` | TP 2 ARP-NAT/pox/pox/openflow/of_01.py:869-891 | while the flag is clear a send writes to the socket at once and defers only what it does not take |
| `DeferredSender.SetFlagQueues` | TP 2 ARP-NAT/pox/pox/openflow/of_01.py:869-882 | while the flag is set a send cannot touch the socket; its slices join the end of the connection's queue, once the deferred thread has left the lock |
| `DeferredSender.FirstSendIsDirect` | TP 2 ARP-NAT/pox/pox/openflow/of_01.py:415-421 | at the start nothing is deferred |
| `DeferredSender.SenderStepKeeps` | TP 2 ARP-NAT/pox/pox/openflow/of_01.py:869-894 | each step of the sending thread, the unlocked read of the flag included, keeps the invariant |
| `DeferredSender.FlusherStepKeeps` | TP 2 ARP-NAT/pox/pox/openflow/of_01.py:464-512 | each step of the deferred thread keeps the invariant |
| `DeferredSender.AlwaysInOrder` | TP 2 ARP-NAT/pox/pox/openflow/of_01.py:869-891 | over every interleaving, bytes on the socket, queued and held are the bytes submitted, in order, and a clear flag means empty queues |
| `DeferredSender.CanAlwaysSettle` | TP 2 ARP-NAT/pox/pox/openflow/of_01.py:461-512 | no deadlock and no stranded queue: from every reachable state the threads can go on until every socket received exactly what was submitted |
| `DeferredLiveness.SenderWorks` | TP 2 ARP-NAT/pox/pox/openflow/of_01.py:869-894 | every turn of the sending thread leaves less to do |
| `DeferredLiveness.FlusherWorks` | TP 2 ARP-NAT/pox/pox/openflow/of_01.py:480-512 | no turn of the deferred thread leaves more, and sending a byte or dropping a queue leaves less |
| `DeferredLiveness.RoundWorks` | TP 2 ARP-NAT/pox/pox/openflow/of_01.py:461-512 | a round, however the two threads interleave in it, leaves less to do until all is settled, if the sending thread takes a turn or the deferred one starts on a queue and no socket refuses before one took a byte |
| `DeferredLiveness.SettlesWithin` | TP 2 ARP-NAT/pox/pox/openflow/of_01.py:461-512 | bounded liveness: without further submissions every run of more such rounds than there are missing bytes, queues and turns of the sending thread ends with exactly the submitted bytes on every socket and no queue |
| `ConfigScript.IfStack.PushIf` | TP 2 ARP-NAT/pox/pox/config/__init__.py:117-121 | a nested conditional of a skipped branch never matches |
| `ConfigScript.IfStack.Match` | TP 2 ARP-NAT/pox/pox/config/__init__.py:123-133 | moves the top state on, or fails outside any conditional |
| `ConfigScript.IfStack.PopIf` | TP 2 ARP-NAT/pox/pox/config/__init__.py:139-142 | fails when the bottom of the stack is popped |
| `ConfigScript.MachineRunsScript` | TP 2 ARP-NAT/pox/pox/config/__init__.py:112-147 | the stack machine runs a script's tree in its chosen branch, skips it elsewhere, and restores its stack |
| `ConfigScript.MachineRunsBranches` | TP 2 ARP-NAT/pox/pox/config/__init__.py:174-200 | of a conditional's branches it runs the first whose condition holds, and no other |
| `ConfigScript.RunDepth` | TP 2 ARP-NAT/pox/pox/config/__init__.py:112-147 | the machine's depth is the nesting depth, whatever the variables |
| `ConfigScript.FlatParses` | TP 2 ARP-NAT/pox/pox/config/__init__.py:168-200 | a tree written out parses back to itself |
| `ConfigScript.ParsedIsFlat` | TP 2 ARP-NAT/pox/pox/config/__init__.py:168-200 | what parses is a tree written out |
| `ConfigScript.LaunchRunsTree` | TP 2 ARP-NAT/pox/pox/config/__init__.py:168-219 | a script succeeds if and only if it is well nested, and then runs exactly the lines the first-true-branch interpreter of its tree runs, with !set and the like changing the variables on the way |
| `ConfigScript.LinesSeeLastSet` | TP 2 ARP-NAT/pox/pox/config/__init__.py:82-108 | every executed line sees each variable as the last executed line that sets or unsets it left it, script variables and globals apart |
| `ConfigScript.ConditionDecides` | TP 2 ARP-NAT/pox/pox/config/__init__.py:174-196 | a conditional runs its body if its variable is set, as a script variable or a global, exactly when it asks for that; otherwise the next branch decides |
| `ConfigScript.Launcher.Launch` | TP 2 ARP-NAT/pox/pox/config/__init__.py:168-288 | the line loop executes those lines, each under the variables of its moment, fails otherwise, and clears the local variables |

## Left out

- Sockets, real threads, locks as objects, logging and argument parsing: steps, queues and parameters stand for them.
- Corrupted segments: the network loses, duplicates and reorders, but does not corrupt.
- RDTP's SYN and FIN handshakes: both sides start in the flow phase with the same number and file details; leftovers of a handshake, FIN, ERR and abort arrive as foreign events at any time.
- Completion after a FIN, an ERR or an abort: those exits end the loops and are not successful transfers.
- Empty files: the file writer cannot allocate them.
- The sender's window filling is one step of `Transfer`, as no other thread reads the fields it writes; the timer is a multiset there and may fire at any time, its punctuality being `BusyWaitTimer`'s.
- Liveness under fairness: `TransferLiveness` bounds every run under bounded loss, `DeferredLiveness` every run whose rounds do something; without such conditions `CanAlwaysComplete` and `CanAlwaysSettle` say that completion stays reachable.
- Concurrent use of one timer by several connections: `cancel` goes by name, and each connection has its own timer.
- MAC learning, waiting paths, flow installation and barriers in `l2_multi`; agreement of its adjacency with discovery's links is not claimed, since events are raised before links are popped.
- `IPAddr.inNetwork` is not part of this model: containment is proved for both ways of comparing the network address, as given and masked.
- ContainsIff: needs a contained match without stray address bits where the network address is compared as given; `MatchContainment.CleanIff` shows that the others take nothing, so that inclusion says nothing about them.
- DeleteLeavesOthers: needs the same of the entry.
- TakesPacketsIff: needs a match that some packet can be as it demands; `PacketContainment.TakesSomePacketIff` says which those are, and `PacketContainment.InclusionIff` needs nothing.
- Packet parsing: `lib/packet` is not part of this model. `PacketMatch` takes a frame's headers as values, a VLAN tag's fields as 12 and 3 bits wide; `PacketContainment` keeps to frames as parsing gives them: the type 0x8100 announces a tag, 0x0800 IPv4 and 0x0806 ARP (its reverse counts as any other payload), protocols 6, 17 and 1 ports and ICMP, and a tag is never cut off. Its theorems hold both with and without headers that are cut off.
- Parsing of address strings, negative prefix lengths, and hashing and locking of match objects.
- MatchObject.MatchObject.Fix: the object holds its stored fields as one value that is replaced field by field; aliasing of two references to one match object is kept, assignment through attribute names is not.
- Table entries as objects: an entry is a value replaced in its place in the table, so a reference to it held elsewhere is not modelled.
- Completeness of overlap detection: the table tests containment either way, not intersection.
- Flow table statistics, packet counters, cookies, buffers, and the modification events.
- Unknown flow-mod commands: reporting one raises, because the message uses an undefined name.
- The handling of a packet after its encoding failed: the exception leaves the flow's buffered packet behind, which is not modelled.
- The prefix tests that decide whether a destination is local: their answer is a parameter.
- ARP for the gateway, DHCP, packets whose transport header is not directly inside IPv4, and the buffered packet attached to a flow mod.
- Fatal socket errors, exceptional sockets and `kill` in the deferred sender, and a second sending thread: the order is claimed for one thread that sends.
- Unpackers that look beyond their own message, and handler exceptions, which the read loop catches.
- Config file syntax below the line: comments, variable substitution, sections, arguments, `!include`, `!ignore`, `!append`, `!log` and the errors executed lines can raise; the model stops at which lines are executed with which variables.
- `topo_proactive`, `protorouter`, Messenger transports, discovery, LLDP and the other message classes: copies, input and output, or easy members.
