# Verified model of a batch UDP socket

The library batches UDP datagrams over `sendmmsg`/`recvmmsg` (Linux), `sendmsg_x`/`recvmsg_x`
(macOS), WinSock (Windows) or a plain loop, and wraps them in retry loops with an adaptive
batch-size controller and atomic counters. This project models the logic around the system calls
and proves what it promises. The operating system is an arbitrary script of answers.

`dafny verify dfyconfig.toml` checks everything.

| file | models |
|---|---|
| `Common.dfy` | integer ranges, results, small sequence functions |
| `SockAddr.dfy` | the C socket-address codec, for both byte orders, Linux and macOS layouts |
| `Batch.dfy` | the send and receive batch containers, as classes |
| `Gro.dfy` | splitting a coalesced buffer, and its inverse |
| `LinuxRecv.dfy` | the Linux receive loop: control-message scan and in-place GRO split |
| `GroDelivery.dfy` | exactly when that loop delivers what arrived |
| `Reception.dfy` | the same path end to end, from datagrams sent to slots reported |
| `GroMetadata.dfy` | peers, timestamps and destinations: fan-out and staleness |
| `SendHeaders.dfy` | the header tables of the bulk send calls, stack and heap |
| `SendBackends.dfy` | all send paths against one outcome script |
| `RecvBackends.dfy` | all receive paths against one answer script |
| `Adaptive.dfy` | the controller, as a class and over whole runs |
| `Metrics.dfy` | the counters under any interleaving of callers |
| `Runs.dfy` | runs of `send_batch` and `recv_batch` as functions of their attempts, and their laws |
| `Receivers.dfy` | the receive controller under overlapping callers |
| `Socket.dfy` | the socket class: attempts with bookkeeping, and the retry loops |

## Main results

- **Receive delivery is decided by the headers, exactly.** The Linux loop reads message `i` from the
  slot its output cursor points to, and the split overwrites slots that still hold later messages.
  `PlacementIsExact`: for every batch state and every list of message headers, all possible payloads
  are delivered right (each message's datagrams in order, cut at the capacity, no panic) *if and only
  if* each message comes up at its own slot or is empty, some slot is left for it, and an unsplit
  length is below 65536. Alignment (every message but the last yields one slot) implies the
  condition; a first message that splits, followed by a non-empty one, violates it, with a concrete
  batch in `EarlierSplitOverwritesLaterMessage` that reports a byte nobody sent, or panics.
- **Splitting inverts coalescing, and only coalescing** (`SplitInvertsCoalescing`, both directions); end
  to end, coalesced datagrams are reported one per slot as they were sent (`CoalescedAreReported`).
- **Metadata** does not depend on alignment: in every receive that does not panic, all segments of a
  message share its peer and one timestamp and destination (`SegmentsShareMetadata`), and the report
  is the messages' own *iff* nothing foreign shows through (`MetadataIsOwnIffFresh`). Clearing first
  guarantees it unless a message before the last is empty; such a one can lend its timestamp to the
  next (`EmptyMessageLendsTimestamp`). `recv_batch` does not clear.
- **Header tables**: stack headers always name their entry. A heap header names its entry *iff* the
  entry whose number is its rank among addressed entries has the same destination
  (`HeapNamesIffRank`, through the codec's injectivity), and `HeapTableIsRead` says for every batch
  which packet is sent instead. All choices of destinations are sent right *iff* no entry without
  destination precedes an addressed one (`HeapSendsExactlyIffAddressedFirst`). The first entry named
  wrong always reads an element never written, so packets go to wrong peers only if the system
  accepts such a packet, and one without destination; where it refuses either, as it refuses the
  latter on an unconnected socket, every bulk send of every batch is right
  (`RefusalKeepsBulkSendsRight`). If it accepts all, a batch is reported sent in full with its packets
  gone to the wrong peers (`SuccessWithWrongPeers`).
- **Send runs**: `send_batch` is a function of its list of attempts. `Ok(n)` put exactly entries `0..n`
  on the wire, once and in order, *iff* the last attempt sends each of them as it is: a stack table
  always does, a heap table (`sendmsg_x`, or more than 64 entries on Linux) iff the entry's rank
  finds its destination, a per-packet loop iff it does not drop the destination on a connected
  socket. The count is the full length *iff* every packet was accepted; a failed run has sent
  something *iff* a per-packet loop met a hard error midway. The run goes on exactly while bulk calls
  block and waiting succeeds (`RetriesWhileBlocked`); which failures are errors is stated platform by
  platform (`ErrorsByPlatform`).
- **Receive runs**: `recv_batch` returning `Ok(n)` has `1 <= n <= capacity` and `len() == n`; result and
  panic depend on script and capacity alone. The slots show the last attempt's datagrams, for
  `recvmmsg` if its messages are placed, on the other paths if their lengths are below 65536. Success
  reports all datagrams the run took, cut at the capacity; a failed run has taken, and lost, some *iff*
  its last attempt was a per-datagram loop that met a hard error midway (`RunTellsTaken`). The run goes
  on exactly while attempts bring nothing and waiting succeeds (`RetriesWhileEmpty`).
- **Overlapping receivers**: where would-block is reported as zero packets a trip locks the controller
  twice. With n callers twice the blocked count exceeds the total by at most n - 1 in every state of
  every interleaving (`OverlappingBlocks`), for one caller not at all, and for every n some
  interleaving attains it (`BoundIsAttained`).
- **Controller**: target in [1, 1024]; the documented 30/10 percent rule met exactly except at 1;
  ten high-rate adjustments end at 1 for ever, since 1 is absorbing; sixteen low-rate ones reach 1024
  from any other target, and from 2 fifteen do not; at most one adjustment per 100 ms.
- **Counters**: conservation under every interleaving, from which the observable inequalities and the
  exactness at rest follow.
- **Codec**: on any storage contents and host, a storage starts with an address's encoding *iff* it
  decodes to the address and is zero in the bytes that hold none of it (`EncodedIffDecoded`); from
  this the round trip, injectivity, and exactly when encoding reproduces a decoded storage. Port and
  address lie in network order.

Where the documentation says more than the code does, the code is modelled and the difference is a
lemma: `send_batch` does not always return `batch.len()` (`FullCountIff`, `PartialSendIsOk`);
`send_to` can report success for a packet a loop backend did not send (`OneDatagram`, `SendTo`);
`len()` of a receive batch is not always the number of packets of the last operation
(`LenIsCountIff`); a target of 1 does not grow by 50 percent (`GrowsIff`, `OneIsAbsorbing`).

## Assumptions about the system

- A bulk send accepts packets in order until one fails and reports an error only if that is the
  first; a bulk receive fills slots `0..n`, `n` at most the capacity, each within its buffer; a call
  that is interrupted or not implemented has no effect. Where the code retries a call while it is
  interrupted, the call eventually goes through. A destination in a header table is read as the
  library's own decoder reads it; whether such a packet is accepted is up to the script.
- The code is modelled with the features `gro`, `timestamping`, `pktinfo` and `metrics` on. With one of
  the first three off its control messages are as if never present and its slot field stays empty.
- A panic (slot index out of range) is an outcome of its own, `Panicked`, `Panic` or `Crashed`.
- Runs of `send_batch` and `recv_batch` are finite lists of attempts; one that is not over after its
  list is `Pending`, so every prefix of every run is covered. Whether the socket is connected is
  asked per attempt and taken as fixed during one call.
- The contracts of the socket class describe one caller at a time. The controller's results hold of
  every list of events, hence of overlapping callers as well; the one that does not is stated for n
  callers in `Receivers.dfy`.
- Counter increments take effect in one global order. The counters use relaxed atomics, so another
  thread may observe increments of different counters in another order than the inequalities speak of.
- The rate tests compare integers by cross-multiplication; the `f64` quotients agree for counts well
  below 2^50. Counters of the controller and the metrics do not wrap at 2^64.
- The heap variant of the Linux receive loop (src/platform/linux.rs:440-563) repeats the stack
  variant line by line; the rows below cite the latter.

## Model

| member | source | states |
|---|---|---|
| `SockAddr.EncodeSockaddr` | src/sockaddr/unix.rs:6-53 | writes the caller's storage in place: port and address in network order, the rest of the storage untouched, and decoding gives the address back |
| `SockAddr.RoundTrip` | src/sockaddr/unix.rs:55-90 | on every host, decoding any storage that starts with an address's encoding returns that address, port, flow info and scope id included |
| `SockAddr.NetworkOrder` | src/sockaddr/unix.rs:13-43 | port and address bytes lie in network order on little- and big-endian hosts |
| `SockAddr.HostFields` | src/sockaddr/unix.rs:13-52 | in numbers: family 2, or 10 on Linux and 30 on macOS, in host order, zero padding, flow info and scope id in host order at bytes 4 and 24 (section 3.3 of RFC 3493) |
| `SockAddr.EncodingsAreDistinct` | src/sockaddr/unix.rs:6-53 | no storage starts with the encodings of two addresses |
| `SockAddr.ZeroedEncodesNothing` | src/sockaddr/unix.rs:94-95 | a zeroed storage starts with no address's encoding and decodes to 0.0.0.0:0 |
| `SockAddr.EncodedIffDecoded` | src/sockaddr/unix.rs:6-90 | a storage starts with an address's encoding if and only if it decodes to that address, has its family, and is zero where the structure holds no field of it (the macOS length byte, the IPv4 padding) |
| `SockAddr.EncodeAfterDecode` | src/sockaddr/unix.rs:55-90 | encoding what a storage of a known family decodes to gives the storage's start back but for those bytes, and all of it exactly when they are zero; every other storage, and an empty one, decodes to 0.0.0.0:0 |
| `Batch.SendBatchRaw.WithCapacity` | src/batch.rs:331-336 | an empty batch whose vector may hold more than was asked for |
| `Batch.SendBatchRaw.Push` | src/batch.rs:347-366 | appends to the contents while there is room; a full batch answers with its capacity and is unchanged; the vector never outgrows its allocation |
| `Batch.SendBatchRaw.Entry` | src/batch.rs:386-390 | below the logical length, the entry pushed there since the last clear |
| `Batch.SendBatchRaw.Clear` | src/batch.rs:395-397 | empties the contents and drops no slot |
| `Batch.SendBatchRaw.Replay` | src/batch.rs:326-398 | any sequence of pushes and clears leaves what the bounded sequence holds |
| `Batch.ContentsArePushesSinceClear` | src/batch.rs:326-398 | from empty, a batch holds the pushes since the last clear, in order, cut at the capacity |
| `Batch.AsU16` | src/batch.rs:476-478 | the cast never increases a length and is lossless exactly below 65536 |
| `Batch.RecvBatchRaw.WithCapacity` | src/batch.rs:429-442 | every slot blank, with a zeroed buffer of the given size |
| `Batch.RecvBatchRaw.SetRecvLen` | src/batch.rs:476-478 | stores the length cast to u16; it stays within the buffer even when it wraps |
| `Batch.RecvBatchRaw.Clear` | src/batch.rs:520-533 | resets length, stored lengths and metadata of every slot, keeps buffers and peers |
| `Gro.SplitInvertsCoalescing` | src/platform/linux.rs:345-375 | splitting the concatenation gives the datagrams back if and only if all have the segment size except a last one that may be shorter but not empty |
| `Gro.CoalescingInvertsSplit` | src/platform/linux.rs:345-375 | the pieces concatenate to the input and could have been coalesced |
| `Gro.TruncatedSplitIsPrefix` | src/platform/linux.rs:353-355 | a split cut off after n pieces concatenates to the first n segment sizes of the input |
| `Gro.PieceCountIsCeiling` | src/platform/linux.rs:342-375 | the number of segments is the length divided by the segment size, rounded up |
| `Gro.PiecesAreShort` | src/platform/linux.rs:346-347 | no segment is empty or longer than the segment size or the message |
| `LinuxRecv.Filled` | src/platform/linux.rs:213-243 | the kernel's writes keep every buffer's size |
| `LinuxRecv.ScanControl` | src/platform/linux.rs:261-328 | the last control message of each kind wins; only slot `out` changes, and only its metadata |
| `LinuxRecv.LastSizeWins` | src/platform/linux.rs:268-276 | the segment size is the value of the last UDP_GRO message, 0 without one |
| `LinuxRecv.LastStampWins` | src/platform/linux.rs:278-292 | the timestamp is that of the last SCM_TIMESTAMPNS message, the slot's own without one |
| `LinuxRecv.LastDestWins` | src/platform/linux.rs:294-321 | the destination is the address of the last packet-info message, of either family, with port 0, the slot's own without one |
| `LinuxRecv.Arrive` | src/platform/linux.rs:249-328 | length, peer and control data of a message are stored in the cursor's slot, and nowhere else |
| `LinuxRecv.CopySegment` | src/platform/linux.rs:357-370 | a later segment takes its bytes and length, the message's peer and the first slot's metadata; no other slot changes |
| `LinuxRecv.PlaceSegment` | src/platform/linux.rs:349-371 | placing one more segment extends the layout of the segments by one |
| `LinuxRecv.SplitInto` | src/platform/linux.rs:331-377 | lays the pieces of the coalesced bytes out from slot `first`, as many as there are or as fit, and leaves every other slot alone |
| `LinuxRecv.Step` | src/platform/linux.rs:248-383 | one message panics exactly when the cursor is past the slots; otherwise it advances by what the message's length and segment size ask for, cut at the capacity, never touches slots before the cursor and keeps the bytes after it |
| `LinuxRecv.ReceiveMessage` | src/platform/linux.rs:248-383 | the loop body as written does exactly that step |
| `LinuxRecv.NextMessage` | src/platform/linux.rs:248-383 | takes the loop from its state after `i` messages to its state after `i + 1` |
| `LinuxRecv.Process` | src/platform/linux.rs:245-386 | after any number of messages: headers and capacity alone decide whether the loop has panicked and where the cursor is; buffers keep their size, lengths stay within them, slots from the cursor on keep their bytes |
| `LinuxRecv.SlotsAreFinal` | src/platform/linux.rs:377-382 | a slot the cursor has passed is never touched again |
| `LinuxRecv.ProcessMessages` | src/platform/linux.rs:245-386 | the loop as written panics, fills the slots and sets the length exactly as that function says |
| `GroDelivery.PlacementIsExact` | src/platform/linux.rs:245-386 | for every state and headers: every payload is delivered in order, cut at capacity, without panic, if and only if the headers are placed |
| `GroDelivery.PlacedIsDelivered` | src/platform/linux.rs:245-386 | placed messages are delivered from any batch state |
| `GroDelivery.UnplacedFails` | src/platform/linux.rs:245-386 | for headers that are not placed there are payloads the loop reports wrongly or panics on |
| `GroDelivery.StepDelivers` | src/platform/linux.rs:331-379 | a message whose bytes lie in the cursor's slot adds exactly its datagrams, cut at capacity, to what the caller sees |
| `GroDelivery.EarlierSplitOverwritesLaterMessage` | src/platform/linux.rs:353-371 | a coalesced message before an ordinary one: a byte nobody sent with a slot to spare, a panic without |
| `Reception.OrdinaryAreReported` | src/platform/linux.rs:245-386 | messages without a segment size are reported one per slot, bytes and peer as sent |
| `Reception.CoalescedAreReported` | src/platform/linux.rs:331-377 | end to end: datagrams coalesced at the size the last UDP_GRO message gives, after any ordinary messages, are reported one per slot as they were sent, with their peer, as far as there are slots |
| `Reception.CoalescedAreCounted` | src/platform/linux.rs:377-386 | and the caller is told their number, cut at the capacity |
| `GroMetadata.AlignedIsPlaced` | src/platform/linux.rs:245-386 | alignment with lengths below 65536 is placed |
| `GroMetadata.MisalignedIsNotPlaced` | src/platform/linux.rs:377-382 | a message taking none or several slots makes a following non-empty one misplaced |
| `GroMetadata.SegmentsShareMetadata` | src/platform/linux.rs:253-371 | in every receive that does not panic, however its messages are split: all segments of a message carry its peer, and one and the same timestamp and destination, namely what the first slot held before overridden by the control data of empty messages just before it and of the message |
| `GroMetadata.SegmentsPartitionReport` | src/platform/linux.rs:377-386 | every reported slot is a segment of exactly one message |
| `GroMetadata.MetadataIsOwnIffFresh` | src/platform/linux.rs:278-321 | in every receive that does not panic the report is exactly the messages' own timestamps and destinations iff, for every message that carries none, neither its first slot nor an empty message just before left one |
| `GroMetadata.ClearedBatchReportsOwn` | src/batch.rs:520-533 | after clear, if no message but the last is empty, a slot has a timestamp or destination exactly when its message carried one, with any splits |
| `GroMetadata.AlignedClearedReceiveIsExact` | src/platform/linux.rs:245-386 | an aligned receive into a cleared batch reports the datagrams, their peers and their own metadata |
| `GroMetadata.EmptyMessageLendsTimestamp` | src/platform/linux.rs:278-291 | clearing is not enough in general: an empty coalesced message leaves its timestamp to the next message |
| `SendHeaders.BuildOnStack` | src/platform/linux.rs:43-68 | every header names exactly its entry's bytes and encoded destination |
| `SendHeaders.Rank` | src/platform/linux.rs:115-123 | the packed index never exceeds the entry's own |
| `SendHeaders.FillEntry` | src/platform/linux.rs:48-67 | one entry of the stack table: its address is encoded at the packed index, tables before it unchanged |
| `SendHeaders.PushTables` | src/platform/linux.rs:83-113 | after the first pass the address pointers of addressed entries are dead |
| `SendHeaders.SetPointers` | src/platform/linux.rs:115-123 | the second pass resets every data pointer, and every address pointer to the packed index |
| `SendHeaders.BuildOnHeap` | src/platform/linux.rs:83-123 | both passes: one address element per entry, named by rank, no dead pointer left |
| `SendHeaders.HeapNamesIffRank` | src/platform/macos.rs:90-126 | a heap header names its entry iff the entry has no destination or the entry at its rank has the same one |
| `SendHeaders.HeapExactIffAddressedFirst` | src/platform/linux.rs:83-123 | the heap table is right for every choice of destinations iff addressed entries come first |
| `SendHeaders.AddressedFirstIsRankExact` | src/platform/linux.rs:83-123 | all-addressed, all-connected and addressed-first batches are named right |
| `SendHeaders.ConnectedEntryFirstShiftsPeers` | src/platform/linux.rs:115-123 | in a heap table of any length, one entry without destination put first sends the next to 0.0.0.0:0 and every later one to its predecessor's peer |
| `SendHeaders.ThirdPacketGoesAstray` | src/platform/macos.rs:118-126 | the smallest such batch with two peers: the third header names the second one's |
| `SendHeaders.FirstMisnamedReadsZeroed` | src/platform/linux.rs:115-123 | the first entry of any batch that is not named right reads an element that was never written, and an entry without destination comes before it |
| `SendHeaders.AstrayOnlyAfterZeroed` | src/platform/linux.rs:115-123 | if the first k packets of a heap table are not the entries, one of them is sent by a zeroed element and one has no destination |
| `SendHeaders.HeapPrefixIffRanks` | src/platform/macos.rs:118-126 | the first k packets read from a heap table are the entries iff for each the element at its rank has its destination, or is zeroed while the destination is 0.0.0.0:0 |
| `SendHeaders.HeapSendsExactlyIffAddressedFirst` | src/platform/linux.rs:83-123 | for every choice of destinations the packets are the entries iff addressed entries come first |
| `SendHeaders.NamesAreRead` | src/platform/linux.rs:72-72 | the kernel reads the entries out of headers that name them |
| `SendHeaders.HeapTableIsRead` | src/platform/linux.rs:126-126 | no dead pointer reaches the kernel, and for every batch which packet it reads for each entry |
| `SendBackends.Accepted` | src/platform/fallback.rs:13-26 | the number of packets before the first failure |
| `SendBackends.AcceptedIs` | src/platform/fallback.rs:13-26 | that number is determined by the script |
| `SendBackends.LoopSend` | src/platform/fallback.rs:6-27 | sends in order until one fails, without destinations on a connected socket; would-block is success with the count, any other failure an error |
| `SendBackends.WindowsSend` | src/platform/windows.rs:144-205 | the same packets; a failure after a success is success with the count |
| `SendBackends.BulkSend` | src/platform/linux.rs:70-81 | the kernel contract: the named packets in order until one fails, an error only if the first does |
| `SendBackends.TableSend` | src/platform/linux.rs:40-136 | builds a table and sends it: the wire is exactly the accepted prefix of what the kernel reads, the entries on the stack path, the packets by rank on the heap path |
| `SendBackends.LinuxSend` | src/platform/linux.rs:34-137 | result and wire of one bulk call over either table, or of the loop when the call does not exist |
| `SendBackends.RetryEintr` | src/platform/macos.rs:51-63 | skips interruptions and nothing else |
| `SendBackends.MacSend` | src/platform/macos.rs:65-147 | result and wire of the loop when connected or without the bulk call, else of the heap table sent once interruptions are over |
| `SendBackends.PlatformSend` | src/socket.rs:587-591 | result and wire of one attempt on every platform, from the script position where its first packet is tried |
| `SendBackends.ErrorsByPlatform` | src/platform/windows.rs:191-202 | per platform, when an attempt fails and with what: on Windows iff the first packet fails other than with would-block, so nothing was sent; with single calls elsewhere iff the first failure, wherever it comes, is not would-block; with a bulk call iff the first packet fails; otherwise success with the number sent |
| `SendBackends.StartByPlatform` | src/platform/macos.rs:128-131 | per platform, which answer of the system is for the first packet |
| `SendBackends.PacketsByPlatform` | src/platform/fallback.rs:13-26 | per platform, which packets go out: the data of the entries accepted in a row, without destination by single calls on a connected socket |
| `SendBackends.SmallBatchesKeepDestinations` | src/platform/linux.rs:40-81 | up to 64 entries on Linux go out with their own destinations |
| `SendBackends.AddressedFirstKeepDestinations` | src/platform/linux.rs:83-136 | so do larger ones, and those of `sendmsg_x`, wherever addressed entries come first |
| `SendBackends.FullCountIffAllAccepted` | src/platform/linux.rs:72-74 | one attempt reports the full length iff the system accepts every packet |
| `SendBackends.ResultTellsWire` | src/platform/windows.rs:191-204 | a count is what was sent; an error after a packet is exactly a per-packet loop's hard error; would-block is an error exactly on a bulk call whose first packet it stopped, and zero packets exactly on a loop |
| `SendBackends.WireIsEntriesIff` | src/platform/fallback.rs:16-19 | the wire is the first entries iff none of them loses its destination to a loop on a connected socket or takes another's in a heap table |
| `SendBackends.RefusalKeepsBulkSendsRight` | src/platform/linux.rs:115-136 | for every batch and script: a bulk send puts anything but the first entries on the wire only if the system accepts a packet whose address element was never written, and one without destination; where it refuses either kind, every bulk send is right |
| `SendBackends.SuccessWithWrongPeers` | src/platform/linux.rs:115-136 | above 64 entries on Linux, connected or not: if the system accepts all packets, the one sent by a zeroed element included, the batch is reported sent in full and every packet from the third on went to another entry's peer |
| `SendBackends.PlatformsSendTheSame` | src/platform/linux.rs:568-588 | for one script, without overriding destinations, with exact ranks and no interruption or missing call first, every platform puts the same packets on the wire in the same order |
| `SendBackends.ResultsDiffer` | src/platform/windows.rs:191-204 | for one script the paths' results differ exactly at a would-block on packet 0 and at a hard error after a success, and how |
| `RecvBackends.Landed` | src/platform/fallback.rs:34-38 | a slot shows the datagram that landed in it when its length fits u16 |
| `RecvBackends.Land` | src/platform/fallback.rs:34-40 | stores one datagram in the next slot and sets the length |
| `RecvBackends.RecvLoop` | src/platform/fallback.rs:29-47 | datagrams land one per slot in order until a call fails; an immediate would-block leaves the old length |
| `RecvBackends.RecvMsgX` | src/platform/macos.rs:190-200 | messages land one per slot, length set to their number |
| `RecvBackends.LandedAreSeen` | src/platform/windows.rs:280-294 | landed messages are seen by the caller in order |
| `RecvBackends.RetryEintr` | src/platform/linux.rs:16-28 | returns at the first answer that is not an interruption |
| `RecvBackends.LinuxTryRecv` | src/platform/linux.rs:200-387 | answer from script and capacity alone; whatever it returns, the slots are the message loop's outcome on what `recvmmsg` filled, or without it the datagrams landed before the loop stopped; a refused bulk call changes nothing; the length, stale after an immediate would-block |
| `RecvBackends.MacTryRecv` | src/platform/macos.rs:149-223 | the same for `recvmsg_x` or the loop |
| `RecvBackends.PlatformRecv` | src/socket.rs:635-639 | on every platform: answer and length as functions of script, capacity and old length, and what the slots hold after any return |
| `RecvBackends.SingleCallsAnswer` | src/platform/fallback.rs:29-47 | with single calls an attempt fails with an error iff the first call that delivers nothing is refused with it, other than would-block; it succeeds with k iff k datagrams came and then a would-block or the end of the slots |
| `RecvBackends.BulkAnswer` | src/platform/macos.rs:185-200 | a refused bulk call is answered with the system's own error, `recvmsg_x` with its number of messages, a batch without slots with zero |
| `RecvBackends.LeftShows` | src/socket.rs:635-639 | after a positive count that is what arrived, in order, for `recvmmsg` if its messages are placed, otherwise if the lengths fit u16, and the length is the count |
| `RecvBackends.LenIsCountIff` | src/batch.rs:450-454 | after a success `len()` is the count iff the count is positive, the old length was 0, or a bulk call was made |
| `RecvBackends.AnswerTellsTaken` | src/platform/fallback.rs:29-47 | an attempt reports all datagrams it took, or as many as there are slots; one that blocks or reports nothing took none; a failing one took some, and loses them, iff it is a loop cut short by a hard error |
| `Adaptive.AdaptiveState.constructor` | src/socket.rs:285-292 | the initial target is the given size brought into [1, 1024] |
| `Adaptive.AdaptiveState.RecordWouldBlock` | src/socket.rs:294-297 | counts the event in both counters |
| `Adaptive.AdaptiveState.RecordEvent` | src/socket.rs:299-301 | counts a completion in the total only |
| `Adaptive.AdaptiveState.MaybeAdjust` | src/socket.rs:304-320 | adjusts as the controller function says when due, else changes nothing |
| `Adaptive.TargetFollowsAdjustments` | src/socket.rs:304-320 | over every run the target is determined by the rates of its adjustments |
| `Adaptive.TargetStaysInRange` | src/socket.rs:281-320 | over every run the target stays in [1, 1024] |
| `Adaptive.CompletionsNeverRetarget` | src/socket.rs:601-605 | direct attempts only add to the total |
| `Adaptive.OneIsAbsorbing` | src/socket.rs:312-316 | no run leaves target 1 |
| `Adaptive.TenHighRatesAreForever` | src/socket.rs:312-313 | ten high-rate adjustments in a row, anywhere in any run, leave the target at 1 whatever follows |
| `Adaptive.SixteenLowRatesReachMaximum` | src/socket.rs:314-316 | sixteen low-rate adjustments reach 1024 from any target of at least 2; from 2 fewer do not |
| `Adaptive.GrowsIff` | src/socket.rs:312-316 | a low rate raises the target exactly between 2 and 1023, a high rate lowers it exactly from 2 on |
| `Adaptive.CountersAreTheWindow` | src/socket.rs:294-319 | the counters are the number of events and of would-blocks since the last adjustment |
| `Adaptive.EveryGrowthIsEarned` | src/socket.rs:505-512 | in every reachable state blocked is at most total, the zero guard never decides, and growth has ten completions in its window |
| `Adaptive.AdjustsAsDocumented` | src/socket.rs:968-987 | the target falls, or rises, exactly when due and above 30, or below 10, percent of the window blocked, by half, except at 1 and 1024 |
| `Adaptive.AdjustmentsAreRateLimited` | src/socket.rs:304-319 | with a monotone clock, at most one adjustment per 100 ms over every run |
| `Adaptive.PairedBlocksCountTwice` | src/socket.rs:543-551 | over every list of events in which each would-block directly follows a completion, twice the blocked count never exceeds the total |
| `Metrics.RunKeepsInv` | src/metrics.rs:144-192 | in every interleaving each counter plus what callers still owe it equals what the calls returned |
| `Metrics.CountersNeverContradict` | src/socket.rs:587-615 | at every moment syscalls <= batches <= syscalls + callers in flight, would-blocks <= errors |
| `Metrics.CountersAreExactWhenQuiet` | src/socket.rs:587-615 | at rest batches plus errors is the number of attempts and packets the sum of returned counts |
| `Metrics.QuietCountersInNumbers` | src/metrics.rs:144-192 | at rest the counters are the packets reported, the successes, the failures and the would-blocks among the calls that returned |
| `Metrics.RecordedInNumbers` | src/socket.rs:590-612 | what one result adds to each counter |
| `Metrics.LoneCallerRecords` | src/socket.rs:587-615 | one caller moved alone through the interleaving model records exactly what the class does |
| `Metrics.Counters.Record` | src/socket.rs:590-612 | one attempt adds exactly what its result is worth to each counter |
| `Runs.SentIsEntriesIff` | src/socket.rs:501-517 | every run: `Ok(n)` counts the wire, and the wire is entries `0..n`, once and in order, iff the last attempt sends each of those as it is |
| `Runs.RefusalKeepsRunsRight` | src/socket.rs:501-517 | every run whose last attempt is a bulk call put the first entries on the wire, if the system refuses packets without destination or those sent by an unwritten address element |
| `Runs.FullCountIff` | src/socket.rs:489-490 | every run returns the length of the batch iff the system accepts every packet of the last attempt |
| `Runs.PartialSendIsOk` | src/socket.rs:489-490 | a script on which `send_batch` returns success for one of two packets, on every platform |
| `Runs.FailureSentSomethingIff` | src/socket.rs:501-517 | a run that does not succeed has sent something iff a per-packet loop met a hard error after a packet |
| `Runs.OnlyBulkCallsRetry` | src/socket.rs:505-513 | a per-packet first attempt ends the run; would-block is returned only if waiting failed with it; `Ok(0)` of a non-empty batch is a loop's would-block |
| `Runs.RetriesWhileBlocked` | src/socket.rs:501-516 | every run: all attempts before the last were blocked bulk calls whose wait succeeded; the run is still waiting iff all attempts are; an attempt that was not blocked ends it with its own result, a blocked one with the error of its wait |
| `Runs.ControllerSeesBlocks` | src/socket.rs:505-511 | the controller sees one would-block per blocked attempt and then the completion of a success, nothing else |
| `Runs.RunIsCounted` | src/socket.rs:590-612 | a run counts one error and would-block per blocked attempt and then what its last attempt returned |
| `Runs.FirstTripNeverRetargets` | src/socket.rs:601-605 | a run that does not block leaves the target alone |
| `Runs.OneDatagram` | src/socket.rs:684-689 | a run of one addressed entry: where the datagram goes, and when success means it was not sent |
| `Runs.RecvRunEnds` | src/socket.rs:540-565 | every run: success is a positive count, never at capacity 0; would-block only from waiting; a crash iff the Linux messages before the last ask for all slots |
| `Runs.RetriesWhileEmpty` | src/socket.rs:540-565 | every run: all attempts before the last brought nothing and their wait succeeded; the run is still waiting iff all attempts are so; an attempt that brought something, failed or panicked ends it with its own outcome, an empty one with the error of its wait |
| `Runs.HardErrorEndsRun` | src/socket.rs:562-562 | a hard error of a single call, after any number of datagrams, ends the run with itself |
| `Runs.SuccessShows` | src/socket.rs:552-552 | what a successful run leaves in the slots is what its last attempt received, and the length is the count |
| `Runs.RunTellsTaken` | src/socket.rs:540-565 | every run: success reports all datagrams the whole run took from the system, or as many as there are slots; a run without success, crashes aside, took some, and lost them, iff its last attempt was a loop cut short by a hard error |
| `Runs.LoopsPair` | src/socket.rs:543-551 | one caller, attempts made datagram by datagram, on Linux without `recvmmsg` too: each block is paired with a completion |
| `Runs.LoopsBalance` | src/socket.rs:649-653 | there, while no other caller overlaps, twice the blocked count never exceeds the total, over every run |
| `Receivers.TripIsMoves` | src/socket.rs:543-551 | the locked sections of one such trip: a completion, and a would-block only after an empty one |
| `Receivers.InterleavingIsARun` | src/socket.rs:544-549 | any interleaving of callers is a run of the controller, so all results over every run hold of it |
| `Receivers.OverlappingBlocks` | src/socket.rs:649-653 | with n callers, at every moment of every interleaving, twice the blocked count plus the blocks still owed is at most the total plus n - 1 |
| `Receivers.BoundIsAttained` | src/socket.rs:304-320 | for every n some interleaving attains that bound |
| `Receivers.TwoReceiversBlockMoreThanHalf` | src/socket.rs:543-551 | the events of two overlapping callers after which more than half are would-blocks |
| `Socket.BingerUdp.FromStd` | src/socket.rs:429-478 | controllers and counters of the two directions are separate and fresh |
| `Socket.BingerUdp.TrySendBatch` | src/socket.rs:587-615 | one attempt: result and wire, one completion on success, counters; the recommended size does not change |
| `Socket.BingerUdp.SendBatch` | src/socket.rs:501-517 | result, wire and number of attempts of the whole run as a function of the attempts (whose laws are the rows of `Runs`); `Ok(n)` put entries `0..n` on the wire iff each was sent as it is; the full length iff all accepted; controller and counters saw exactly these attempts |
| `Socket.BingerUdp.Retry` | src/socket.rs:501-517 | the loop meets that function |
| `Socket.BingerUdp.SendTrip` | src/socket.rs:503-513 | one trip takes the run, the wire and the controller one step on |
| `Socket.BingerUdp.SendTo` | src/socket.rs:684-689 | a `send_batch` run of the one entry, success told as the length and all else as it is; only this datagram, at most once, goes to the given address (or to the peer, from a loop on a connected socket); success without it iff a loop met a would-block on the last attempt |
| `Socket.BingerUdp.TrySendTo` | src/socket.rs:733-738 | one attempt; a would-block is returned as it is and not noted; one completion on success, counters |
| `Socket.BingerUdp.TryRecvBatch` | src/socket.rs:635-663 | one attempt: answer, slots and length whatever it returns, one completion on success, counters |
| `Socket.BingerUdp.RecvTrip` | src/socket.rs:542-563 | one trip: how it ends, what it leaves in slots and length, and what controller and counters saw, from the answer |
| `Socket.BingerUdp.RecvBatch` | src/socket.rs:540-565 | result and number of attempts of the whole run as a function of the attempts (whose laws are the rows of `Runs`); slots and length after it, whatever the outcome, follow attempt by attempt from those before; `Ok(n)` has `1 <= n <= capacity`, `len() == n` and the slots showing the last attempt; controller and counters saw exactly these attempts; the recommended size never changes; where every attempt is made datagram by datagram and no other receiver overlaps, twice the blocked count stays within the total |
| `Socket.BingerUdp.RetryRecv` | src/socket.rs:540-565 | the loop meets that function |
| `Socket.BingerUdp.EndTrip` | src/socket.rs:543-562 | zero packets and would-block are recorded and waited for, anything else ends the run |
| `Socket.BingerUdp.RecvFrom` | src/socket.rs:705-713 | a `recv_batch` run with one slot: success iff it succeeds, told as the length of the slot's data, which is the buffer's start, the rest unchanged; all else as it is, the buffer untouched; the slot shows the last attempt's first datagram under the conditions above |
| `Socket.BingerUdp.RecvOne` | src/socket.rs:706-709 | its run and what the one slot then holds |
| `Socket.NoteBlocked` | src/socket.rs:505-511 | a would-block is recorded and then adjusted for |

## Left out

- Metrics: the interleaving model works on values with one step per `fetch_add`, not on shared objects; snapshots read counter by counter and `reset` are not modelled.
- `BufferPool` (src/bufs.rs), `Config` builders, platform capabilities, TTL, pacing, busy-poll and other option setters: they would only add easy members.
- The Windows codec (src/sockaddr/windows_impl.rs and src/platform/windows.rs:23-87): the same field mapping as the Unix one.
- `try_send_gso` and `send_gso`: one system call each; their segment size is the one the splitting laws speak of.
- Control-message pointer arithmetic: control data is a finite list of decoded messages.
- `sin_len` and other BSD layouts beyond the macOS one, and system limits on bulk counts (the script may stop anywhere).
- Liveness of waiting for readiness, and a socket connected or disconnected during a call.
- Lifetimes of the raw payload pointers in send slots: payloads are immutable byte sequences.
- The atomicity of the counters under reset, and 64-bit wrap-around.
