# Modem tooling: protocols and data paths, proved

A Dafny model of the data paths and protocols in the modem tooling of this repository, with memory
as arrays and objects, and devices, clocks and callers as parameters of the steps.

| files | what they model |
|---|---|
| `QmapFrame`, `QmapSkb` | QMAP framing in the Fibocom driver, and the reference parser of aggregates |
| `QmapRx` | the two receive paths, one of which splits an aggregate in place |
| `QmapTx`, `QmapSteps`, `QmapLimits` | uplink aggregation: the code of its locked sections, all interleavings of transmit call, timer, work item and settings, and what happens while a setting takes effect |
| `Sparse`, `Runs`, `Firehose`, `Placement` | what a sparse image means; its runs of chunks; scan, offset arithmetic and streaming; when runs are placed right; plain images |
| `Word32`, `Md5Block`, `Md5`, `Md5Vector` | words and their numbers; the unrolled block function and the incremental digest, against RFC 1321; a test vector of the RFC |
| `Crc`, `Hdlc`, `Download` | frame check sequence, octet stuffing and stop-and-wait writing of the download protocol, against RFC 1662 |
| `AtLines`, `AtReader`, `AtCuts` | the lines of a stream; the line reader of the AT channel as a function of buffer, stream and cuts; when the cuts matter |
| `AtCommand`, `AtCallers` | classification of lines and the assembly of a response; several callers |
| `QmiIds`, `QmiMatch`, `QmiSteps` | transaction ids, one pending request with timeouts, and all runs of callers and reader |
| `QmiTlv` | building and searching QMI messages |
| `Bytes`, `Arith` | bytes, options, concatenation; division with remainder |

Each imperative part is a class or a method over arrays whose contract ties it to a specification
function; the lemmas then say what that function means. Check the project with
`dafny verify dfyconfig.toml`.

## Where the code does not do what one would expect

Each of these is a lemma or a contract below, with the exact condition.

- The receive paths do not compare a frame's padding with its length. With more padding than data
  the copying path crashes; the in-place path crashes, or queues the rest of the URB and goes on,
  and a later header is then written over that packet (`QmapRx.AliasSafeIff`,
  `QmapRx.OverwrittenIff`, `QmapRx.FirstOverwritten`).
- A setting for uplink aggregation is two unprotected writes. Between them packets are aggregated
  under the new datagram limit and the old size limit: aggregates can exceed a smaller size limit,
  and a larger one makes the driver write behind the end of a buffer (`QmapLimits.AboveLimitIff`,
  `QmapLimits.OverrunIff`). A size limit below the longest frame does so by itself
  (`QmapLimits.AllocationOverrunIff`).
- A configured minimum padding for the downlink breaks the round trip for frames built by the
  driver itself (`QmapFrame.RoundTripNeedsNoMinimumPadding`).
- A sparse image that starts with a don't-care chunk is programmed at the wrong sectors
  (`Placement.LeadingGapPlacement`). So is one with a run of 65536 chunks or more in front of
  another run (`Placement.PlacedIff`), and one with 101 data runs, unless two table entries happen to
  agree (`Placement.PlacedIffOverlap`).
- `gpt_empty0.bin` is announced with the right size for 512-byte sectors, but not in general for
  larger ones (`Firehose.AnnouncedIsStreamed`).
- `handle_write` advances the address but not its data pointer, so every block repeats the first
  (`Download.TiledIff`, `Download.SecondBlockWrong`). A block with too many flag and escape
  characters overruns the send buffer (`Download.BlockFitsIff`, `Download.EscapesDoNotFit`).
- An AT command sent while another is pending is refused, but the refusal also throws away the
  pending command, whose caller then dereferences NULL or is given the response to a third command
  (`AtCallers.FailsIff`, `AtCallers.RefusalCrashes`). Raw data that was not asked for stays behind,
  and a later command loses its CONNECT to it (`AtCommand.ConnectLostIff`,
  `AtCommand.Channel.SendRaw`, `AtCommand.ConnectLost`).
- Whether the line reader sees an SMS prompt, which has no newline, depends on how the stream is cut
  (`AtCuts.CanMeetIff`, `AtCuts.CanMissIff`, `AtCuts.CutsMatterIff`), and behind one it goes on with
  what an earlier read has left in the buffer (`AtCuts.StaleLine`).
- Looking up an absent TLV leads out of a QMI message whose lengths disagree (`QmiTlv.InsideIff`).
- Concurrent QMI callers can be given each other's replies, because waiting releases the mutex
  (`QmiSteps.CrossesIff`, `QmiSteps.SendExposesIff`, `QmiSteps.ConcurrentCallersCross`), one response can
  be given to two of them (`QmiSteps.TwiceIff`), and a stray assignment replaces a response while
  somebody waits for it (`QmiSteps.OverwriteExposesIff`).

## Model

| member | source | states |
|---|---|---|
| `QmapFrame.ReadHead` | feeds/qmodem/fibocom_QMI_WWAN/src/qmi_wwan_f.c:1586-1633 | the checks both receivers make of the frame at the head of a buffer: a frame that is not rejected takes between four bytes and what is left, an accepted one names a registered device, and header, payload, padding and configured minimum padding add up to the bytes it takes |
| `QmapFrame.HeadFields` | feeds/qmodem/fibocom_QMI_WWAN/src/qmi_wwan_f.c:1586-1633 | the judgement as an if and only if over the bytes of the frame: rejected, skipped or taken, with the device, the payload length and the size that its fields give |
| `QmapFrame.PadFor` | feeds/qmodem/fibocom_QMI_WWAN/src/qmi_wwan_f.c:588-600 | the padding is below four, never exceeds the tailroom, and makes the length a multiple of four whenever three bytes of tailroom are there |
| `QmapFrame.FrameFields` | feeds/qmodem/fibocom_QMI_WWAN/src/qmi_wwan_f.c:588-647 | where flags, mux id, length and payload stand in a framed packet of either header version, and what the last four bytes of the longer header are |
| `QmapFrame.HeadOfFrame` | feeds/qmodem/fibocom_QMI_WWAN/src/qmi_wwan_f.c:588-647 | a receiver that meets a framed packet reads back its device, IP version, payload bounds and size |
| `QmapFrame.SplitOfAggregate` | feeds/qmodem/fibocom_QMI_WWAN/src/qmi_wwan_f.c:2206-2309 | aggregate then split is the identity: splitting any concatenation of frames gives the original packets, devices and order, with or without padding, for either receiver, the legacy one on the four-byte headers it reads |
| `QmapFrame.RoundTripNeedsNoMinimumPadding` | feeds/qmodem/fibocom_QMI_WWAN/src/qmi_wwan_f.c:2200-2222 | the round trip holds if and only if the aggregate is empty or the configured minimum padding is zero |
| `QmapFrame.ReceiversAgree` | feeds/qmodem/fibocom_QMI_WWAN/src/qmi_wwan_f.c:1586-1691 | on any byte string without extension headers the two receivers accept the same packets in the same order and stop for the same reason, errors included |
| `QmapSkb.Skb.AddQhdr` | feeds/qmodem/fibocom_QMI_WWAN/src/qmi_wwan_f.c:588-609 | in-place framing: the grown socket buffer holds exactly the frame of the old packet, its padding taken from the tailroom |
| `QmapSkb.Skb.AddQhdrV5` | feeds/qmodem/fibocom_QMI_WWAN/src/qmi_wwan_f.c:611-647 | the same for the eight-byte header |
| `QmapRx.FollowStep` | feeds/qmodem/fibocom_QMI_WWAN/src/qmi_wwan_f.c:1584-1677 | one turn of the receiver's loop: which frames are queued, as clones or as copies, why the loop is left, and what is taken for the headroom of the next frame |
| `QmapRx.QueuedRight` | feeds/qmodem/fibocom_QMI_WWAN/src/qmi_wwan_f.c:1635-1670 | alias safety: for every buffer, headroom and mix of skipped, cloned and copied frames, each frame that announces no more padding than data ends up in the queue with exactly its own Ethernet header and its original payload, although headers are written into the buffer that is being parsed |
| `QmapRx.CarriedFrame` | feeds/qmodem/fibocom_QMI_WWAN/src/qmi_wwan_f.c:1610-1664 | in bytes: such a frame is for the device its mux id names, starts with that device's address, the address of the sender and the EtherType of the IP version that its payload starts with, and goes on with what arrived between header and padding |
| `QmapRx.HeadroomLeft` | feeds/qmodem/fibocom_QMI_WWAN/src/qmi_wwan_f.c:1635-1653 | a clone leaves its padding as headroom for the next frame, a copy all that its frame held |
| `QmapRx.OverwrittenIff` | feeds/qmodem/fibocom_QMI_WWAN/src/qmi_wwan_f.c:1635-1670 | a later clone's header is written over an earlier clone's bytes if and only if the earlier frame announced more padding than data |
| `QmapRx.FollowAgrees` | feeds/qmodem/fibocom_QMI_WWAN/src/qmi_wwan_f.c:1584-1677 | the queued frames are those of the copying parse, as many as there is memory for, up to the first frame with more padding than data; that one is queued too if and only if the headroom in front of it allows a clone, and crashes the receiver otherwise |
| `QmapRx.AliasSafeIff` | feeds/qmodem/fibocom_QMI_WWAN/src/qmi_wwan_f.c:1573-1692 | the queue gains exactly the packets of the copying parse, without a crash, if and only if no frame with more padding than data is reached while there is memory for it |
| `QmapRx.OutcomeOf` | feeds/qmodem/fibocom_QMI_WWAN/src/qmi_wwan_f.c:1573-1692 | the outcome of any buffer against the copying parse, with the reason for leaving the loop; an untrimmed clone is followed by more frames |
| `QmapRx.IllPaddedDelivered` | feeds/qmodem/fibocom_QMI_WWAN/src/qmi_wwan_f.c:1594-1645 | five bytes that announce one byte of padding and no data are delivered with the rest of the buffer for a payload |
| `QmapRx.FirstOverwritten` | feeds/qmodem/fibocom_QMI_WWAN/src/qmi_wwan_f.c:1635-1670 | two frames of five bytes, the first with nineteen bytes of padding too many: the second one's header replaces the first one's payload |
| `QmapRx.LegacyReceiver.RxFixup` | feeds/qmodem/fibocom_QMI_WWAN/src/qmi_wwan_f.c:1573-1692 | one URB, in place: final bytes of the buffer, reason for leaving the loop, and that what was delivered followed by what is queued grows by exactly what the buffer carries, Ethernet frames with the right addresses and EtherType wherever the padding does not exceed the data; a URB parsed to its end empties the queue, any other leaves it waiting; only bytes from ten in front of the URB on are written |
| `QmapRx.LegacyReceiver.ParseUrb` | feeds/qmodem/fibocom_QMI_WWAN/src/qmi_wwan_f.c:1584-1677 | the parsing loop over the shared buffer, with the views it queues and the bytes it writes |
| `QmapRx.LegacyReceiver.Take` | feeds/qmodem/fibocom_QMI_WWAN/src/qmi_wwan_f.c:1635-1676 | one frame, cloned or copied: the view that is queued, the header that is written, the headroom of the next frame; the unread input stays as it was |
| `QmapRx.LegacyReceiver.Drain` | feeds/qmodem/fibocom_QMI_WWAN/src/qmi_wwan_f.c:1679-1688 | everything queued is delivered, in order |
| `QmapRx.LegacyReceiver.ReceiveAll` | feeds/qmodem/fibocom_QMI_WWAN/src/qmi_wwan_f.c:1573-1692 | over any run of URBs, up to one that crashes the receiver, frames delivered followed by frames queued are all that the URBs carried, in order: a refused URB loses nothing, it only delays |
| `QmapRx.HarmlessRun` | feeds/qmodem/fibocom_QMI_WWAN/src/qmi_wwan_f.c:1573-1692 | and that is, for URBs in which no ill-padded frame is reached, the packets of the copying parse, with no crash |
| `QmapRx.CopiedFrames` | feeds/qmodem/fibocom_QMI_WWAN/src/qmi_wwan_f.c:2240-2292 | every frame the copying receiver hands over has the address of its device, that of the sender, and the EtherType of the IP version of its payload |
| `QmapRx.RmnetRx` | feeds/qmodem/fibocom_QMI_WWAN/src/qmi_wwan_f.c:2193-2310 | the copying receiver delivers exactly the Ethernet frames of the reference parse, up to a failed allocation, errors behind them notwithstanding, all of them with the right addresses and EtherType, and crashes over a frame with more padding than data |
| `QmapRx.SameFramesIff` | feeds/qmodem/fibocom_QMI_WWAN/src/qmi_wwan_f.c:2193-2310 | for an aggregate without extension headers, whatever its headroom, both receivers add the same Ethernet frames if and only if the copying one does not crash over it |
| `QmapTx.PassConserves` | feeds/qmodem/fibocom_QMI_WWAN/src/qmi_wwan_f.c:911-985 | one locked section: detached bytes, then the buffer, then the packet still in hand, are the old buffer followed by the packet; the packet stays in hand exactly when the buffer would reach the size limit, and then no buffer is left |
| `QmapTx.ElapsedIs` | feeds/qmodem/fibocom_QMI_WWAN/src/qmi_wwan_f.c:928-930 | the test on seconds and nanoseconds is a plain comparison with the limit, unless the clock runs backwards |
| `QmapTx.PassOutcome` | feeds/qmodem/fibocom_QMI_WWAN/src/qmi_wwan_f.c:917-983 | when the packet is handed over and when it stays: at once if it is urgent and the last one announced, if the last hand-over is longer ago than the limit for joining or for starting a buffer, if the count is reached, or if there is no memory, and otherwise not |
| `QmapTx.Transmitter.LockedSection` | feeds/qmodem/fibocom_QMI_WWAN/src/qmi_wwan_f.c:911-985 | the locked section, field by field, for every frame, clock reading, urgency and allocation result: a full buffer goes and leaves the packet in hand, and any other outcome is that of `PassOutcome` |
| `QmapTx.Transmitter.TxAgg` | feeds/qmodem/fibocom_QMI_WWAN/src/qmi_wwan_f.c:877-1008 | one uninterrupted call: bytes handed over followed by the buffer grow by exactly the frame, in at most two passes, and a buffer left behind has its timer queued; buffer, count and hand-over time behind the call, and what was transmitted, for every case of size, count, clock, urgency and memory: the packet stays in a buffer if and only if nothing calls for its hand-over |
| `QmapTx.Transmitter.AggWork` | feeds/qmodem/fibocom_QMI_WWAN/src/qmi_wwan_f.c:834-858 | the work item hands over the buffer if there is one, with the clock as the time of the hand-over, and changes nothing otherwise |
| `QmapTx.FirstSettingWins` | feeds/qmodem/fibocom_QMI_WWAN/src/qmi_wwan_f.c:1338-1365 | of any list of settings the first one that asks for several datagrams is in force at the end, and nothing behind it |
| `QmapSteps.PassBounded` | feeds/qmodem/fibocom_QMI_WWAN/src/qmi_wwan_f.c:917-983 | the locked section keeps the bounds: buffer null iff count zero, count below the datagram limit, several frames below the size limit or the one before any setting |
| `QmapSteps.PassBuffer` | feeds/qmodem/fibocom_QMI_WWAN/src/qmi_wwan_f.c:911-985 | the locked section keeps the buffer a concatenation of whole frames, as many as counted, and detaches only whole frames |
| `QmapSteps.PassKeeps` | feeds/qmodem/fibocom_QMI_WWAN/src/qmi_wwan_f.c:911-1000 | a locked section of the transmit path keeps the whole invariant |
| `QmapSteps.DirectKeeps` | feeds/qmodem/fibocom_QMI_WWAN/src/qmi_wwan_f.c:899-908 | sending without aggregation keeps it |
| `QmapSteps.StepKeeps` | feeds/qmodem/fibocom_QMI_WWAN/src/qmi_wwan_f.c:834-1008 | every step of transmit call, timer, work item and settings call, whose two writes are two steps, keeps the invariant |
| `QmapSteps.RunKeeps` | feeds/qmodem/fibocom_QMI_WWAN/src/qmi_wwan_f.c:834-1008 | every state of every interleaving satisfies it: conservation of frames, bounds, at most two passes, and a non-empty buffer always has a queued timer, a pending or running callback or work item, or a transmit call between its unlock and its arming check |
| `QmapSteps.PacketsArriveInOrder` | feeds/qmodem/fibocom_QMI_WWAN/src/qmi_wwan_f.c:897-1000 | end to end: splitting the detached buffers in detachment order gives the accepted packets in order, up to those still in the buffer |
| `QmapSteps.InternalStepsEnd` | feeds/qmodem/fibocom_QMI_WWAN/src/qmi_wwan_f.c:834-1008 | without new packets every activity ends within twenty steps, however it is scheduled |
| `QmapSteps.NeverStranded` | feeds/qmodem/fibocom_QMI_WWAN/src/qmi_wwan_f.c:834-1008 | while a buffer holds packets or a call is under way, some internal step is enabled |
| `QmapSteps.QuietRunsEmpty` | feeds/qmodem/fibocom_QMI_WWAN/src/qmi_wwan_f.c:834-1008 | every run without new packets and settings has at most twenty steps, and when it cannot go on the buffer is empty, no call is under way, and every accepted packet is in a detached buffer |
| `QmapLimits.RightBefore` | feeds/qmodem/fibocom_QMI_WWAN/src/qmi_wwan_f.c:1350-1354 | as long as a setting has not gone through, aggregates are below the size limit in force and inside their buffers |
| `QmapLimits.AboveLimitIff` | feeds/qmodem/fibocom_QMI_WWAN/src/qmi_wwan_f.c:1350-1360 | with a setting in force, an aggregate of several frames can be at or above its size limit if and only if that is below the initial 1500 and more than two datagrams are allowed: packets can be aggregated between the two writes of the setting |
| `QmapLimits.OverrunIff` | feeds/qmodem/fibocom_QMI_WWAN/src/qmi_wwan_f.c:917-919 | a frame can be copied beyond the end of a buffer that was allocated between the two writes if and only if the new size limit exceeds the initial one by two or more |
| `QmapLimits.AllocationOverrunIff` | feeds/qmodem/fibocom_QMI_WWAN/src/qmi_wwan_f.c:963-967 | a single frame can be too long for the buffer allocated for it if and only if the size limit is below 1508, the length of the longest frame |
| `Sparse.UnsparseAppend` | feeds/qmodem/qfirehose/src/firehose_protocol.c:1330-1426 | expanding an image onto the flash can be done part by part |
| `Sparse.UnsparseGap` | feeds/qmodem/qfirehose/src/firehose_protocol.c:1382-1413 | don't-care chunks leave the flash alone |
| `Sparse.UnsparseRun` | feeds/qmodem/qfirehose/src/firehose_protocol.c:1047-1139 | a run of raw chunks is one contiguous write of its payloads |
| `Sparse.UnsparseByte` | feeds/qmodem/qfirehose/src/firehose_protocol.c:1237-1434 | byte by byte, what the expanded image means: raw bytes at their un-sparsed position, every other byte of the flash as before |
| `Sparse.HeaderAndChunks` | feeds/qmodem/qfirehose/src/firehose_protocol.c:36-61 | the file format written out byte by byte, low-order bytes first: a header and chunks with these fields are an image of the chunk list, so every list that fits the fields has one |
| `Runs.MaximalAlternate` | feeds/qmodem/qfirehose/src/firehose_protocol.c:1325-1426 | the runs of an image are maximal, alternate in kind, and make up the chunk list |
| `Firehose.ExtendRun` | feeds/qmodem/qfirehose/src/firehose_protocol.c:1373-1413 | a chunk of the same kind extends the current run, and the totals stay its sums |
| `Firehose.NewRun` | feeds/qmodem/qfirehose/src/firehose_protocol.c:1344-1412 | a chunk of the other kind closes the run, records its sums in the table of its kind, and starts the next |
| `Firehose.SparseImgData.Scan` | feeds/qmodem/qfirehose/src/firehose_protocol.c:1294-1427 | the scan records the maximal runs, but for a trailing don't-care run, in the one array of 200 entries with 16-bit chunk counts that holds both tables |
| `Firehose.NextData` | feeds/qmodem/qfirehose/src/firehose_protocol.c:1444-1475 | table entry i of the data runs belongs to the run behind the gap of entry i - 1 |
| `Firehose.NextOffset` | feeds/qmodem/qfirehose/src/firehose_protocol.c:1452-1475 | adding up table entries moves the file offset and the start sector by exactly the chunks in between |
| `Firehose.SparseImgData.Program` | feeds/qmodem/qfirehose/src/firehose_protocol.c:1436-1516 | for an image whose first chunk is raw, of at most 100 data runs that are short enough for their counters, the flash ends up as the un-sparsed image; no 32-bit overflow occurs below the stated bounds |
| `Placement.StepIff` | feeds/qmodem/qfirehose/src/firehose_protocol.c:1444-1475 | from a data run that is placed right, the next one is if and only if the stored chunk counts and gap size between them are the true ones |
| `Placement.PlacedIff` | feeds/qmodem/qfirehose/src/firehose_protocol.c:1444-1475 | with at most 100 data runs, all of them are looked for and placed where they belong if and only if every recorded run but the last has fewer than 65536 chunks |
| `Placement.PlacedIffOverlap` | feeds/qmodem/qfirehose/src/firehose_protocol.c:71-78 | with 101 data runs the last one is recorded over the first don't-care run, and all runs are placed right if and only if the two entries agree, up to what 16-bit counters lose, and the runs behind them are short enough |
| `Placement.LongRunMisplaced` | feeds/qmodem/qfirehose/src/firehose_protocol.c:63-69 | a run of 65536 raw chunks, a gap and another chunk: the second run is looked for in the wrong place |
| `Placement.OverlapMisplaced` | feeds/qmodem/qfirehose/src/firehose_protocol.c:71-78 | 101 data runs of one block with gaps of two in between are placed wrong |
| `Placement.LeadingGapShifts` | feeds/qmodem/qfirehose/src/firehose_protocol.c:1444-1475 | with a leading don't-care run the start sector computed from the stored tables is too early, for every data run, by the size of the gap in front of it |
| `Placement.LeadingGapPlacement` | feeds/qmodem/qfirehose/src/firehose_protocol.c:1444-1475 | so a data run is put where it belongs if and only if the don't-care run in front of it has no blocks |
| `Placement.LeadingGapMisplaced` | feeds/qmodem/qfirehose/src/firehose_protocol.c:1457-1469 | an image of a don't-care block and a raw block: the raw block goes to sector 0 instead of 8 |
| `Firehose.SendPieces` | feeds/qmodem/qfirehose/src/firehose_protocol.c:1078-1132 | a payload of whole sectors is streamed unchanged, whatever the payload limit |
| `Firehose.SendRun` | feeds/qmodem/qfirehose/src/firehose_protocol.c:1047-1140 | the sending pass over a run streams exactly the payloads of its chunks and stops behind them |
| `Firehose.SendPlain` | feeds/qmodem/qfirehose/src/firehose_protocol.c:1141-1184 | a plain image is streamed as the file's bytes, less the last 512 for `gpt_empty0.bin`, and then zeros up to the sector boundary and no further, for any payload limit of whole sectors |
| `Firehose.AnnouncedIsStreamed` | feeds/qmodem/qfirehose/src/firehose_protocol.c:605-613 | the announced number of sectors is what is streamed: always for plain images, and for `gpt_empty0.bin` if and only if the last sector of the file holds at most 512 bytes |
| `Md5Block.FIsRfc` | feeds/qmodem/qfirehose/src/md5.c:15 | the rewritten F is the one of RFC 1321, section 3.4 |
| `Md5Block.GIsRfc` | feeds/qmodem/qfirehose/src/md5.c:16 | the rewritten G is |
| `Md5Block.HIsRfc` | feeds/qmodem/qfirehose/src/md5.c:17-18 | H and H2 both are |
| `Md5Block.LoadValue` | feeds/qmodem/qfirehose/src/md5.c:26-34 | the number that a word of a block stands for, its low-order byte first, for every word and block |
| `Md5Block.AddValue` | feeds/qmodem/qfirehose/src/md5.c:21-24 | the sum of two words is that of their numbers modulo 2^32 |
| `Md5Block.ShiftsRotate` | feeds/qmodem/qfirehose/src/md5.c:21-24 | the two shifts of STEP are a rotation, for every amount that occurs |
| `Md5Block.Step` | feeds/qmodem/qfirehose/src/md5.c:21-24 | the statements of STEP compute the sum, rotation and addition of the RFC |
| `Md5Block.Rows1` | feeds/qmodem/qfirehose/src/md5.c:62-78 | the literal operands of round 1 are the RFC's word index, table entry and shift of operations 0 to 15 |
| `Md5Block.Rows2` | feeds/qmodem/qfirehose/src/md5.c:80-96 | those of round 2 |
| `Md5Block.Rows3` | feeds/qmodem/qfirehose/src/md5.c:98-114 | those of round 3 |
| `Md5Block.Rows4` | feeds/qmodem/qfirehose/src/md5.c:116-132 | those of round 4 |
| `Md5Block.StepIsOperation` | feeds/qmodem/qfirehose/src/md5.c:21-24 | a step is one operation of the RFC, after which the words change places |
| `Md5Block.Round1` | feeds/qmodem/qfirehose/src/md5.c:62-78 | the unrolled round 1 is operations 0 to 15 |
| `Md5Block.Round2` | feeds/qmodem/qfirehose/src/md5.c:80-96 | the unrolled round 2 is operations 16 to 31 |
| `Md5Block.Round3` | feeds/qmodem/qfirehose/src/md5.c:98-114 | the unrolled round 3 is operations 32 to 47 |
| `Md5Block.Round4` | feeds/qmodem/qfirehose/src/md5.c:116-132 | the unrolled round 4 is operations 48 to 63 |
| `Md5.PaddedIsWhole` | feeds/qmodem/qfirehose/src/md5.c:204-215 | the padding ends on a block boundary and is the shortest with one marker byte and eight length bytes |
| `Md5.PaddingValue` | feeds/qmodem/qfirehose/src/md5.c:204-227 | the padding is the byte 0x80, zeros, and two words that are the length in bits as a 64-bit number, the low-order word first |
| `Md5.LoadLe32` | feeds/qmodem/qfirehose/src/md5.c:26-34 | a 32-bit number stored as four bytes is loaded again as that number |
| `Md5.WordBytesValue` | feeds/qmodem/qfirehose/src/md5.c:229-247 | the four bytes of the digest for a word are those of its number, the low-order byte first |
| `Md5.InitialBytes` | feeds/qmodem/qfirehose/src/md5.c:150-159 | the initial state is the byte listing in section 3.3 of RFC 1321 |
| `Md5Vector.EmptyDigest` | feeds/qmodem/qfirehose/src/md5.c:161-250 | the first test vector of RFC 1321, section A.5, all 64 operations of it: the digest of the empty message is d41d8cd98f00b204e9800998ecf8427e |
| `Md5.FoldAppend` | feeds/qmodem/qfirehose/src/md5.c:161-195 | only the unfinished block of what has been hashed matters for what follows |
| `Md5.FoldBlocks` | feeds/qmodem/qfirehose/src/md5.c:188-194 | the complete blocks of a piece alone give the state |
| `Md5.CountMore` | feeds/qmodem/qfirehose/src/md5.c:166-168 | the two counters track the length modulo 2^61: the carry test on the masked sum is right for every size |
| `Md5.LengthField` | feeds/qmodem/qfirehose/src/md5.c:219-227 | the shifted counters are the length in bits modulo 2^64, and the low six bits are the fill of the buffer |
| `Md5.PaddedBlocks` | feeds/qmodem/qfirehose/src/md5.c:202-217 | the last blocks: one if marker and length still fit, else two |
| `Md5.Context.Block` | feeds/qmodem/qfirehose/src/md5.c:50-140 | one turn of the block loop is the RFC's block step on the words of the block, whose numbers `LoadValue` gives |
| `Md5.Context.Body` | feeds/qmodem/qfirehose/src/md5.c:39-148 | any number of complete blocks |
| `Md5.Context.Hash` | feeds/qmodem/qfirehose/src/md5.c:161-195 | the context after a piece of any size represents the message so far followed by the piece |
| `Md5.Context.End` | feeds/qmodem/qfirehose/src/md5.c:197-250 | the result is the RFC 1321 digest of everything hashed (padding, words and bytes in numbers: `PaddingValue`, `LoadLe32`, `WordBytesValue`), and the context is cleared |
| `Md5.Md5Sum` | feeds/qmodem/qfirehose/src/md5.c:252-276 | the digest and the length of a file read in pieces |
| `Md5.HashPieces` | feeds/qmodem/qfirehose/src/md5.c:161-250 | every way of cutting a message gives the one-shot digest |
| `Crc.ShiftsLinear` | feeds/qmodem/qfirehose/src/stream_download_protocol.c:42 | the bit-serial register is linear |
| `Crc.SerialIsShifts` | feeds/qmodem/qfirehose/src/stream_download_protocol.c:79-92 | feeding bits one by one is shifting the register with the data added to it |
| `Crc.TableFacts` | feeds/qmodem/qfirehose/src/stream_download_protocol.c:44-66 | every one of the 256 table entries is eight shifts of its index with the polynomial 0x8408 |
| `Crc.TableIsSerial` | feeds/qmodem/qfirehose/src/stream_download_protocol.c:71-74 | one table step is eight bit-serial steps, for every register and byte |
| `Crc.Crc16` | feeds/qmodem/qfirehose/src/stream_download_protocol.c:68-95 | the table-driven loop returns the complement of the bit-serial CRC, for every byte buffer |
| `Crc.OnlyResidue` | feeds/qmodem/qfirehose/src/stream_download_protocol.c:97-103 | the residue 0xf0b8 after two more bytes forces those bytes |
| `Crc.ResidueIff` | feeds/qmodem/qfirehose/src/stream_download_protocol.c:97-103 | RFC 1662, appendix C.2: data and two more bytes leave the residue 0xf0b8 if and only if the two bytes are the ones the program appends |
| `Crc.CheckValue` | feeds/qmodem/qfirehose/src/stream_download_protocol.c:68-95 | the check value of the algorithm: the digits from 1 to 9 have the check sequence 0x906e |
| `Hdlc.StuffLength` | feeds/qmodem/qfirehose/src/stream_download_protocol.c:136-191 | stuffing adds one byte per flag or escape character |
| `Hdlc.StuffedAs` | feeds/qmodem/qfirehose/src/stream_download_protocol.c:152-166 | 0x7e is sent as 7d 5e, 0x7d as 7d 5d, and any other byte as it is |
| `Hdlc.NoFlagInside` | feeds/qmodem/qfirehose/src/stream_download_protocol.c:152-166 | no flag occurs inside a frame |
| `Hdlc.UnstuffStuffed` | feeds/qmodem/qfirehose/src/stream_download_protocol.c:193-224 | unstuffing undoes stuffing in front of any bytes |
| `Hdlc.RoundTrip` | feeds/qmodem/qfirehose/src/stream_download_protocol.c:136-224 | a non-empty packet comes back from its frame, followed by one closing flag |
| `Hdlc.UnstuffingNext` | feeds/qmodem/qfirehose/src/stream_download_protocol.c:207-220 | one turn of the in-place loop keeps what has been produced and what is still to be read apart |
| `Hdlc.RemoveEscapes` | feeds/qmodem/qfirehose/src/stream_download_protocol.c:193-224 | unstuffing in place computes the unstuffed bytes, ends with a zero, and touches nothing behind the spare byte; it reads beyond the buffer exactly when that is nothing but flags |
| `Download.AddressRoundTrip` | feeds/qmodem/qfirehose/src/stream_download_protocol.c:556-560 | the four address bytes of a write packet give the address back |
| `Download.AddressNumber` | feeds/qmodem/qfirehose/src/stream_download_protocol.c:556-560 | in numbers, the low-order byte first |
| `Download.WriteIsUnderstood` | feeds/qmodem/qfirehose/src/stream_download_protocol.c:556-563 | what goes on the wire for a block is, after unstuffing and checking the residue, the write of that block at that address |
| `Download.Host.ComposePacket` | feeds/qmodem/qfirehose/src/stream_download_protocol.c:105-123 | the transmit buffer holds command, parameters and data, one behind the other |
| `Download.Host.ComputeReplyCrc` | feeds/qmodem/qfirehose/src/stream_download_protocol.c:97-103 | the check sequence is appended and nothing else changes |
| `Download.Host.SendPacket` | feeds/qmodem/qfirehose/src/stream_download_protocol.c:136-191 | the bytes on the wire are the frame of the packet, and their number is the packet's length, its special bytes and the flags; more than 1280 of them overrun the send buffer |
| `Download.Host.Exchange` | feeds/qmodem/qfirehose/src/stream_download_protocol.c:581-588 | a packet that arrives changes the target's memory by exactly its block; the send buffer is overrun exactly when the stuffed packet exceeds it |
| `Download.Host.SendBlock` | feeds/qmodem/qfirehose/src/stream_download_protocol.c:581-615 | one block is sent until it is answered, a write to the device fails, or the retries, shared by all blocks, are used up, unless its packet overruns the send buffer |
| `Download.Host.HandleWrite` | feeds/qmodem/qfirehose/src/stream_download_protocol.c:565-619 | it succeeds if and only if every block is answered, before three misses, any failed write, and any block whose escapes overrun the send buffer, and it is overrun at the first such block it reaches; memory is then the first block repeated over exactly the size written; at most the number of blocks plus two packets are sent; remaining size and retries decrease lexicographically |
| `Download.BlockFitsIff` | feeds/qmodem/qfirehose/src/stream_download_protocol.c:125-166 | a block fits the send buffer if and only if its bytes, nine more, and its special bytes are at most 1280 |
| `Download.EscapesDoNotFit` | feeds/qmodem/qfirehose/src/stream_download_protocol.c:125-166 | a block of 1024 escape characters does not |
| `Download.TiledIff` | feeds/qmodem/qfirehose/src/stream_download_protocol.c:565-596 | the memory equals the data if and only if every byte equals the one 1024 places before it, so always for data of at most one block |
| `Download.SecondBlockWrong` | feeds/qmodem/qfirehose/src/stream_download_protocol.c:576-596 | an image of 1025 bytes that is written wrongly although every packet is answered |
| `AtLines.LinesAreSegments` | feeds/qmodem/quectel_CM_5G_M/src/atchannel.c:304-317 | the lines of a stream are its non-empty segments between CR and LF |
| `AtLines.LinesHold` | feeds/qmodem/quectel_CM_5G_M/src/atchannel.c:304-317 | no line holds a carriage return or line feed, and the lines with what remains are every other byte of the stream, in order |
| `AtLines.Arrived` | feeds/qmodem/quectel_CM_5G_M/src/atchannel.c:397-408 | after any piece of input has arrived behind a held partial line, either the line is complete and is the first line of everything unread, or a longer partial line is held |
| `AtReader.LineReader.Read` | feeds/qmodem/quectel_CM_5G_M/src/atchannel.c:379-402 | a read delivers as many bytes as the cuts and the room say, behind what is held, and a terminator behind them |
| `AtReader.LineReader.FindNextEOL` | feeds/qmodem/quectel_CM_5G_M/src/atchannel.c:304-317 | the end of the line at the cursor, a newline or the end of a bare prompt, or nothing when the buffer holds no complete line |
| `AtReader.LineReader.MoveUp` | feeds/qmodem/quectel_CM_5G_M/src/atchannel.c:354-363 | compaction moves exactly the string at the cursor to the front |
| `AtReader.OneLine` | feeds/qmodem/quectel_CM_5G_M/src/atchannel.c:328-429 | as long as lines fit the buffer, a call returns the first line of the unread input and leaves the rest unread, however `read` cuts the stream and however much the buffer holds already; at the end nothing but skipped newlines is lost; the exception is a bare prompt, where the next line starts like one and the stream left is what follows it |
| `AtReader.OverLongDropped` | feeds/qmodem/quectel_CM_5G_M/src/atchannel.c:366-373 | a line that has filled the buffer without an end is dropped as far as it has come, and the call returns the first line of what is still to come, the rest of the long one included |
| `AtReader.LineReader.ReadLine` | feeds/qmodem/quectel_CM_5G_M/src/atchannel.c:328-429 | the loop over the buffer, for any stream, with over-long lines and NUL bytes: its result and the buffer it leaves are a function of buffer, stream and cuts |
| `AtReader.LineReader.ReadAll` | feeds/qmodem/quectel_CM_5G_M/src/atchannel.c:450-462 | line after line, up to a bare prompt: the run of that function |
| `AtCuts.RunLines` | feeds/qmodem/quectel_CM_5G_M/src/atchannel.c:328-462 | the run gives the lines of the whole stream; if it meets a bare prompt, those in front of it |
| `AtCuts.CanMeetIff` | feeds/qmodem/quectel_CM_5G_M/src/atchannel.c:306-309 | some cuts make the reader meet a bare prompt if and only if some line starts like one |
| `AtCuts.CanMissIff` | feeds/qmodem/quectel_CM_5G_M/src/atchannel.c:306-309 | some cuts make it meet none if and only if the stream does not end in a prompt that nothing follows |
| `AtCuts.CutsMatterIff` | feeds/qmodem/quectel_CM_5G_M/src/atchannel.c:304-429 | the run is the same for all cuts if and only if no line that starts like the prompt goes on, if only with its newline |
| `AtCuts.StaleLine` | feeds/qmodem/quectel_CM_5G_M/src/atchannel.c:306-427 | four calls on a fresh buffer, with three reads, return a line that is not in the stream: behind the prompt the reader goes on with what the first read has left in the buffer |
| `AtCommand.PendingData` | feeds/qmodem/quectel_CM_5G_M/src/atchannel.c:234-254 | the message text and the raw data waiting to be written are used up by the first line that asks for them |
| `AtCommand.WrittenOnce` | feeds/qmodem/quectel_CM_5G_M/src/atchannel.c:236-254 | message text and raw data are written once each and nothing else is: the text, ended by Ctrl-Z, if it is pending and a prompt arrives, the data if they are pending and a CONNECT arrives, in the order of the first prompt and the first CONNECT |
| `AtCommand.TakenAreExpected` | feeds/qmodem/quectel_CM_5G_M/src/atchannel.c:255-284 | the intermediate lines are the wanted ones in the order of arrival, only the first for single-line and numeric commands |
| `AtCommand.UnsolicitedAreLeftover` | feeds/qmodem/quectel_CM_5G_M/src/atchannel.c:229-295 | the handler gets the lines that are neither final, nor taken, nor the prompt for the text, in the order of arrival |
| `AtCommand.FinalIsLast` | feeds/qmodem/quectel_CM_5G_M/src/atchannel.c:215-248 | the stored final response is the last one that arrived, and `success` says whether it is a success |
| `AtCommand.ConnectLostIff` | feeds/qmodem/quectel_CM_5G_M/src/atchannel.c:236-239 | raw data that is pending changes the final response of a command if and only if its first CONNECT arrives with no final response behind it; that CONNECT would have been the final response |
| `AtCommand.Channel.SendRaw` | feeds/qmodem/quectel_CM_5G_M/src/atchannel.c:933-946 | raw data stays pending exactly when its command is not sent, or no CONNECT arrives for it; otherwise it is written once |
| `AtCommand.SendAndConnect` | feeds/qmodem/quectel_CM_5G_M/src/atchannel.c:229-284 | a plain command that is answered CONNECT succeeds if and only if no raw data is pending |
| `AtCommand.ConnectLost` | feeds/qmodem/quectel_CM_5G_M/src/atchannel.c:627-946 | two commands: the first one's raw data is not asked for in time, and the second one loses the CONNECT that answers it and times out as well |
| `AtCommand.OneFate` | feeds/qmodem/quectel_CM_5G_M/src/atchannel.c:229-295 | every line has exactly one fate: list, final response, prompt, raw data or handler, and each outcome holds exactly the lines of its fate |
| `AtCommand.NothingLost` | feeds/qmodem/quectel_CM_5G_M/src/atchannel.c:229-295 | conservation: the lines, counted, are the intermediate lines, those given to the handler, the final responses and those that started a transfer |
| `AtCommand.IsOneOf` | feeds/qmodem/quectel_CM_5G_M/src/atchannel.c:132-175 | whether a line starts with one of the listed responses |
| `AtCommand.WantedAre` | feeds/qmodem/quectel_CM_5G_M/src/atchannel.c:255-284 | which lines a command of each kind asks for: any that starts with a digit, or with the prefix |
| `AtCommand.FinalsAre` | feeds/qmodem/quectel_CM_5G_M/src/atchannel.c:132-163 | the final responses, one by one |
| `AtCommand.Channel.AddIntermediate` | feeds/qmodem/quectel_CM_5G_M/src/atchannel.c:111-124 | a line is put at the head of the list, which holds the lines in reverse |
| `AtCommand.Channel.ProcessLine` | feeds/qmodem/quectel_CM_5G_M/src/atchannel.c:229-295 | the classification and effect of one line, in the program's order of tests: what is written to the channel and what stays pending, the final response and its success, the list and the handler |
| `AtCommand.Response.ReverseIntermediates` | feeds/qmodem/quectel_CM_5G_M/src/atchannel.c:722-735 | pointer reversal in place: the same nodes in the opposite order |
| `AtCommand.Channel.AwaitFinal` | feeds/qmodem/quectel_CM_5G_M/src/atchannel.c:765-773 | the wait ends at the final response, the end of the channel or the time limit, with the effect of all lines that arrived |
| `AtCommand.Channel.SendCommand` | feeds/qmodem/quectel_CM_5G_M/src/atchannel.c:743-799 | the answer of a command: the wanted lines in order and the last final response of everything that arrived while it was pending; lines without a use, and only those, went to the handler in order; message text and raw data were written once each, if asked for; a command sent while another is pending is refused and throws the pending one away (what that does to its caller is in `AtCallers`) |
| `AtCommand.Channel.SendForOneLine` | feeds/qmodem/quectel_CM_5G_M/src/atchannel.c:853-896 | a successful single-line or numeric command has exactly one line, and it is a wanted one |
| `AtCallers.SafeKept` | feeds/qmodem/quectel_CM_5G_M/src/atchannel.c:743-799 | with one command at a time every step keeps: whoever waits, waits for the pending command, and nothing has gone wrong |
| `AtCallers.FailsIff` | feeds/qmodem/quectel_CM_5G_M/src/atchannel.c:765-797 | from a state in which nothing has gone wrong, some continuation without a further command makes a caller dereference NULL or gives it another's response if and only if a caller waits whose command is not the pending one |
| `AtCallers.CloseIsFinal` | feeds/qmodem/quectel_CM_5G_M/src/atchannel.c:432-446 | once the channel has closed no further command becomes the pending one, in any run |
| `AtCallers.SendExposesIff` | feeds/qmodem/quectel_CM_5G_M/src/atchannel.c:754-757 | sending a command is safe if and only if nobody waits |
| `AtCallers.OneAtATimeSafe` | feeds/qmodem/quectel_CM_5G_M/src/atchannel.c:743-799 | no run with one command at a time goes wrong |
| `AtCallers.SecondCommandFails` | feeds/qmodem/quectel_CM_5G_M/src/atchannel.c:627-799 | behind any such run, a command sent while somebody waits can be followed by a failure |
| `AtCallers.RefusalCrashes` | feeds/qmodem/quectel_CM_5G_M/src/atchannel.c:754-765 | one caller waits, a second command is refused, the first caller wakes up and dereferences NULL |
| `AtCallers.ThirdIsMisgiven` | feeds/qmodem/quectel_CM_5G_M/src/atchannel.c:754-787 | with a third command in between it is given that one's response |
| `QmiIds.Counter.Draw` | feeds/qmodem/quectel_CM_5G_M/src/QMIThread.c:96-101 | the counter's next id |
| `QmiIds.IdCycles` | feeds/qmodem/quectel_CM_5G_M/src/QmiWwanCM.c:28-33 | ids run through 1 to the limit, over and over, and zero is never used |
| `QmiIds.IdNumbers` | feeds/qmodem/quectel_CM_5G_M/src/QmiWwanCM.c:28-33 | the control service counts to 255, the others to 65535 |
| `QmiIds.SameId` | feeds/qmodem/quectel_CM_5G_M/src/QMIThread.c:96-101 | two requests share an id if and only if whole cycles, of 65535 or 255, lie between them |
| `QmiMatch.QmiThread.SendQMI` | feeds/qmodem/quectel_CM_5G_M/src/QmiWwanCM.c:125-162 | when a request goes out, and as what: a control request as it is, any other with the client id of its service, one for the IPv6 twin of WDS as one for WDS, none without device or client id; rewritten in place, through the pointer the reader will match against |
| `QmiMatch.QmiThread.RecvQMI` | feeds/qmodem/quectel_CM_5G_M/src/QMIThread.c:646-666 | a matching message frees the pending request and is kept; no message frees it too; any other message changes nothing |
| `QmiMatch.QmiThread.SendQMITimeout` | feeds/qmodem/quectel_CM_5G_M/src/QMIThread.c:607-644 | a message handed over arrived during this wait and matches service, client and id of the request as sent: it is the first that does, and none is handed over only if none does before the device goes; the lone reply of WDS answers a request for its IPv6 twin; the request is freed at most once |
| `QmiSteps.FreedOnceKept` | feeds/qmodem/quectel_CM_5G_M/src/QMIThread.c:607-666 | every step, with any number of callers, keeps: what is pending has been sent and not freed, and nothing is freed twice |
| `QmiSteps.DrawnKept` | feeds/qmodem/quectel_CM_5G_M/src/QMIThread.c:103-114 | every step keeps serial numbers in the order in which ids were drawn, which is not that of sending |
| `QmiSteps.SafeKept` | feeds/qmodem/quectel_CM_5G_M/src/QMIThread.c:607-666 | steps other than sending and overwriting keep: what is pending or there for a waiting caller has the caller's header, and nobody has been given a wrong message |
| `QmiSteps.CrossesIff` | feeds/qmodem/quectel_CM_5G_M/src/QMIThread.c:613-666 | from a state in which nobody has been given a wrong message, some continuation without another send or overwriting gives a caller one if and only if a caller waits whose header differs from that of the pending request or of the response that is there |
| `QmiSteps.SendExposesIff` | feeds/qmodem/quectel_CM_5G_M/src/QMIThread.c:613-641 | sending a request leads to such a state if and only if somebody with another header waits |
| `QmiSteps.WaitingDiffer` | feeds/qmodem/quectel_CM_5G_M/src/QMIThread.c:96-101 | within one cycle of ids headers always differ, so sending while anybody waits is never safe |
| `QmiSteps.After` | feeds/qmodem/quectel_CM_5G_M/src/QMIThread.c:607-666 | in every state of every run no request has been freed twice |
| `QmiSteps.RunMatches` | feeds/qmodem/quectel_CM_5G_M/src/QMIThread.c:589-666 | in every run in which requests are sent, and the response is overwritten, only while nobody with another header waits, so with one caller at a time, whatever is handed to a caller answers the request that caller sent |
| `QmiSteps.OverwriteExposesIff` | feeds/qmodem/quectel_CM_5G_M/src/QMIThread.c:2187 | the assignment to `s_pResponse` behind the wait of `requestGetProfile` leads to such a state if and only if somebody waits whose header is not what the new memory happens to hold |
| `QmiSteps.CarelessStepCrosses` | feeds/qmodem/quectel_CM_5G_M/src/QMIThread.c:613-641 | behind any such run, a step that is not careful can be followed, undisturbed, by a wrong message |
| `QmiSteps.TwiceIff` | feeds/qmodem/quectel_CM_5G_M/src/QMIThread.c:626-639 | some continuation without a further send gives one response to two callers, or has two callers free it, if and only if somebody waits for a response that has been given away, or two wait while there is a response or a pending request |
| `QmiSteps.SharesIff` | feeds/qmodem/quectel_CM_5G_M/src/QMIThread.c:613-639 | sending a request leads to such a state if and only if two callers wait then |
| `QmiSteps.SerializedOnce` | feeds/qmodem/quectel_CM_5G_M/src/QMIThread.c:607-644 | with one caller at a time no response is given away or freed twice |
| `QmiSteps.NoCrossing` | feeds/qmodem/quectel_CM_5G_M/src/QMIThread.c:589-666 | a handed message that also answers another request is a whole number of id cycles away from it; within a cycle it is the caller's own |
| `QmiSteps.LateReply` | feeds/qmodem/quectel_CM_5G_M/src/QMIThread.c:659-666 | a reply to an earlier request changes nothing unless service and client are the same and whole cycles of ids lie between: if and only if |
| `QmiSteps.ConcurrentCallersCross` | feeds/qmodem/quectel_CM_5G_M/src/QMIThread.c:613-641 | two callers, and how the first is given the other's reply |
| `QmiTlv.NextTlv` | feeds/qmodem/quectel_CM_5G_M/src/QMIThread.c:81-91 | where the walk stands after one TLV |
| `QmiTlv.TlvFields` | feeds/qmodem/quectel_CM_5G_M/src/QMIThread.c:81-91 | type, 16-bit length with its low byte first, and value of an encoded TLV |
| `QmiTlv.WalkFinds` | feeds/qmodem/quectel_CM_5G_M/src/QMIThread.c:75-94 | the walk finds the first TLV of a type, or the k-th TLV for 0x1000 + k, and nothing exactly when there is none |
| `QmiTlv.GetTLV` | feeds/qmodem/quectel_CM_5G_M/src/QMIThread.c:75-94 | the loop computes that walk on any message, with its 16-bit length counter that wraps around |
| `QmiTlv.InsideIff` | feeds/qmodem/quectel_CM_5G_M/src/QMIThread.c:75-94 | looking up an absent type stays inside a message, whatever lengths it announces, if and only if it starts with whole TLVs behind which the 16-bit count falls below a header, or the next header takes it there |
| `QmiTlv.StartFields` | feeds/qmodem/quectel_CM_5G_M/src/QMIThread.c:181-271 | in a request to start a data call every type holds what the profile says, CDMA defaults included, and any other type nothing |
| `QmiTlv.ModifyFields` | feeds/qmodem/quectel_CM_5G_M/src/QMIThread.c:510-567 | the same for a request to change a stored profile |
| `QmiTlv.CdmaNames` | feeds/qmodem/quectel_CM_5G_M/src/QMIThread.c:195-199 | the two default names of a CDMA profile, character by character |
| `QmiTlv.BodyFields` | feeds/qmodem/quectel_CM_5G_M/src/QMIThread.c:103-133 | which message holds which of these fields |
| `QmiTlv.WdsStartNwInterfaceReq` | feeds/qmodem/quectel_CM_5G_M/src/QMIThread.c:181-271 | the builder writes exactly the encoded TLVs behind the header and returns their size |
| `QmiTlv.WdsModifyProfileSettingsReq` | feeds/qmodem/quectel_CM_5G_M/src/QMIThread.c:510-567 | so does the other builder |
| `QmiTlv.ComposeQMUXMsg` | feeds/qmodem/quectel_CM_5G_M/src/QMIThread.c:103-133 | the three nested length fields equal the real sizes, and the TLVs follow the headers |
| `QmiTlv.AskStartRequest` | feeds/qmodem/quectel_CM_5G_M/src/QMIThread.c:75-271 | build, then look up: every type gives what the profile says |

## Left out

QMAP

- QmapRx.LegacyReceiver.RxFixup: a negative length in the copying branch is a crash; that the allocation in front of it may fail instead is covered by the number of successful allocations.
- `rmnet_usb_tx_agg_skip`: an urgent packet is a boolean of the step.
- QmapLimits.OverrunIff: a buffer has the size that was asked for; the allocator may round it up. Behind an overrun the model goes on as if there had been room.
- QmapTx.Transmitter.TxAgg: the call without interruption; interleavings are in `QmapSteps`, whose steps are the locked sections and single reads of the call. The third write of `qma_setting_store`, the downlink padding, is a parameter of the receiver.
- Transmit calls of one device follow each other, as the stack's transmit lock makes them.
- The path without multiplexing, bridge mode, statistics, offload hooks and registration: foreign interfaces or simple updates.

Firehose

- Firehose.SparseImgData.Program: images of raw and don't-care chunks in 4096-byte blocks on 512-byte sectors, first chunk raw, no wrap-around of offset and start sector; the images for which the tables are too small or their counters too narrow are the subject of `Placement`.
- Firehose.SparseImgData.Scan: more than 100 recorded don't-care runs, for which the program writes behind its tables.
- Fill and CRC chunks, refused commands, short reads and short writes: I/O is assumed to succeed.
- The order of erase, patch and program commands, and the XML they come from.

MD5

- The branch of `md5_end` behind the full-buffer case, which cannot be reached, and the comparison with the list of expected digests.

Download protocol

- `crc_16_l_calc` for lengths that are not whole bytes, which no caller uses.
- The reassembly of a received packet from several reads: one complete frame per call.
- Download.Host.HandleWrite: what happens behind an overrun of the send buffer, where the model stops; the answer 0x08 is taken to answer the packet just sent.
- Hdlc.RemoveEscapes: what the program finds behind a buffer of nothing but flags.

AT channel

- AtReader.LineReader.Read: the terminator goes one byte behind `cm_recv_buf` when a read fills it; the buffer of the model has that byte, with nothing else in it.
- AtReader.LineReader.ReadAll: stops at a bare prompt, where the program goes on; what it finds there is in `AtCuts.StaleLine`.
- AtReader.OneLine: NUL bytes, of which only the effect on one call is modelled; a line that does not fit the buffer is the subject of `AtReader.OverLongDropped`.
- The pairing of two-line SMS notifications in the reader loop, the proxy mode, and failures of writing prompt and raw data.
- AtCommand.Channel.SendCommand: the reader's work during a wait is a parameter, as is the success of writing the command; a second caller during a wait is in `AtCallers`, where a response is only its owner.

QMI

- QmiTlv.GetTLV: what the walk finds outside the message, where the model stops; a TLV without a whole header inside counts as outside.
- The indications that the reader passes to the main thread, the length check of a raw read, and the fields of responses.
- QmiMatch.QmiThread.SendQMITimeout: one caller; runs with several are in `QmiSteps`, where a wake-up is a step of its own. Drawing an id is one step, although the counter is not protected by a lock. Which callers are `requestGetProfile` is left open, as is that it dereferences NULL when it is given no response.

Not modelled at all: USB, tty and network plumbing, sahara, band and operator tables, scripts and logging.
