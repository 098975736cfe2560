# Proofs about the recorder and player

A Dafny model of the parts of the system that are protocol, buffering and scheduling logic, with proofs
of what they keep over every input and every run. `dafny verify dfyconfig.toml` checks all of it.

Code that changes state in place is modelled as classes and loops, each proved against a function on
values; the properties are then lemmas about those functions. Clocks, sockets, the file system, decoders,
locks and other outside answers are inputs that may be anything.

| Component | Files | What is proved |
|---|---|---|
| Recording delivery | `MediaCursor`, `MediaDelivery`, `MediaRuns`, `Blocks`, `Thinning` | A client that follows cursors while files grow, close and are followed by others receives one contiguous run of blocks in library order. One race breaks it; the exact condition is proved. Thinning keeps samples, bytes, spacing and instants |
| Live ring | `LiveRing`, `LiveFormats` | The ring is a window over the history of everything published. Its limits hold after every publish; a client's samples are an unbroken stretch that opens with a keyframe, all published under one format, and a change of format is told exactly when there was one |
| Stream parsers | `XmParser`, `Dvrip` | Frames do not depend on how bytes were cut into reads, and all are found among noise. Where the timeouts fall tells exactly which messages arrive, and the resynchronising scan skips the least it can |
| RTP | `Annexb`, `Rtp`, `NalRtp`, `Aac`, `JpegHeader`, `Mjpeg`, `MjpegFidelity`, `RbspBits`, `Sps` | Packetizer and depacketizer undo each other; the sequence parameter set reader inverts the standard's encoding |
| Recorder | `Recorder` | Samples are conserved in order and nothing is invented whatever fails. A run tells exactly when a file is opened, and files are cut at keyframes, as soon as they can be or a minute late |
| Analysis | `FrameWalk`, `WalkCoverage`, `AnalysisWorker`, `AnalysisCoverage`, `FrameAnalyzer`, `EventMerging`, `Motion`, `LookBack`, `Interactions`, `EventStore` | Every frame due is decoded, given and analysed, over walks and whole runs; the timeline is covered without a hole, streaming merging equals an offline greedy partition, the background converges, and bounded look-back queries miss nothing |
| Time, ranges, retention | `Calendar`, `DayText`, `Ranges`, `RecordedDays`, `Retention` | Dates and days are inverse and in the same order, per-day totals add up to the union of the files, and a sweep deletes the shortest oldest-first stretch |

`Bytes` holds what the wire formats share: bytes, big- and little-endian numbers, truncating division,
optional values, subsequences.

## What the code does not keep

Each of these is a lemma with a concrete input, or one half of an if-and-only-if. The model follows the code.

- Delivery (`MediaRuns.RaceExactly`, `MediaRuns.RaceSkips`): a cursor past the last indexed block moves to
  the next file. If a block was appended after the index was read and before the listing that showed that
  next file, the block is skipped for good. Nothing is ever delivered twice.
- Retention (`Retention.SpacePhaseRuns`, `Retention.SpaceStaysShort`): the phase that frees space runs if and only
  if the free space was read as more than zero, or some file with bytes in it goes by age or by size. A full disk
  reads zero, as does one whose free space is unknown. So a full disk alone gets nothing freed
  (`Retention.FullDiskKept`), while with unknown space one expired file switches the phase on and a recording
  no limit touches goes too (`Retention.UnknownSpaceDeletes`).
- DVRIP (`Dvrip.RunExactly`, `Dvrip.MisreadAfterLoss`): a payload is lost, and alignment with it, if and only if
  two timeouts fall into the payload of one message. The next `recv` then reads a header in the middle of that
  payload and can return a message nobody sent.
- Signed Exp-Golomb numbers (`RbspBits.SignedExactly`): from code 2^31 - 1 on, the number read is not the one meant.
- MJPEG (`MjpegFidelity.OwnExactly`, `MjpegFidelity.TablesSwapped`): a picture comes back the same, in all that is
  needed to decode it, if and only if it has two 8-bit quantisation tables under 0 and then 1, 8-bit samples, both
  sides multiples of 8 below 2048, components 1, 2 and 3 in 4:2:2 or 4:2:0 with the tables 0, 1, 1, the standard's
  Huffman codes, and one baseline scan of the three. (Two cases apart where the tables come out the same anyway.) The
  sender drops the identifiers of the tables: sent as 1 and then 0, they come back swapped. With one table the receiver
  substitutes standard ones, and a side of 2560 comes back as 512. Without tables the packets still promise some, and
  the receiver takes the start of the scan for them (`Mjpeg.WholeExactly`).
- MJPEG (`Mjpeg.CrashesExactly`): the sender indexes past the end of a picture if and only if its last marker segment
  is a frame header of eight or nine bytes that names a component, at most one byte follows, and nothing before is refused.
- AAC (`Aac.UnitRoundTrip`) and speech (`XmParser.TalkFrameRoundTrip`): lengths past the width of their
  field wrap, and an empty unit does not come back.
- Motion (`Motion.OneLevelExactly`, `Motion.OneDarkCell`): with a cell difference of one level, an unchanging picture
  settles at a count of zero if and only if no cell of the background started below it or the background is set anew.
  Otherwise the truncated pull stalls, and exactly the cells that started below count as moved for ever.
- Events (`EventStore.ReachSuffices`, `EventStore.LongEventMissed`): without a limit on the length of an
  event, the query's assumed reach of 300 s misses a longer event.
- Days as text (`DayText.TextOrderExactly`, `DayText.FifthDigitBreaksOrder`): two dates compare as strings as they do
  as dates if and only if their years have as many digits, or the shorter year is no larger than as many
  first digits of the longer. So the report by days counts everything if and only if every day with something
  recorded is reached before a day that compares wrongly with the last (`RecordedDays.DaysConserveExactly`).
- Recordings by file name (`MediaDelivery.StartByTime`, `MediaDelivery.StartByBlock`): a client that names a file names
  no camera, so at the end of a closed file it is given no cursor although other files follow.
- H.264 and H.265 (`NalRtp.AccessUnitExactly`): an access unit comes back if and only if each of its NALs is longer than
  a packet or has a type that is sent as it is.

## Model

| member | source | states |
|---|---|---|
| MediaCursor.CursorRoundTrip | server/src/media.rs:38-67 | The text of a cursor decodes to the same cursor if and only if its block is not negative, its file is named, and it is not both at a new file and at a tail; the name may hold `-` |
| MediaDelivery.TakeBlocks | server/src/media.rs:293-308 | The loop takes the longest stretch a reply may have: n blocks fit if and only if n is at most the count, where to fit is to be readable and wanted and, but for one block alone or a thinned reply, within the byte limit |
| MediaDelivery.TakenIsMost | server/src/media.rs:293-308 | The number of blocks taken is the largest that may be: all smaller ones may be taken, no larger one |
| MediaDelivery.FoundByName | server/src/media.rs:195-212 | In a library of distinct names, a file is found under its name, and the next file is the one listed right after it, whatever the end time asked with |
| MediaDelivery.NextFileIs | server/src/media.rs:203-212 | The file after one that is listed, whatever the case of its name, is the next of the list; after one that is gone it is the first that starts at or after the given end |
| MediaDelivery.ChangeGrows | server/src/media.rs:203-372 | Every single append, close or new file, under the rule that only the last file grows, is growth of the library; with growth transitive, this covers all interleavings |
| MediaDelivery.FlatSlice | server/src/media.rs:293-345 | A stretch of blocks of one file is the same stretch, at the file's offset, of the whole library |
| MediaDelivery.DeliverContinues | server/src/media.rs:288-372 | A reply that delivers from a given block continues exactly there: its blocks are those of the library, and its next cursor stands right after the last; without a camera to list files of, it stays in its file and gives no cursor at the end of a closed one |
| MediaDelivery.ReplyTells | server/src/media.rs:288-372 | A reply comes if and only if the file can be opened and read and its first block located, with the stated status otherwise; it has as many blocks as it may: those that can be located, are asked for, are allowed at once and, unless thinned, fit 4 MiB, but one at least; it says whether the file grows, and the gap to the next file is the time from the assumed end of the last block to its start |
| MediaDelivery.FetchHere | server/src/media.rs:225-272 | A cursor whose block exists is answered from exactly that block of its file, even when the file has grown |
| MediaDelivery.FetchNext | server/src/media.rs:250-265 | A cursor past the indexed blocks of its file goes to block 0 of the next file listed, or is returned unchanged with a word on whether more may come |
| MediaDelivery.FetchFollows | server/src/media.rs:214-372 | One fetch by cursor under any growth between its moments fails, returns the same cursor, or continues from the cursor's place plus exactly the blocks the race missed |
| MediaDelivery.DiscontinuityAtStart | server/src/media.rs:214-372 | Along a walk by the cursors the server gave, a reply announces a discontinuity if and only if it begins a file |
| MediaDelivery.StartByTime | server/src/media.rs:185-372 | A request by time, told by the library and the instants: it starts in the file named, or the first recorded at the instant, or the first that starts later, or the last; in it at the last keyframe block up to the last block starting by the instant (or at that block, if none has a keyframe), and the walk from there is contiguous; 404 or 400 if there is no such file. A cursor whose file is gone is answered in the same way |
| MediaDelivery.StartByBlock | server/src/media.rs:185-372 | A request for a block by its number, in the file named or found by time, starts a contiguous walk at exactly that block, or is refused: 416 for a block not in the file, 404 for an unknown file, 400 when nothing says which |
| MediaDelivery.StartByCursor | server/src/media.rs:214-372 | Whatever a cursor says, true or not, if its file is there the walk goes on contiguously at the block it means: at the tail the block it names, else that block if it starts at the cursor's instant, else the last block starting by that instant |
| MediaRuns.CursorSurvives | server/src/media.rs:39-67 | Every cursor that can stand in a library survives its text |
| MediaRuns.RunIsContiguous | server/src/media.rs:214-372 | Over every run of requests, with any growth between and during them and any failures, the blocks received are one contiguous stretch of library order from the first cursor's place, and the last cursor stands at its end, if no file grew between the reading of its index and a listing that shows its successor |
| MediaRuns.RunNeverRepeats | server/src/media.rs:214-372 | Without that condition: over every run no block is delivered twice and none out of order |
| MediaRuns.RaceExactly | server/src/media.rs:250-265 | A cursor that moves on to the next file leaves no gap if and only if its file did not grow between the index read and the listing |
| MediaRuns.RaceSkips | server/src/media.rs:250-265 | A concrete library and run in which one block is skipped |
| MediaRuns.RestBrings | server/src/media.rs:214-372 | In a readable library at rest, a request brings at least one block while any is left |
| MediaRuns.RestAtEnd | server/src/media.rs:250-265 | After the last block a request brings nothing, keeps the client's cursor, and reports more to come exactly when the last file is still open |
| MediaRuns.RestEnds | server/src/media.rs:358-372 | A client is left without a cursor only with the reply that completes the library, and only when the last file is closed |
| MediaRuns.RestWalkFinishes | server/src/media.rs:214-372 | A walk of a library at rest has received every remaining block once and in order after as many requests as blocks were left, and never anything more |
| Blocks.TruncSum | server/src/analytics/walk.rs:174-175 | Two truncated conversions of ticks to milliseconds differ from the one of their sum by at most one, and only downward when both parts are not negative |
| Thinning.Greedy | server/src/media.rs:133-171 | Sample by sample, a sample is kept if and only if it is a video keyframe not sooner than a step after the last one kept |
| Thinning.KeptExactly | server/src/media.rs:133-171 | The set of kept indices is exactly those the greedy rule picks |
| Thinning.PickSpaced | server/src/media.rs:133-171 | Within a block, kept instants are a step apart, also from the last one kept before the block, and the last instant is handed on |
| Thinning.ReplySpaced | server/src/media.rs:313-330 | Across all blocks of a reply, any two kept keyframes are at least a step apart, given positive instants |
| Thinning.RebuildKeeps | server/src/media.rs:133-171 | Entry k of the rewritten block has the marks of the k-th sample kept, and its slice of the new payload is that sample's slice of the old |
| Thinning.ThinEntry | server/src/media.rs:133-171 | Every entry of a thinned block is a video keyframe of the source with its bytes, and its instant by the new anchor is within 1 ms of the original, never above it when presentation times do not go back |
| Thinning.ThinBlock | server/src/media.rs:133-171 | The in-place loops over the block compute the thinned block and the last kept instant of the specification |
| Thinning.ThinReply | server/src/media.rs:313-330 | The loop over a reply threads the last kept instant from block to block, starting at 0, over the blocks with a keyframe that can be read, up to the first that cannot be reached |
| Thinning.AllRead | server/src/media.rs:318-329 | Where every block can be read, leaving out those without a keyframe changes nothing: the reply is that of all the blocks |
| LiveRing.TrimmedIsLeast | shared/src/live.rs:161-174 | Trimming stops at the first point within the byte and age limits: nothing more than needed is dropped |
| LiveRing.PublishKeepsLimits | shared/src/live.rs:161-218 | After a publish the count, bytes and age are within limits; each sample dropped stood where the count, the bytes or the age from it on exceeded its limit; the new sample stays if it fits the byte limit, given a clock that does not go back |
| LiveRing.EverySlotAccounted | shared/src/live.rs:140-152 | Every slot of the array belongs to one of the last 8192 sequence numbers: it holds the history there if not yet dropped and is empty otherwise |
| LiveRing.SeenWithoutWait | shared/src/live.rs:288-328 | Without a keyframe wait, a fetch delivers exactly the contiguous slice of sequence numbers |
| LiveRing.SeenSplit | shared/src/live.rs:288-328 | Two consecutive fetches deliver what one fetch to the later end would, also while waiting for a keyframe |
| LiveRing.WaitingOpensWithKey | shared/src/live.rs:288-328 | While a keyframe is awaited, the first video sample delivered is a keyframe |
| LiveRing.StepKeepsInv | shared/src/live.rs:176-328 | Every publish, format change, stop, subscribe and fetch keeps the invariant of ring and client |
| LiveRing.RunKeepsInv | shared/src/live.rs:176-328 | The invariant holds after every run of such events |
| LiveRing.ClientFetches | shared/src/live.rs:288-328 | A fetch in a run gives the client what the ring answers: added to its stretch, or, after a resync, as the start of a new stretch where a subscriber would begin |
| LiveRing.LiveSafety | shared/src/live.rs:176-328 | Over every run in which video is published only after a video format: the ring holds only its epoch's samples, and what a client got since its last subscribe or resync is of its cursor's epoch, opens with a keyframe and, if it never waited, is an unbroken slice of the history |
| LiveFormats.OneKind | shared/src/live.rs:176-328 | Over every run: each sample held was published under the video codec and size and the audio codec and rate in force now; all a client got since its last subscribe or resync was published under one such kind, and under the present one while its cursor is up to date |
| LiveFormats.ChangeTold | shared/src/live.rs:176-328 | Over every run: a fetch with a cursor the ring gave is told of a change of format if and only if the video codec or size or the audio codec or rate was changed since, even if changed back |
| LiveFormats.AnnouncedAgain | shared/src/live.rs:176-200 | Announcing the codec, size and rate in force again leaves ring, epoch and the answer to every cursor as they were |
| LiveFormats.SubscribesOnceKnown | shared/src/live.rs:250-286 | A subscriber gets a cursor if and only if a format was announced in the run; it stands at the latest video keyframe held or, with none, at the end, holding video back if video was announced |
| LiveFormats.FetchReachesEnd | shared/src/live.rs:288-328 | A fetch in the present epoch leaves the cursor at the end, where there is nothing to give, and gives nothing only there |
| LiveRing.LiveStream.DropOldest | shared/src/live.rs:144-152 | Dropping empties one slot, keeps the byte count the exact sum of what is left, and moves `first` by one |
| LiveRing.LiveStream.Clear | shared/src/live.rs:154-159 | Clearing leaves nothing in the ring and its byte count exact |
| LiveRing.LiveStream.Trim | shared/src/live.rs:161-174 | Trimming stops where the specification says, with the slots still matching the history |
| LiveRing.LiveStream.Publish | shared/src/live.rs:202-218 | Publishing extends the history by the sample under the current epoch, and the circular buffer still refines it |
| LiveRing.LiveStream.PublishVideo | shared/src/live.rs:176-188 | A changed video format starts a new epoch and empties the ring; the same format changes nothing |
| LiveRing.LiveStream.PublishAudio | shared/src/live.rs:190-200 | A changed audio format starts a new epoch and empties the ring; the same format changes nothing |
| LiveRing.LiveStream.NotifyStopped | shared/src/live.rs:221-225 | Media goes, formats and epoch stay |
| LiveRing.LiveStream.LastKeyframe | shared/src/live.rs:250-252 | The backward search finds the latest keyframe still in the ring, or none |
| LiveRing.LiveStream.Reposition | shared/src/live.rs:261-275 | A cursor is placed at the last keyframe, or at the end of the ring waiting for one |
| LiveRing.LiveStream.Subscribe | shared/src/live.rs:278-286 | A cursor is given only once a format is known, placed as after a resync |
| LiveRing.LiveStream.Collect | shared/src/live.rs:310-321 | The slots read are the history's samples at exactly the sequence numbers the cursor may see |
| LiveRing.LiveStream.Fetch | shared/src/live.rs:288-328 | A fetch resyncs, times out or delivers exactly as the specification over the history says |
| XmParser.StepIsStable | shared/src/dvrip/media.rs:84-175 | Any advance the parser can make, it makes in the same way when more bytes follow |
| XmParser.ChunkingIndependence | shared/src/dvrip/media.rs:84-175 | Feeding a then b gives the frames, the remaining buffer and the codec of feeding a + b, for all bytes |
| XmParser.AnyChunking | shared/src/dvrip/media.rs:84-175 | Any number of reads of any sizes equals one read of all their bytes |
| XmParser.ResumeTwice | shared/src/dvrip/media.rs:84-175 | Resuming twice is resuming once with both reads |
| XmParser.ParseLeavesNothing | shared/src/dvrip/media.rs:84-175 | The buffer left over holds no further frame |
| XmParser.StreamRoundTrip | shared/src/dvrip/media.rs:84-175 | A concatenation of well-formed video, audio and information frames parses back to exactly their contents, with the codec detected on the way |
| XmParser.ChunkedStreamRoundTrip | shared/src/dvrip/media.rs:84-175 | The same for any cut of that stream into reads |
| XmParser.GoesOnAtMarker | shared/src/dvrip/media.rs:65-175 | Where no frame opens (no start code, an unknown marker, a video header with a length over the limit) parsing goes on at the first marker from the next byte on, and with no marker keeps every byte |
| XmParser.NoisyStream | shared/src/dvrip/media.rs:65-175 | Well-formed frames with noise of any length before each, in which no frame opens: exactly the contents of the frames are read, and what follows the last one stays |
| XmParser.ChunkedNoisyStream | shared/src/dvrip/media.rs:65-175 | The same for any cut of that stream into reads |
| XmParser.TalkFrameRoundTrip | shared/src/dvrip/protocol.rs:432-438 | A speech frame parses back to its audio if and only if it has 1 to 65535 bytes |
| XmParser.FramesFitInput | shared/src/dvrip/media.rs:84-175 | Every frame is strictly shorter than the bytes it was found in |
| XmParser.CodecDetected | shared/src/dvrip/media.rs:192-205 | However many zeros its start code has, a key frame is taken for H.265 if and only if the type bits of its first NAL are 32, 33 or 34; one that opens with an H.264 parameter set never is |
| XmParser.MediaParser.Feed | shared/src/dvrip/media.rs:84-175 | The loop that moves through the buffer, skips garbage and drains it computes the parse of old buffer and new data |
| Dvrip.HeaderRoundTrip | shared/src/dvrip/protocol.rs:119-145 | Decoding the header of an encoded message gives its session, sequence, id and length back |
| Dvrip.ReadConsumes | shared/src/dvrip/protocol.rs:209-220 | An exact read takes its bytes off the stream whole, or times out having consumed nothing, or the stream was too short |
| Dvrip.DiscardConsumes | shared/src/dvrip/protocol.rs:222-239 | A drain that succeeds consumes exactly n bytes; one that fails, fewer |
| Dvrip.PayloadAligned | shared/src/dvrip/protocol.rs:241-261 | A payload read that succeeds, or fails with a successful drain, consumes exactly the declared length; it fails only through a timeout |
| Dvrip.RefusedExactly | shared/src/dvrip/protocol.rs:262-273 | Without timeouts `recv` refuses a frame if and only if its first byte is not 0xFF or the length declared is over 4 MiB, having read just the header |
| Dvrip.RecvAligned | shared/src/dvrip/protocol.rs:264-275 | One `recv` on a whole message delivers it, consumes nothing on a header timeout, drops it whole, or loses its tail |
| Dvrip.RecvExactly | shared/src/dvrip/protocol.rs:241-275 | How one `recv` on a whole message ends, from where the next two timeouts fall: header timeout if the first is in the header, delivered if it is after the message, dropped whole if it alone is in the payload, lost if both are |
| Dvrip.RunsStayAligned | shared/src/dvrip/protocol.rs:186-275 | Any number of `recv`s on encoded messages, split in any way and with timeouts anywhere, deal with the messages one by one up to the first lost payload |
| Dvrip.RunExactly | shared/src/dvrip/protocol.rs:186-275 | With enough calls, a payload is lost if and only if two timeouts fall into one payload, and what is delivered before is exactly the messages without a timeout in their payload, up to the first with two |
| Dvrip.DeliveredInOrder | shared/src/dvrip/protocol.rs:241-275 | What is delivered before the first lost payload is a subsequence of what was sent, in order; that is everything delivered when no two timeouts fall into one payload |
| Dvrip.AllDelivered | shared/src/dvrip/protocol.rs:264-275 | Enough calls deliver every message before any loss if and only if no timeout falls into a payload |
| Dvrip.MisreadAfterLoss | shared/src/dvrip/protocol.rs:229-275 | After a failed drain the next call can return a message never sent: an input for any forged message of admissible size |
| Dvrip.ScanFindsFirst | shared/src/dvrip/protocol.rs:280-297 | The sliding window finds the first offset with an accepted header, or there is none up to the scan limit |
| Dvrip.ResyncSkipsLeast | shared/src/dvrip/protocol.rs:280-297 | Without timeouts `recv_resync` skips the least number of bytes giving an accepted header and then reads that header's payload; it gives up only if there is none within the limit |
| Dvrip.ResyncReturns | shared/src/dvrip/protocol.rs:280-297 | After bytes none of which begins a header, `recv_resync` returns the message that follows, having skipped exactly those bytes, if and only if the session takes it: it is its own, or without a session, or of a known id |
| Dvrip.Reader.Fill | shared/src/dvrip/protocol.rs:190-205 | One socket read is appended to the unread bytes, with compaction changing none of them |
| Dvrip.Reader.ReadExactly | shared/src/dvrip/protocol.rs:209-220 | The buffered loop reads what the specification reads off the stream and leaves the same rest |
| Dvrip.Reader.TakeUpTo | shared/src/dvrip/protocol.rs:222-226 | Drops n unread bytes, or all there are |
| Dvrip.Reader.DiscardBytes | shared/src/dvrip/protocol.rs:229-239 | The drain loop is the specification's drain |
| Dvrip.Reader.ReadBody | shared/src/dvrip/protocol.rs:241-261 | The payload read, with its drain on timeout, is the specification's |
| Dvrip.Reader.Receive | shared/src/dvrip/protocol.rs:264-275 | One message by the specification, including the refused head byte and the refused length |
| Dvrip.Reader.ReceiveResync | shared/src/dvrip/protocol.rs:280-297 | The window loop is the specification's scan |
| Annexb.SplitUndoesJoin | shared/src/h26x.rs:7-30 | Splitting clean NALs joined by 4-byte start codes gives those NALs back |
| Annexb.SplitIsClean | shared/src/h26x.rs:7-30 | Whatever the bytes, the NALs split from them are clean |
| Annexb.SplitUndoesJoinExactly | shared/src/h26x.rs:7-30 | A list of NALs comes back from its joined stream if and only if it is clean: none empty, none with an inner start code, no trailing zero before another |
| Annexb.FindStarts | shared/src/h26x.rs:8-17 | The scan finds all start codes, in order and apart |
| Annexb.NalEnd | shared/src/h26x.rs:20-24 | A NAL ends at the zeros before the next start code, or at the end of the data |
| Annexb.SplitNals | shared/src/h26x.rs:7-30 | The two loops compute the NALs of the specification |
| Rtp.WireRoundTrip | shared/src/rtp/packet.rs:14-64 | A packet whose fields fit their widths is parsed back from its bytes |
| Rtp.WrittenParsed | shared/src/rtp/packet.rs:14-53 | A packet is parsed back whatever contributing sources, header extension and padding its bytes have |
| Rtp.ParsedWritten | shared/src/rtp/packet.rs:14-53 | Whatever is parsed was such a packet: bytes with another version, a part that does not fit, or padding of a wrong length are refused |
| Rtp.RtpOut.Emit | server/src/rtsp/packetizer.rs:33-37 | A packet takes the current number, and the counter goes up by one modulo 2^16 |
| NalRtp.PacketsShape | server/src/rtsp/packetizer.rs:46-112 | No payload exceeds the MTU, numbers are consecutive modulo 2^16, all have the same timestamp, and the marker is on the last packet only |
| NalRtp.PiecesFull | server/src/rtsp/packetizer.rs:51-74 | A NAL takes no more packets than it must: one if it fits, otherwise fragments all but the last of which fill the packet |
| NalRtp.NoStartAndEnd | server/src/rtsp/packetizer.rs:60-73 | A fragmented NAL has at least two fragments; the first alone has the start bit, the last alone the end bit |
| NalRtp.NalRoundTrip | shared/src/depk/h264.rs:72-118 | Whatever a depacketizer held, the packets of a carried NAL make it emit exactly that NAL |
| NalRtp.AccessUnitRoundTrip | shared/src/depk/h265.rs:43-92 | For H.264 and H.265, every access unit of carried NALs comes back as one sample per NAL, whose concatenation is the input when the input was joined from clean NALs |
| NalRtp.PacketsSurviveWire | server/src/rtsp/packetizer.rs:46-112 | Each packet pushed parses back to itself from its bytes |
| NalRtp.WholeNalExactly | shared/src/depk/h264.rs:72-118 | A fresh depacketizer gets a NAL that fits one packet back if and only if its type is one carried as it is |
| NalRtp.AccessUnitExactly | shared/src/depk/h264.rs:72-118 | A receiver that holds no fragment gets a whole access unit back, one sample per NAL, if and only if every one of its NALs is carried |
| NalRtp.UnitMarked | shared/src/depk/h264.rs:36-65 | A whole H.264 access unit sent as one NAL, the others behind start codes of three or four bytes inside it, is marked as a keyframe if and only if the first is an IDR slice, or a parameter set and any later one is a slice (a slice of one byte at the very end is not seen behind three); an H.265 NAL is if its type is 16 to 21 |
| NalRtp.AggregateRoundTrip | shared/src/depk/h264.rs:78-92 | An aggregation packet gives each of its NALs back, in order |
| NalRtp.FragmentsGive | shared/src/depk/h264.rs:72-120 | Fragments of any sender, cut anywhere, from any state of the receiver: if the first starts the NAL and the last ends it, by its flag or else by the marker, they give one sample, the rebuilt header followed by all they carry |
| NalRtp.StartLost | shared/src/depk/h264.rs:72-120 | Without the fragment that starts it a NAL gives nothing and leaves nothing behind |
| NalRtp.OthersPassed | shared/src/depk/h264.rs:72-120 | Packets of the types not carried (0, 25 to 27, 29 to 31; in H.265 from 50) change nothing and give nothing |
| NalRtp.SamplesWhole | shared/src/depk/h264.rs:72-120 | Whatever is received, no sample is shorter than a NAL header behind its start code |
| NalRtp.NalPacketizer.PushFragments | server/src/rtsp/packetizer.rs:60-73 | The fragment loop emits the specification's pieces, numbered on |
| NalRtp.NalPacketizer.PushNal | server/src/rtsp/packetizer.rs:51-74 | A NAL goes whole or in fragments by its length |
| NalRtp.NalPacketizer.Push | server/src/rtsp/packetizer.rs:82-111 | The packets of an access unit are those of all its NALs in order, with the timestamp modulo 2^32 |
| NalRtp.NalDepacketizer.Aggregates | shared/src/depk/h265.rs:51-65 | The loop over an aggregation packet cuts out the specification's NALs and stops at a short one |
| NalRtp.NalDepacketizer.Feed | shared/src/depk/h264.rs:72-118 | One packet changes the fragment state and emits samples as the specification says |
| NalRtp.NalDepacketizer.Reset | shared/src/depk/h264.rs:120-124 | A fragment in progress is forgotten |
| Aac.SizeRead | shared/src/depk/simple.rs:55-65 | The 13 bits read from a unit's header are the length written there |
| Aac.ReadBitsOf | shared/src/depk/simple.rs:55-65 | The bit loop reads the number of the specification, with zeros past the end |
| Aac.UnitsRoundTrip | shared/src/depk/simple.rs:72-110 | A packet of several units of 1 to 8191 bytes gives each back, 1024 ticks apart |
| Aac.PayloadFeeds | server/src/rtsp/packetizer.rs:116-129 | What comes back of a unit of any length: as many bytes as its 13-bit size says |
| Aac.UnitRoundTrip | server/src/rtsp/packetizer.rs:116-129 | A unit comes back whole if and only if it has 1 to 8191 bytes |
| Aac.AacPacketizer.Push | server/src/rtsp/packetizer.rs:117-128 | One marked packet per unit, none for an empty one, and the counter moves accordingly |
| Aac.AacDepacketizer.SetMode | shared/src/depk/simple.rs:42-52 | Field widths out of range leave the old ones |
| Aac.AacDepacketizer.ReadSizes | shared/src/depk/simple.rs:86-92 | The loop over the header section reads the specification's sizes |
| Aac.AacDepacketizer.CutOut | shared/src/depk/simple.rs:93-109 | The loop over the units cuts the specification's samples and stops at a size of zero or past the end |
| Aac.AacDepacketizer.Take | shared/src/depk/simple.rs:72-110 | One packet gives the specification's samples, including refused ones |
| Mjpeg.ParsedSound | server/src/rtsp/packetizer.rs:161-231 | Whatever is read of a picture is consistent: the scan lies inside it and the fields fit their widths |
| Mjpeg.PiecesWellSent | server/src/rtsp/packetizer.rs:235-266 | The payloads of a picture stay within the MTU, are not empty, and only the last is marked |
| Mjpeg.PieceFed | shared/src/depk/mjpeg.rs:118-173 | One packet takes the receiver from the scan up to its offset to the scan past its bytes |
| Mjpeg.PiecesFed | shared/src/depk/mjpeg.rs:118-173 | From any offset on, the packets finish the picture |
| Mjpeg.PictureRoundTrip | shared/src/depk/mjpeg.rs:118-173 | A picture with tables and a scan of at most 2^24 bytes gives one picture: the header rebuilt with its own tables when they are 128 bytes, the exact scan, and the end marker |
| Mjpeg.WholeExactly | server/src/rtsp/packetizer.rs:235-266 | A fresh receiver gets the picture the packet headers describe if and only if it had quantisation tables |
| Mjpeg.CrashesExactly | server/src/rtsp/packetizer.rs:163-231 | Reading indexes past the end if and only if the last marker segment is a frame header that names a component and ends with the picture, and none before it is refused |
| JpegHeader.PartsRead | shared/src/depk/mjpeg.rs:62-98 | Marker segments written one after the other are the segments read, and the scan begins right after them |
| JpegHeader.DescribedAs | shared/src/depk/mjpeg.rs:62-98 | A picture of written segments, a scan and an end marker says of itself exactly what its segments say, with exactly that scan |
| MjpegFidelity.ParsedAgrees | server/src/rtsp/packetizer.rs:161-231 | What the sender reads of a picture is what its segments say: the values of its tables in file order, the restart interval, size and kind of the last frame header, and the scan |
| MjpegFidelity.HeaderDescribed | shared/src/depk/mjpeg.rs:62-98 | What every picture a receiver builds says: two tables under 0 and 1, 8 bits, three components, the standard codes and one scan, for the size, kind and restart interval given |
| MjpegFidelity.RebuiltSame | shared/src/depk/mjpeg.rs:118-173 | The picture rebuilt of what the sender read says the same as the picture sent if and only if that can be carried |
| MjpegFidelity.OwnExactly | server/src/rtsp/packetizer.rs:161-266 | For a picture that can be sent, a fresh receiver gives one picture that says the same of itself, tables by identifier, frame, Huffman codes, restart interval, scan header and scan, if and only if the picture can be carried |
| MjpegFidelity.TablesSwapped | server/src/rtsp/packetizer.rs:190-202 | Two tables sent under any identifiers come back as 0 and 1 in file order: the picture comes back as it was if and only if they were 0 and 1, or 1 and 0 and the same |
| Mjpeg.MjpegPacketizer.Push | server/src/rtsp/packetizer.rs:235-266 | The loop over the scan sends the specification's pieces, numbered on |
| Mjpeg.MjpegDepacketizer.Take | shared/src/depk/mjpeg.rs:118-173 | One packet changes the picture in progress, and gives a sample, as the specification says |
| RbspBits.UnescapeEscape | shared/src/h26x.rs:91-103 | Reading undoes emulation prevention on every payload |
| RbspBits.EscapeIsSafe | shared/src/h26x.rs:91-103 | A protected payload holds no start code, so the prevention undone is the standard's |
| RbspBits.BitsOfBytes | shared/src/h26x.rs:105-126 | Bits packed into bytes, most significant first, are read back as they were |
| RbspBits.PrefixFits | shared/src/h26x.rs:134-143 | The prefix has at most 31 zeros if and only if the number is below 2^32 - 1 |
| RbspBits.ReadUeCode | shared/src/h26x.rs:134-143 | `ue` returns the number whose Exp-Golomb code is at the cursor and moves past it |
| RbspBits.ReadSeCode | shared/src/h26x.rs:144-148 | `se` returns the number whose signed code is at the cursor, within thirty bits |
| RbspBits.SignedExactly | shared/src/h26x.rs:144-148 | The signed number is the one meant if and only if its code is below 2^31 - 1 |
| RbspBits.UnescapeRbsp | shared/src/h26x.rs:91-103 | The loop removes exactly the prevention bytes |
| RbspBits.Bits.Bit | shared/src/h26x.rs:114-119 | One bit at the cursor, or none at the end |
| RbspBits.Bits.Number | shared/src/h26x.rs:120-126 | n bits as a number, wrapped to 32 bits |
| RbspBits.Bits.Leading | shared/src/h26x.rs:134-143 | Counts the zeros before the next one and passes it |
| RbspBits.Bits.Ue | shared/src/h26x.rs:134-143 | The unsigned code by the specification, refused past 31 zeros |
| RbspBits.Bits.Se | shared/src/h26x.rs:144-148 | The signed code by the specification |
| Sps.ListsRead | shared/src/h26x.rs:165-181 | Scaling lists of any lengths are passed over exactly, the cursor standing at what follows |
| Sps.HighRead | shared/src/h26x.rs:156-182 | The fields of the high profiles give the chroma format and leave the cursor at what follows |
| Sps.HeadRead | shared/src/h26x.rs:153-182 | The same for everything up to the picture order fields |
| Sps.OrderRead | shared/src/h26x.rs:183-197 | The picture order fields of all three kinds are passed over exactly |
| Sps.FrameRead | shared/src/h26x.rs:198-213 | The size and cropping fields read are the ones encoded |
| Sps.SizeIs | shared/src/h26x.rs:214-224 | The size computed is the standard's cropped size when its arithmetic fits in 32 bits |
| Sps.DimsOfEncoded | shared/src/h26x.rs:150-225 | The size read from any encoded and protected parameter set is the cropped size by the standard, capped at 65535, and none when the cropping exceeds the picture |
| Recorder.GatheredShortest | shared/src/vms/block_builder.rs:158-230 | However samples come, those with bytes are grouped in order into blocks, each the shortest stretch that is enough by number, bytes or time from first to last; what is not enough yet waits in the builder |
| Recorder.AddSampleKeeps | shared/src/recorder.rs:214-220 | While nothing fails, adding a sample extends what is written or gathered by exactly that sample, unless it is empty |
| Recorder.CloseKeeps | shared/src/recorder.rs:222-232 | Closing writes out the block being built: nothing gathered is lost |
| Recorder.RunBalanced | shared/src/recorder.rs:242-306 | While opens and writes succeed, after every event of every run, the samples on disk and being gathered equal, in order, those that arrived after the video format, less empty ones and audio of files without a track; what waits is never dropped before a stop |
| Recorder.RunInventsNothing | shared/src/recorder.rs:242-306 | Whatever fails, what is on disk, gathered or waiting is a subsequence of what arrived |
| Recorder.RunOpensExactly | shared/src/recorder.rs:138-306 | In every run, whatever fails: while no file is open, an event opens one if and only if it is the arrival of a sample, a video format was announced in the session, a file can be created, and audio is not wanted, or its format was announced too, or 8 MB arrived since, or the clock is `wait_audio_ms` past the first format |
| Recorder.RunStaysOpen | shared/src/recorder.rs:242-306 | While creations and writes succeed, an open file stays open until the stream stops or a video format is announced |
| Recorder.RunReopens | shared/src/recorder.rs:267-300 | In every run, whatever fails, an arrival that loses the file being written leaves none open, so that the next arrival may open another |
| Recorder.RunHoldsLittle | shared/src/recorder.rs:267-283 | In every run, whatever fails, what is held back was less than 8 MB before its last sample came |
| Recorder.RunMakes | shared/src/recorder.rs:148-212 | In every run there are as many files as creations that succeeded, and as many blocks in them as writes that did |
| Recorder.RunCutsWell | shared/src/recorder.rs:170-212 | In every run, whatever fails: a file begun by rotation starts with a keyframe block or the file before had aged a minute past the limit, and never before the limit; no other block with a keyframe is put in a file that had reached the limit, and no block at all in one a minute past it |
| Recorder.FileRecorder.IsReady | shared/src/recorder.rs:138-146 | Opening waits for video and for audio, up to the audio wait or the limit on held bytes; the clock is read only if nothing else decides |
| Recorder.FileRecorder.OpenFile | shared/src/recorder.rs:148-168 | A file is begun with an empty block, or nothing is open when it cannot be created |
| Recorder.FileRecorder.NextFile | shared/src/recorder.rs:178-199 | The next file is begun, marked as cut at the instant given, or the recorder is left without a writer when it cannot be created |
| Recorder.FileRecorder.WriteOut | shared/src/recorder.rs:201-212 | A block goes to the current file, or first rotates it, or is lost without a writer |
| Recorder.FileRecorder.Add | shared/src/recorder.rs:214-220 | A sample goes to the builder, and a block it completes is written |
| Recorder.FileRecorder.CloseFile | shared/src/recorder.rs:222-232 | The last block is flushed and the file closed |
| Recorder.FileRecorder.VideoFormat | shared/src/recorder.rs:243-254 | A video format closes an open recording and starts waiting |
| Recorder.FileRecorder.AudioFormat | shared/src/recorder.rs:256-265 | An audio format is taken while no file is open and ignored after |
| Recorder.FileRecorder.Receive | shared/src/recorder.rs:267-300 | A sample waits until the recorder is ready; then all that waited is added, less audio without a track |
| Recorder.FileRecorder.Release | shared/src/recorder.rs:284-289 | The loop over the held samples adds each in order |
| Recorder.FileRecorder.StreamStopped | shared/src/recorder.rs:302-306 | The file is closed and the recorder starts afresh |
| FrameWalk.PacedSpread | server/src/analytics/walk.rs:233-237 | Whatever instants are shown, those the pace gives rise strictly and the n-th is at or after from + n * step |
| FrameWalk.NextFrameInv | server/src/analytics/walk.rs:187-239 | A frame taken is at or after the target and in the window, and moves the target past it and by at least a step |
| FrameWalk.WalkSpread | server/src/analytics/walk.rs:46-77 | All the frames of a walk that keeps the invariant: strictly rising, in [from, to], the n-th at or after from + n * step |
| FrameWalk.WholeWalk | server/src/analytics/walk.rs:46-239 | A whole walk from its beginning, after any number of frames asked for and whatever is read, opened and decoded: the frames rise strictly, lie in [from, to], the n-th at or after from + n * step, and what each opened file feeds its decoder begins with a keyframe |
| WalkCoverage.WalkGivesAll | server/src/analytics/walk.rs:144-239 | A whole walk misses nothing: asked n times it gives the first n frames the pace picks of the samples the decoder answers; asked once more than there are it is over, and has decoded exactly the video samples with bytes of all files and blocks in order, from each file's first keyframe, up to the first instant past the window, the first file that gives no block, or the first 10001 samples in a row without a picture |
| FrameWalk.TurnAdvances | server/src/analytics/walk.rs:187-239 | Every turn of the loop uses up input: the search for a frame terminates |
| FrameWalk.FeedKeyframes | server/src/analytics/walk.rs:203-222 | One sample fed keeps every opened file's feed beginning with a keyframe |
| FrameWalk.Walker.Advance | server/src/analytics/walk.rs:144-179 | Moves to the next block, in this file or the next that opens, or finds none |
| FrameWalk.Walker.Take | server/src/analytics/walk.rs:165-179 | Enters the block just read, at its first sample |
| FrameWalk.Walker.Pull | server/src/analytics/walk.rs:187-239 | The loop returns the specification's next frame and leaves its state |
| FrameWalk.Walker.OneTurn | server/src/analytics/walk.rs:192-237 | One turn: the next block, a sample passed over, the end, or a frame |
| FrameWalk.Walker.FeedDecoder | server/src/analytics/walk.rs:215-222 | A fed sample ends the wait for a keyframe and asks the decoder once |
| FrameWalk.Walker.Show | server/src/analytics/walk.rs:221-237 | A decoded picture is given, passed over as too early, or ends the walk as too late |
| AnalysisWorker.StepGood | server/src/analytics/worker.rs:100-129 | A step never moves time back nor past the target by more than one, and when it moves at all brings the round nearer its end |
| AnalysisWorker.RoundCovers | server/src/analytics/worker.rs:162-189 | A round keeps the opened windows chained, each of at most 30 s, reaches the target unless it is stopped, and ends with all progress saved |
| AnalysisWorker.Run | server/src/analytics/worker.rs:162-189 | After any number of rounds with targets that do not go back: windows cover all from the start to the instant reached, which never decreases, never exceeds max(start, target + 1), and reaches the target of every round that is not stopped |
| AnalysisWorker.NoHole | server/src/analytics/worker.rs:100-129 | Every instant before the one reached lies in a window that was opened |
| AnalysisWorker.SeenRises | server/src/analytics/worker.rs:100-129 | The frames handed over in a whole run rise strictly, across windows as within them, and so does the progress saved |
| AnalysisCoverage.RunMissesNothing | server/src/analytics/worker.rs:100-189 | Over a whole run of rounds, however they are stopped, what was handed to the analyzer is, window after window, every frame due in it (as `WalkCoverage.WalkGivesAll` tells it from what is recorded and decoded), in order and once; of a window still under way, the first of them |
| AnalysisWorker.Worker.SaveProgress | server/src/analytics/worker.rs:79-85 | Progress is written only when it has moved |
| AnalysisWorker.Worker.Open | server/src/analytics/worker.rs:101-112 | A window of at most 30 s, ending no later than the target, is opened from the instant reached |
| AnalysisWorker.Worker.Take | server/src/analytics/worker.rs:113-128 | One frame is handed over and time moves past it, or the walk is over and time moves to the end of its window |
| AnalysisWorker.Worker.Advance | server/src/analytics/worker.rs:100-129 | One step, by the specification |
| AnalysisWorker.Worker.DoRound | server/src/analytics/worker.rs:162-189 | The loop is the specification's round, with its periodic saves and the one at the end |
| EventMerging.StreamIsPartition | server/src/analytics/analyzer.rs:40-75 | For instants that do not go back, the events emitted for a name are, in order, one per run of its sightings cut where the gap is exceeded between frames, the longest age is reached, or at a flush |
| EventMerging.RunsAreGreedy | server/src/analytics/analyzer.rs:40-75 | The runs are a partition into maximal runs by the merge rule |
| EventMerging.GreedyIsRuns | server/src/analytics/analyzer.rs:40-75 | There is only one such partition |
| EventMerging.SummaryTells | server/src/analytics/analyzer.rs:40-57 | An event starts with the first and ends with the last sighting of its run, with the highest score, the box of the first sighting that had it, and the highest count |
| EventMerging.EventsApart | server/src/analytics/analyzer.rs:40-75 | Events of one name never overlap, and with a positive limit each is shorter than it |
| FrameAnalyzer.MergeTells | server/src/analytics/analyzer.rs:115-132 | A group of a frame's hits of one name has their number, their best score and the box of the first hit with it |
| FrameAnalyzer.FrameTells | server/src/analytics/analyzer.rs:89-133 | A frame tells of a name motion if something moved and the name is that of motion, and objects if and only if the network was asked and answered, the name is wanted and a hit has it; a change of scene tells nothing |
| FrameAnalyzer.FrameSteps | server/src/analytics/analyzer.rs:89-133 | What one frame does to one name: ignored, cut by a scene change, or closed if stale, then noted by motion and by hits |
| FrameAnalyzer.NetworkPaced | server/src/analytics/analyzer.rs:79-133 | Over a run of frames in order of time, the network is asked about a frame if and only if it is available, something moved or it is asked at rest too, and every frame it was asked about since the last jump is a whole interval back: the short one in motion, the long one at rest |
| FrameAnalyzer.NetworkAsked | server/src/analytics/analyzer.rs:79-133 | The same for frames in any order of time: what counts is that the frame last asked about since the last jump is a whole interval away, before or after |
| FrameAnalyzer.FramesArePartitioned | server/src/analytics/analyzer.rs:89-133 | Feeding frames in order, closing everything wherever a round ends or time jumps, stores for every name one event per run of the greedy partition, whatever other names do in the same frames |
| FrameAnalyzer.Analyzer.Note | server/src/analytics/analyzer.rs:40-57 | Noting changes the one name it is about, by the specification |
| FrameAnalyzer.Analyzer.CloseStale | server/src/analytics/analyzer.rs:59-68 | Every name that is stale or too long is closed, no other |
| FrameAnalyzer.Analyzer.Flush | server/src/analytics/analyzer.rs:70-76 | Every open event is stored, once |
| FrameAnalyzer.Analyzer.Rewind | server/src/analytics/analyzer.rs:78-82 | Open events are dropped without being stored; after a flush there are none, and no name changes |
| FrameAnalyzer.Analyzer.Gather | server/src/analytics/analyzer.rs:115-132 | The inner loop gathers all hits of the name of a first hit |
| FrameAnalyzer.Analyzer.NoteHits | server/src/analytics/analyzer.rs:115-132 | Every wanted name is noted once with all its hits |
| FrameAnalyzer.Analyzer.Feed | server/src/analytics/analyzer.rs:89-133 | A frame moves every name at once by its own signals, and the object clock only when objects were asked for |
| Motion.Sane | server/src/analytics/motion.rs:53-64 | Whatever the parameters, the ones used are in range; a scale between 1/8 and 1 gives a grid of 64 by 36 scaled and rounded |
| Motion.PullShrinks | server/src/analytics/motion.rs:137-139 | The truncated pull never overshoots or changes sign, moves by at least 26 while more than a level away, and by nothing within nine 256ths |
| Motion.StillRange | server/src/analytics/motion.rs:103-146 | For one unchanging picture the background stays within 0 and 255 * 256 over any number of frames |
| Motion.AlwaysInRange | server/src/analytics/motion.rs:103-146 | Whatever pictures are fed at whatever times, the background stays within 0 and 255 * 256 |
| Motion.FewerMove | server/src/analytics/motion.rs:103-146 | For an unchanging picture the number of moved cells never increases |
| Motion.BackgroundConverges | server/src/analytics/motion.rs:103-146 | From any background, an unchanging picture has no moved cell from the 2501st frame on, with a cell difference of at least 2 |
| Motion.OneLevelStalls | server/src/analytics/motion.rs:103-146 | With a difference of 1 and no new background, at every frame at least the cells that started below the picture count as moved |
| Motion.OneLevelExactly | server/src/analytics/motion.rs:103-146 | With a difference of 1, for any picture, background and instants: from the 2502nd frame on the count is 0 if the background was set anew, else the number of cells that started below the picture; so it comes to 0 if and only if none did |
| Motion.OneDarkCell | server/src/analytics/motion.rs:103-146 | A background one 256th too dark in one cell, with frames as steady as one likes: one cell counts as moved at every frame |
| Motion.MeanIsLevel | server/src/analytics/motion.rs:71-92 | The mean luma of every cell is a level from 0 to 255 |
| Motion.JudgedByShare | server/src/analytics/motion.rs:103-146 | A frame is judged by the share of cells at least `delta` levels from the background: a scene change from `scene` on, calm below `threshold`, else motion; the first frame and one after a jump in time are not judged |
| Motion.BoxIsTight | server/src/analytics/motion.rs:116-128 | The box holds every moved cell and each of its sides touches one |
| Motion.Detector.Sums | server/src/analytics/motion.rs:71-92 | The nested loops sum and count the pixels of every cell |
| Motion.Detector.Downsample | server/src/analytics/motion.rs:71-92 | The array holds the mean luma of every cell |
| Motion.Detector.SeedBackground | server/src/analytics/motion.rs:94-99 | The background becomes the picture, in 256ths |
| Motion.Detector.AdaptBackground | server/src/analytics/motion.rs:137-139 | Every background cell moves towards the picture by the truncated share |
| Motion.Detector.CountMoved | server/src/analytics/motion.rs:116-128 | The loop over the cells gives the count of moved ones and the box around them |
| Motion.Detector.Feed | server/src/analytics/motion.rs:103-146 | A frame seeds, reports a scene change or reports motion, and adapts, by the specification; an unusable picture changes nothing |
| Motion.Detector.Forget | server/src/analytics/motion.rs:148-151 | The next frame seeds anew |
| LookBack.OverlappingIs | server/src/interactions.rs:137-160 | What overlaps a window is exactly the rows that meet it, as often as they are stored |
| LookBack.ReachMissesNothing | server/src/interactions.rs:137-160 | When no row is longer than the reach, looking back by the reach finds all that overlaps |
| LookBack.LimitedIs | server/src/analytics/store.rs:61-101 | The answer is in order of start and is all of the rows or the earliest ones up to the limit |
| Interactions.CloseConserves | server/src/interactions.rs:85-94 | Storing a stretch moves its action counts and loses none |
| Interactions.RegisterConserves | server/src/interactions.rs:96-116 | Registering adds one to the count of its action, over open and stored stretches together, and nothing else |
| Interactions.InteractionLog.Close | server/src/interactions.rs:85-94 | An open stretch becomes one row, unchanged, and the invariant holds: start <= end <= start + 5 min for all |
| Interactions.InteractionLog.Register | server/src/interactions.rs:96-116 | Even with a clock that goes back, a command stretches its open stretch or stores it and opens another, keeping all stretches bounded and counts conserved |
| Interactions.InteractionLog.CloseAll | server/src/interactions.rs:118-135 | The stretches of the given keys are stored, each once |
| Interactions.InteractionLog.Sweep | server/src/interactions.rs:118-128 | Exactly the stretches silent for longer than the gap are stored |
| Interactions.InteractionLog.CloseEverything | server/src/interactions.rs:130-135 | Every open stretch is stored, once |
| Interactions.InteractionLog.Query | server/src/interactions.rs:137-160 | The stored answer is the first 4000 of all rows that overlap the window, and the open ones are exactly those that overlap it |
| EventStore.ShortEventsFound | server/src/analytics/store.rs:61-101 | Over stored events no longer than the reach, every query by kind, name and score gives all that overlaps, up to its limit |
| EventStore.RowsAre | server/src/analytics/store.rs:61-101 | A query looks through exactly the stored events of its kind, its name and at least its score |
| EventStore.StoredAre | server/src/analytics/store.rs:30-53 | Storing keeps every valid event, in order, its score within 0 and 1, and no event longer than it was |
| EventStore.AnalyzedEventsFound | server/src/analytics/store.rs:30-101 | From frames to answers: with a positive limit shared by both, whatever one name's frames are, its stored events are all found by every query for what overlaps |
| EventStore.ReachSuffices | server/src/analytics/store.rs:23-27 | The analyzer's events are always within the store's reach if and only if the shared limit is positive or sightings are never joined |
| EventStore.SteadyStream | server/src/analytics/analyzer.rs:40-57 | Without a limit, steady sightings are one event that goes on and on |
| EventStore.LongEventMissed | server/src/analytics/store.rs:61-101 | An event longer than the reach is missed by a query for its end |
| Calendar.DaysOfCivil | shared/src/clock.rs:97-119 | Every day number is a valid date, and its date's day is the same number, on all integers |
| Calendar.CivilOfDays | shared/src/clock.rs:97-119 | Every valid date comes back from its day number |
| Calendar.DaysOrdered | shared/src/clock.rs:111-119 | An earlier date is an earlier day |
| Calendar.OrderKept | shared/src/clock.rs:97-109 | Dates and days are in the same order, both ways |
| Calendar.DateTimeTells | shared/src/clock.rs:122-136 | The parts of an instant are in range and make up the instant to the millisecond, before 1970 as after |
| DayText.ParseText | shared/src/clock.rs:223-236 | A date from year 0 on is read back from its text |
| DayText.ParseTextFails | shared/src/clock.rs:223-236 | Any other year's text is refused |
| DayText.TextOrder | shared/src/clock.rs:86-90 | From year 0 to 9999, texts are in the order of the dates |
| DayText.TextOrderExactly | shared/src/clock.rs:86-90 | Two dates from year 0 on compare as texts as they do as dates if and only if their years have as many digits, or the shorter is no larger than as many first digits of the longer |
| DayText.FifthDigitBreaksOrder | shared/src/clock.rs:86-90 | A concrete pair: the day after the last of year 9999 reads as earlier |
| Ranges.MergeRanges | server/src/index_cache.rs:469-482 | The loop that extends the last range in place computes the specification's merge |
| Ranges.MergedIs | server/src/index_cache.rs:469-482 | Merged ranges are sorted, more than the gap apart, and cover all that the files cover; with no gap, nothing else |
| Ranges.MergedAddsOnlyGaps | server/src/index_cache.rs:469-482 | What merging adds lies in holes no longer than the gap |
| Ranges.ClipSplits | server/src/index_cache.rs:484-491 | Clipping to two adjoining windows adds up to clipping to both |
| Ranges.ClipWhole | server/src/index_cache.rs:484-491 | A window around all ranges changes none |
| Ranges.TotalIsSize | server/src/index_cache.rs:469-482 | Ranges apart add up to the size of the set they cover |
| RecordedDays.DaysTile | shared/src/clock.rs:239-241 | With a fixed offset, each instant is in exactly one local day |
| RecordedDays.StartRead | shared/src/clock.rs:223-236 | A day's text gives the start of that day, exactly for the days that can be read |
| RecordedDays.NextDayIs | server/src/api/recordings.rs:26-30 | The day after a day's text is the next day's text |
| RecordedDays.Days | server/src/api/recordings.rs:55-84 | The loop over the days gives the specification's report |
| RecordedDays.ReportRecords | server/src/api/recordings.rs:55-84 | The recorded times of the days add up to what lies between the start of the first and the first day the loop stops at, whatever the years |
| RecordedDays.DaysConserve | server/src/api/recordings.rs:55-84 | From year 0 to 9999 the recorded times of all days add up to the size of the union of the files |
| RecordedDays.DaysConserveExactly | server/src/api/recordings.rs:55-84 | For any years, the recorded times of all days add up to the size of the union of the files if and only if every day with something recorded is reached: from the first day to it, years can be read and compare as texts with the last |
| Retention.SweepConserves | server/src/retention.rs:103-175 | Freed and kept bytes, and deleted and kept files, add up to what was there; nothing locked or in its grace period is deleted |
| Retention.SweepCountsRefused | server/src/retention.rs:103-175 | A sweep reports as locked exactly the files that the system refused to delete |
| Retention.AgeIsExact | server/src/retention.rs:119-143 | The age phase tries exactly the eligible files written before the cutoff |
| Retention.PhaseIsShortest | server/src/retention.rs:144-158 | The phases by size and by space try exactly the shortest stretch, in the order listed, that meets the limit, or all |
| Retention.ViolatedMeansNoneLeft | server/src/retention.rs:144-158 | If the limit is still violated after its phase, no eligible file remains |
| Retention.SweepDoesAllItMay | server/src/retention.rs:103-175 | After a sweep, if the size limit is still violated, or the space limit is although some space was read as free or freed early, every file kept was locked or in its grace period |
| Retention.SpacePhaseRuns | server/src/retention.rs:137-158 | The phase by space runs if and only if the free space was read as more than zero, or some deletable file with bytes in it has expired or the files found are over the size limit |
| Retention.SpaceStaysShort | server/src/retention.rs:103-175 | The space limit stays violated with eligible files left if and only if the free space was read as zero, no early phase frees bytes, the size is within its limit, and some file out of its grace period has not expired |
| Retention.SweepTakesOldest | server/src/retention.rs:88-175 | For files listed from the oldest on, whatever a sweep deletes is no newer than any file kept that could have gone |
| Retention.FullDiskKept | server/src/retention.rs:152-158 | With a reading of zero and no other limit, a sweep deletes nothing |
| Retention.UnknownSpaceDeletes | server/src/retention.rs:137-158 | A concrete sweep in which that deletes a recording no limit touches |
| Retention.Sweeper.Remove | server/src/retention.rs:119-136 | One deletion, or one refusal remembered, moves bytes from kept to freed |
| Retention.Sweeper.ByAge | server/src/retention.rs:137-143 | The loop of the age phase is the specification's |
| Retention.Sweeper.ByLimit | server/src/retention.rs:144-158 | The loop of the other two phases is the specification's |
| Retention.Sweeper.Run | server/src/retention.rs:103-175 | The three phases in order; with every limit off, or no file, nothing changes and nothing is counted; the result counts exactly what was deleted, refused and kept, and says whether space is still short |
| Retention.OldestKeptTells | server/src/retention.rs:167-173 | The oldest instant kept is that of the first file kept whose instant is known, and zero if there is none |
| Retention.Sweeper.CountUp | server/src/retention.rs:167-173 | Counts the files and bytes kept and finds the oldest |

## Left out

- MediaRuns.RunIsContiguous: assumes that no file grew between the reading of its index and a listing that shows its successor, because the code skips a block otherwise; `MediaRuns.RaceExactly` has the exact condition for one request, `MediaRuns.RunNeverRepeats` what holds without it
- MediaDelivery.StartByTime: the blocks of a file are taken to start in order of time, as the source's binary search over them needs
- Thinning.ThinReply: a block of a thinned reply that cannot be read is left out while the cursor moves on; in the delivery theorems the blocks received are the blocks the replies name
- Thinning.ThinEntry: payloads from 4 GiB on, whose offsets are cut to 32 bits, are not covered
- LiveRing.LiveSafety: a cursor caught up at the moment the camera stopped has nothing to resync on, so its next sample after a restart in the same format is only known to be of its epoch; the unbroken slice is claimed for clients that never waited
- LiveRing.LiveStream.PublishVideo: epochs and sequence numbers are unbounded integers, so their wrap-around is not modelled
- Dvrip.ResyncSkipsLeast: timeouts inside the scan, where the 20-byte window is dropped, are not covered
- Dvrip.RunsStayAligned: claims nothing after a lost payload, because of `Dvrip.MisreadAfterLoss`; `Dvrip.RunExactly` says exactly when there is one
- Motion.BackgroundConverges: a difference of one level is left to `Motion.OneLevelExactly`
- EventStore.AnalyzedEventsFound: the analyzer and the store share the same unchanged limit; lower-casing of names and clamping of boxes are not modelled
- Interactions.InteractionLog.Query: rows are visible as soon as a stretch closes, and a failing database is not modelled; the text built from the action counts is left out
- RecordedDays.DaysConserve: the local offset is fixed; `RecordedDays.DaysConserveExactly` covers the other years
- Calendar.DaysOfCivil: years are unbounded, where the code keeps 32 bits
- Sps.DimsOfEncoded: parameter sets whose size arithmetic leaves 32 bits are not covered, nor is the H.265 reader, which the code keeps apart
- Mjpeg.PictureRoundTrip: the standard's Huffman codes and the standard tables of each quality are parameters; where the source would index past the end (`Mjpeg.CrashesExactly`), the model reads nothing
- MjpegFidelity.OwnExactly: application segments and comments, which no decoder needs, are not part of what a picture says
- Recorder.RunBalanced: a format announced without a codec, whose samples the code keeps in a file that has no such track, is not told apart; block anchors and the `.vms` bytes are not modelled
- AnalysisWorker.Run: the mode that looks at keyframes one by one, and the counters and logs, are left out; where time jumps is not tied to the instants handed over
- Retention.SweepConserves: scanning and sorting folders and pruning the database after a sweep are left out
- XmParser.MediaParser.Feed: the statistics and one-time warnings are left out; they do depend on how bytes arrive
- Counters, sizes and times are unbounded integers except where a width is named (16-bit sequence numbers, 32-bit timestamps and lengths, 13-bit sizes, Exp-Golomb arithmetic)
- Scores and thresholds are real numbers; rounding of 32-bit floats is not modelled
- `live_fragment` reads the ring a second time after its cursor moved and caps the samples; nothing is claimed for it
- Camera and file names are compared without case as ASCII; trimming and lower-casing of other letters are not modelled
- Sockets, threads, locks, the database, the file system, HTTP, ONVIF, decoders and neural networks are inputs or absent
- G.711 and codec tables, authentication, settings and the browser players are left out: finite tables, plumbing or another program
