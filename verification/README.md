# TurboMedia: verified model of the buffering, packet and session cores

TurboMedia moves audio and video between capture devices, codecs, RTP, RTMP, HTTP-FLV and RTSP. Most of it is
glue over foreign libraries. This project models the self-contained C components that carry the hard invariants
and proves what they promise, in Dafny. Imperative code is modelled imperatively (classes, arrays, loops) and tied
to a function on plain values; the promises are then proved about that function, for all inputs and for whole runs.

| file | component |
|---|---|
| `Bytes.dfy` | bytes, limits, concatenation, memcpy |
| `FrameRing.dfy`, `CaptureQueues.dfy`, `CaptureRuns.dfy` | the two bounded capture queues: a ring of slot records over a ring of bytes refines a FIFO |
| `Lifecycle.dfy`, `LifecycleCalls.dfy` | lifecycle calls interleaved with capture callbacks and consumers |
| `H264AnnexB.dfy`, `H264Packetize.dfy`, `H264Depacketize.dfy`, `H264Reception.dfy`, `H264RoundTrip.dfy`, `H264Unpack.dfy` | H.264 over RTP (sections 5.6, 5.7.1 and 5.8 of RFC 6184) |
| `Vpx.dfy`, `VpxReception.dfy` | VP8 and VP9 over RTP (section 4.2 of RFC 7741, section 4.2 of RFC 9628) |
| `ChunkedBody.dfy`, `HttpFlv.dfy`, `HttpFlvCalls.dfy` | the HTTP-FLV uploader: chunked coding (section 7.1 of RFC 9112) and the producer/consumer protocol |
| `Amf0.dfy`, `Amf0RoundTrip.dfy`, `Amf0Schema.dfy`, `Amf0Writer.dfy`, `RtmpMetadata.dfy` | AMF0 reader and writers, and the onMetaData message built with them |
| `HevcArena.dfy`, `HevcIds.dfy`, `HevcRuns.dfy` | the HEVC parameter-set arena: pointers into a compacting buffer refine a list |
| `Av1Config.dfy`, `Av1Streams.dfy` | leb128, OBU splitter and configuration-record builder of AV1 |
| `MediaSource.dfy`, `ServerRuntime.dfy` | GOP cache, subscriptions, registry and server runtime |
| `RtspAdapter.dfy` | the per-session RTSP state machine (Appendix A.2 of RFC 2326) |

`dafny verify dfyconfig.toml` checks the whole project.

## Where the code differs from what one would expect

- **Stale reassembly length (H.264).** FU-A completion clears `reassembly_started` but not `reassembly_len`
  (`codec/h264_codec.c:804-806`), and the single-unit path uses `reassembly_len` unconditionally (`:860-872`). A frame
  sent as one packet right after a fragmented frame is handed out behind bytes that are not its own. `StreamLaw`
  gives the exact condition; `StaleBytesExample` is a concrete stream that fails.
- **Frames that complete early (H.264).** Every unit sent outside an aggregate reports completion, and a second
  aggregate overwrites the first. So a frame comes out only if it is one unit, or one group of parameter sets and one
  unit: `FrameLaw` states this for frames of any units. `SingleSetExample` is a legal frame of one parameter set and a
  slice that fails, `SingleSetCompletesEarly` says why.
- **Marker bit (H.264).** A frame that ends with aggregated parameter sets carries no marker at all, because the STAP-A
  path never sets it (`codec/h264_codec.c:657`). `MarkerOnLast` states exactly where the marker is,
  `SliceEndsWhole` what a caller can do about it, and `MarkerMissingExample` is such a frame.
- **Start-code scan (H.264).** The scanner needs four bytes to look at, so `00 00 01` in the last three bytes of a
  frame is overlooked. `ScanStream` states exactly which units are found again; `DirtyUnitExample` and
  `OverlookedExample` show a start code that splits a unit and one that is overlooked.
- **Late chunks (HTTP-FLV).** A chunk accepted after the uploader's last look at the queue and before it publishes its
  result is never sent, although the upload ends with 0. `SuccessfulUpload` gives the exact condition,
  `LateChunkIsLost` a run of nine steps. An owner that lets its producers finish before it disconnects loses nothing:
  `OrderlyUploadIsComplete`.
- **A full arena confuses parameter sets (HEVC).** The ids of a set are parsed from what fits into the free end of the
  arena (`common/codec_helpers/hevc-annexbtomp4.c:34-52`, `:107-126`). With too little space all sets of a type look
  alike, and a new set replaces the wrong one: `FullArenaConfusesSets` is a run of four updates after which two sets
  share an id. `CopyKeepsDistinctIff` gives the exact condition, `RunKeepsDistinct` the guard a caller can check.
- **A truncated object can pass for a whole one (AMF0).** The reader looks for the end marker also when less than a
  length is left, so the single first byte of a name of 2304 to 2559 bytes is taken for it
  (`common/codec_helpers/amf0.c:383-406`). `TruncatedObject` states exactly which truncated objects are refused,
  `EndMistakenExample` is one that is not.

## Model

| member | source | states |
|---|---|---|
| `FrameRing.WrapIsMod` | client_processing/core/client_processing_queues.c:269-280 | the ring index used in the proofs is the unsigned remainder of the source |
| `FrameRing.DistinctCells` | client_processing/core/client_processing_queues.c:269-280 | two stream positions less than a lap apart never share a ring cell |
| `FrameRing.BytesAppend` | client_processing/core/client_processing_queues.c:7-17 | storing behind the tail, wrapped or not, leaves every queued byte readable and adds exactly the new ones |
| `FrameRing.SlotsDrop` | client_processing/core/client_processing_queues.c:324-333 | zeroing the head slot and advancing leaves the records of exactly the remaining entries |
| `FrameRing.CopyIn` | client_processing/core/client_processing_queues.c:7-17 | the two straight copies store the source round the ring and touch no other cell |
| `FrameRing.CopyOut` | client_processing/core/client_processing_queues.c:19-29 | the destination receives the ring's bytes in stream order, its tail untouched |
| `FrameRing.Ring.Append` | client_processing/core/client_processing_queues.c:265-282 | on two rings, through every wraparound, the abstract queue grows by exactly this entry |
| `FrameRing.Ring.RemoveHead` | client_processing/core/client_processing_queues.c:308-333 | hands over the oldest payload byte for byte and removes exactly that entry, reset included |
| `FrameRing.Ring.Clear` | client_processing/core/client_processing_queues.c:51-64 | leaves a valid empty ring |
| `CaptureQueues.AdmitVideoKeeps` | client_processing/core/client_processing_queues.c:223-286 | item, byte and time bounds, ordered timestamps and the exact span survive every admission attempt |
| `CaptureQueues.AdmitVideoExact` | client_processing/core/client_processing_queues.c:235-263 | a proper frame is turned away in the running state if and only if appending it would break a bound or the order |
| `CaptureQueues.PopVideoKeeps` | client_processing/core/client_processing_queues.c:31-49 | the same survives every pop, so the recomputed span is exact |
| `CaptureQueues.VideoCapture.Admit` | client_processing/core/client_processing_queues.c:210-287 | new queue, counters and status are those of the FIFO call, in every branch and error case |
| `CaptureQueues.VideoCapture.Pop` | client_processing/core/client_processing_queues.c:289-337 | status, reported size, payload and metadata are those of the FIFO; a refused pop writes nothing |
| `CaptureQueues.VideoCapture.Clear` | client_processing/core/client_processing_queues.c:51-64 | empties the FIFO and keeps the counters |
| `CaptureQueues.CeilingUnique` | client_processing/core/client_processing_queues.c:150-164 | at most one number is the least that covers the samples |
| `CaptureQueues.FramesDurationExact` | client_processing/core/client_processing_queues.c:150-165 | whole seconds plus rounded-up rest is that ceiling, refused exactly when it does not fit 64 bits |
| `CaptureQueues.PayloadDurationExact` | client_processing/core/client_processing_queues.c:132-166 | the same for payload lengths, with the refusals of empty and unaligned payloads |
| `CaptureQueues.AdmitAudioKeeps` | client_processing/core/client_processing_queues.c:354-438 | every queued frame ends within the duration bound counted from the head, and within 64 bits, after every attempt |
| `CaptureQueues.AdmitAudioExact` | client_processing/core/client_processing_queues.c:377-416 | a proper payload is turned away in the running state if and only if appending it would break a bound or the order |
| `CaptureQueues.PopAudioKeeps` | client_processing/core/client_processing_queues.c:454-489 | the same after every pop |
| `CaptureQueues.AudioSpanNeverFallsBack` | client_processing/core/client_processing_queues.c:66-92 | in such a state neither UINT64_MAX fallback is taken and the span is positive and bounded |
| `CaptureQueues.AudioCapture.Configure` | client_processing/core/client_processing_queues.c:168-208 | accepted exactly for valid values in the created state with memory at hand, and then the queue is new and empty; otherwise nothing changes |
| `CaptureQueues.AudioCapture.Admit` | client_processing/core/client_processing_queues.c:339-439 | refines the audio FIFO, in every branch and error case |
| `CaptureQueues.AudioCapture.Pop` | client_processing/core/client_processing_queues.c:441-490 | refines the audio FIFO and reports timestamp and sample format; a refused pop writes nothing |
| `CaptureQueues.AudioCapture.Clear` | client_processing/core/client_processing_queues.c:94-107 | empties the FIFO, and does nothing without a configuration |
| `CaptureRuns.RunVideoFifo` | client_processing/core/client_processing_queues.c:210-337 | for every run of calls: old queue plus what callers handed in with Ok is what was delivered or discarded, in order, plus the new queue; admitted counts match |
| `CaptureRuns.RunAudioFifo` | client_processing/core/client_processing_queues.c:339-490 | the same for audio |
| `CaptureRuns.RefusedCallsChangeNothing` | client_processing/core/client_processing_queues.c:228-263 | a refused admission or a refused pop leaves the queued entries alone |
| `CaptureRuns.VideoStatusLaw` | client_processing/core/client_processing_queues.c:223-263 | each error of a video admission has exactly its cause, and a refusal only counts |
| `CaptureRuns.VideoPopLaw` | client_processing/core/client_processing_queues.c:301-337 | what a pop answers, which size it reports and what it hands out, for every queue and buffer |
| `CaptureRuns.AudioStatusLaw` | client_processing/core/client_processing_queues.c:354-416 | each error of an audio admission has exactly its cause |
| `CaptureRuns.AudioPopLaw` | client_processing/core/client_processing_queues.c:453-489 | the same for audio pops |
| `Lifecycle.StepInv` | client_processing/client_processing.c:139-321 | every interleaved step keeps: pending stores were decided before drain, and behind a cleared queue no callback can still store a frame |
| `Lifecycle.DrainedStaysEmpty` | client_processing/client_processing.c:303-321 | in every interleaving, once drain has returned, both queues are empty for good and nothing more is counted as admitted |
| `Lifecycle.NeverRunsAgain` | client_processing/client_processing.c:161-301 | no run leads from draining, stopped or failed back to running |
| `Lifecycle.RunsFromInit` | client_processing/client_processing.c:130-137 | every sequence of enabled steps from an initial state is a run: the invariant is no extra demand |
| `Lifecycle.VideoLinearizes` | client_processing/core/client_processing_queues.c:228-234 | every interleaving acts on the video queue like its critical sections made one after another |
| `Lifecycle.VideoInterleavingsFifo` | client_processing/core/client_processing_queues.c:210-337 | in every interleaving the video queue is a FIFO, and admitted_frames grows by the accepted frames plus those of the file path |
| `Lifecycle.AudioInterleavingsFifo` | client_processing/core/client_processing_queues.c:358-376 | the same for audio once the configuration is fixed |
| `LifecycleCalls.CallOutcome` | client_processing/client_processing.c:139-301 | for every lifecycle call, in every state and with every set of flags: the state and the flags it leaves, and that it touches nothing else |
| `LifecycleCalls.RunningReached` | client_processing/client_processing.c:161-199 | running is reached exactly by start from prepared or resume from paused, with no blocker set |
| `LifecycleCalls.FileRunOutcome` | client_processing/ffmpeg/client_processing_ffmpeg.c:418-475 | the file run starts exactly from prepared with a plan, is running while it lasts and ends stopped or failed |
| `LifecycleCalls.DrainOutcome` | client_processing/client_processing.c:303-321 | drain does nothing outside draining; there it empties both queues and stops |
| `LifecycleCalls.CallbacksLeaveState` | client_processing/core/client_processing_queues.c:210-490 | callbacks and consumers in between change neither state nor flags |
| `LifecycleCalls.RunningAdmits` | client_processing/core/client_processing_queues.c:228-286 | while running a proper frame that keeps bounds and order is stored |
| `LifecycleCalls.NotRunningRefuses` | client_processing/core/client_processing_queues.c:228-234 | in every other state it is turned away and counted |
| `LifecycleCalls.FirstFrameIsAdmitted` | client_processing/client_processing.c:139-173 | after prepare and start the first proper frame that fits is in the queue |
| `H264AnnexB.FindStartCodeAt` | codec/h264_codec.c:132-147 | the scanning loop finds the first start code that has a fourth byte to look at, and its length |
| `H264AnnexB.FindNal` | codec/h264_codec.c:149-164 | found or not, and the bounds, are those of the unit between two start codes |
| `H264AnnexB.ScanStream` | codec/h264_codec.c:132-164 | scanning a stream with start codes of either length gives its units back, all of them and in order, if and only if no unit contains what the scanner takes for a start code |
| `H264AnnexB.DirtyUnitExample` | codec/h264_codec.c:137-142 | a unit with a start code inside is split in two |
| `H264AnnexB.OverlookedExample` | codec/h264_codec.c:137-142 | the same start code in the last three bytes of the stream is overlooked |
| `H264Packetize.PlanCarriesAll` | codec/h264_codec.c:571-732 | the grouping puts every unit into one packet or one run of fragments, in order |
| `H264Unpack.PacketsCarryAll` | codec/h264_codec.c:571-732 | a reader that knows only RFC 6184 gets all units, none lost, repeated or changed, back from the payloads |
| `H264Packetize.JoiningIs` | codec/h264_codec.c:594-621 | the joining units are exactly the longest run of parameter sets that fits the budget |
| `H264Packetize.SizeStap` | codec/h264_codec.c:588-621 | the sizing pass computes the number of units, the end and the exact length of the STAP-A |
| `H264Packetize.WriteStap` | codec/h264_codec.c:623-662 | the writing pass produces exactly the STAP-A of the computed length |
| `H264Packetize.FragmentNal` | codec/h264_codec.c:674-729 | the loop emits the FU-A packets of the unit, or reports which limit they exceed |
| `H264Packetize.PacketsFit` | codec/h264_codec.c:666-723 | no packet exceeds the payload budget |
| `H264Packetize.MarkerOnLast` | codec/h264_codec.c:655-723 | the marker is on the last packet of a completely scanned frame and on no other, and on none if the frame ends with an aggregate |
| `H264Packetize.SliceEndsWhole` | codec/h264_codec.c:609-621 | a frame whose last unit is no parameter set never ends with an aggregate |
| `H264Packetize.MarkerMissingExample` | codec/h264_codec.c:655-662 | a frame of two parameter sets is one packet without marker |
| `H264Packetize.Packetize` | codec/h264_codec.c:551-735 | success means the scan reached the end and the packets are those of all units found, within the array; each error says what was exceeded or missing |
| `H264Depacketize.Depacketizer.FuCall` | codec/h264_codec.c:750-808 | state, status, output and completion of a FU-A call, every error path included |
| `H264Depacketize.Depacketizer.StapCall` | codec/h264_codec.c:810-854 | the same for the STAP-A loop |
| `H264Depacketize.Depacketizer.Feed` | codec/h264_codec.c:737-879 | the same for any payload, with the stale-length behaviour of the single-unit path |
| `H264Reception.StapReads` | codec/h264_codec.c:815-839 | the loop hands out any units, each behind a start code, and notes a slice of either kind among them |
| `H264Reception.StapLaw` | codec/h264_codec.c:810-854 | an aggregate of any units: output, completion exactly with a slice among them, the state left, and every refusal |
| `H264Reception.EveryAggregate` | codec/h264_codec.c:815-822 | every payload is units and a tail of that law, so it speaks of all aggregates |
| `H264Reception.FuLaw` | codec/h264_codec.c:750-808 | what a fragment does in every state: refused without a start, otherwise extends and hands out the frame, completed by the end bit; what lack of space leaves |
| `H264Reception.SingleLaw` | codec/h264_codec.c:860-878 | a single unit always completes, behind what the stored length says, and is refused only for lack of room |
| `H264Reception.RefusedPayloads` | codec/h264_codec.c:744-858 | empty payloads and unknown packet types are refused and change nothing |
| `H264RoundTrip.FuReads` | codec/h264_codec.c:689-728 | the fragments of a unit rebuild it behind what is pending, completion only at the last |
| `H264RoundTrip.PlanLaw` | codec/h264_codec.c:737-879 | from a rested reassembler exactly two groupings come out, one unit alone or an aggregate and one unit, unless stale bytes are in the way; the state left behind |
| `H264RoundTrip.SetsAndSlice` | codec/h264_codec.c:588-664 | no parameter set or several that fit one packet, and one slice, always make a readable frame |
| `H264RoundTrip.SingleSetCompletesEarly` | codec/h264_codec.c:623-673 | one parameter set in front of a slice is a packet of its own, and feeding that packet reports completion |
| `H264RoundTrip.SingleSetExample` | codec/h264_codec.c:623-673 | a legal frame of that kind, which is not readable |
| `H264RoundTrip.FrameLaw` | codec/h264_codec.c:551-879 | for frames of any units: a frame comes out byte for byte, completion at its last packet only, if and only if it is one unit, or one group and a unit, and no lone packet on stale bytes |
| `H264RoundTrip.BytesSurvive` | codec/h264_codec.c:551-879 | end to end: the bytes of a readable frame with clean units are scanned, sent and rebuilt into the same units, and the same bytes if all start codes were long |
| `H264RoundTrip.StreamLaw` | codec/h264_codec.c:804-872 | every frame of a stream comes out if and only if every frame is of that form and no lone packet follows a fragmented frame |
| `H264RoundTrip.StaleBytesExample` | codec/h264_codec.c:804-872 | a concrete stream of two legal frames whose second does not come out |
| `Vpx.Packetize` | codec/vpx_codec.c:354-479 | success gives the packets of the whole frame within the array; each error says what was exceeded or missing |
| `Vpx.PacketShape` | codec/vpx_codec.c:398-410 | packets are within the budget, exactly the first starts and exactly the last ends the frame and carries the marker |
| `Vpx.Depacketizer.Feed` | codec/vpx_codec.c:481-732 | state, status, output and completion of one call, every error path included |
| `Vpx.PacketTakenIn` | codec/vpx_codec.c:547-582 | one packet extends the rebuilt prefix by its own bytes |
| `Vpx.FrameRebuilt` | codec/vpx_codec.c:354-732 | from any prior state the packets rebuild the exact frame, never earlier than the last packet, VP9 completion only there |
| `VpxReception.Vp8Length` | codec/vpx_codec.c:496-541 | a VP8 descriptor ends where its optional fields end, whichever are there |
| `VpxReception.Vp9Length` | codec/vpx_codec.c:606-695 | the same for VP9, with picture id, layers, references and scalability structure |
| `VpxReception.DescriptorCutShort` | codec/vpx_codec.c:508-541 | a payload that breaks off inside its descriptor is refused and changes nothing |
| `VpxReception.FeedLaw` | codec/vpx_codec.c:543-732 | what becomes of the bytes behind a descriptor, in every state: start, continuation, end and every refusal |
| `ChunkedBody.HexReadsBack` | streamer/http_flv_streamer.c:195-195 | the size text is read back as the size |
| `ChunkedBody.DecodeBody` | streamer/http_flv_streamer.c:192-201 | the finished body decodes to the concatenation of its chunks |
| `ChunkedBody.ReadablePrefix` | streamer/http_flv_streamer.c:180-201 | any prefix of the body, cut anywhere, shows a prefix of the data |
| `ChunkedBody.ChunkIsNotTerminator` | streamer/http_flv_streamer.c:148-148 | a data chunk never looks like the zero-size terminator |
| `ChunkedBody.SendAll` | streamer/http_flv_streamer.c:180-190 | success puts all bytes on the wire, failure a prefix of them |
| `ChunkedBody.SendChunk` | streamer/http_flv_streamer.c:192-201 | success puts exactly one coded chunk on the wire, failure a prefix of it |
| `HttpFlv.Gather` | streamer/http_flv_streamer.c:142-155 | the chunk is the concatenation of the vectors, refused as too large exactly when empty or over the capacity |
| `HttpFlv.QueueKeeps` | streamer/http_flv_streamer.c:156-170 | every step keeps the byte counter exact, within the capacity, and the queue the un-popped part of what was enqueued |
| `HttpFlv.WireKeeps` | streamer/http_flv_streamer.c:253-284 | every step keeps the wire equal to the coded chunks taken, up to where the uploader stands |
| `HttpFlv.FlagKeeps` | streamer/http_flv_streamer.c:253-284 | every step keeps the meaning of the flags, and late chunks are exactly what is left once the loop is left |
| `HttpFlv.WakeKeeps` | streamer/http_flv_streamer.c:156-170 | no step lets a thread sleep whose wait condition is false, although a push signals only one |
| `HttpFlv.OneKindOfSleeper` | streamer/http_flv_streamer.c:167-167 | the uploader and any other thread are never asleep together |
| `HttpFlv.Reachable` | streamer/http_flv_streamer.c:398-460 | the invariant holds in every state of every run |
| `HttpFlv.QueueBoundedAndAwake` | streamer/http_flv_streamer.c:156-170 | in every reachable state the counter is exact and bounded, and no producer sleeps once the upload is done |
| `HttpFlv.UploaderCanMove` | streamer/http_flv_streamer.c:157-159 | while a producer must wait the uploader is awake, has not ended and has an enabled step of its own |
| `HttpFlv.SleepingProducerHasHelper` | streamer/http_flv_streamer.c:157-159 | the same in every reachable state with a sleeping producer |
| `HttpFlv.WokenInTime` | streamer/http_flv_streamer.c:258-283 | in every interleaving a producer sleeps through no more uploader steps than the unsent bytes of the current chunk and two |
| `HttpFlv.RoomInTime` | streamer/http_flv_streamer.c:258-283 | unless others keep pushing, a waiting producer has room, or learns that the upload is over, after a number of uploader steps bounded by what is queued |
| `HttpFlv.SuccessfulUpload` | streamer/http_flv_streamer.c:258-284 | with result 0 the body decodes to the chunks taken, which are all chunks ever queued if and only if none came after the last look |
| `HttpFlvCalls.BeginOutcome` | streamer/http_flv_streamer.c:142-155 | a call gets to the mutex exactly when its vectors together are not empty and can ever fit, as their concatenation |
| `HttpFlvCalls.EnterOutcome` | streamer/http_flv_streamer.c:156-170 | a turn under the mutex sleeps, queues or gives up, each exactly in its case |
| `HttpFlvCalls.PushIsGiven` | streamer/http_flv_streamer.c:143-167 | in every run an accepted call puts the concatenation of the vectors its caller gave behind what was queued |
| `HttpFlvCalls.EnqueuedIsAccepted` | streamer/http_flv_streamer.c:137-170 | in every run everything queued is the stream header and the vectors of the accepted calls, in order |
| `HttpFlvCalls.SuccessfulUploadOfCalls` | streamer/http_flv_streamer.c:258-284 | with result 0 the body decodes to the header and the vectors of all accepted calls if and only if none came too late |
| `HttpFlvCalls.BodyIsPrefixOfCalls` | streamer/http_flv_streamer.c:180-201 | in every run, at every moment, the data on the wire is a prefix of that |
| `HttpFlvCalls.ResultIsVerdict` | streamer/http_flv_streamer.c:243-284 | an upload that has ended reports the failure that ended it, or the server's answer |
| `HttpFlv.LateOnlyAfterClose` | streamer/http_flv_streamer.c:439-442 | a chunk can be late only when it is pushed after the owner has closed the upload |
| `HttpFlvCalls.OrderlyUploadIsComplete` | streamer/http_flv_streamer.c:430-460 | if no push is accepted after the close, result 0 means the body decodes to the header and the vectors of all accepted calls, in order |
| `HttpFlv.WireIsPrefix` | streamer/http_flv_streamer.c:258-284 | in every run, at every moment, the data on the wire is a prefix of what was enqueued |
| `HttpFlv.LateChunkIsLost` | streamer/http_flv_streamer.c:267-284 | a run that ends with 0 and has lost an accepted chunk |
| `Amf0.ReadItem` | common/codec_helpers/amf0.c:306-344 | on arbitrary bytes the cursor never moves back or past the end, and the entry keeps name and type |
| `Amf0.ReadObject` | common/codec_helpers/amf0.c:377-407 | on arbitrary bytes reading terminates, moves forward and stays within the end |
| `Amf0.ScanObject` | common/codec_helpers/amf0.c:377-407 | the loop computes the recursive reader, items stored before a failure included |
| `Amf0.ScanElements` | common/codec_helpers/amf0.c:352-367 | the same for strict arrays |
| `Amf0.ScanItems` | common/codec_helpers/amf0.c:409-423 | the same for the items of a message |
| `Amf0RoundTrip.ReadsValue` | common/codec_helpers/amf0.c:306-407 | for every tree the reader stops exactly behind the encoding |
| `Amf0Schema.ValueIsStored` | common/codec_helpers/amf0.c:227-300 | what the memory behind an entry holds afterwards, said by the value: number, flag, date, string with terminator or emptied, nested entries |
| `Amf0Schema.MessageIsStored` | common/codec_helpers/amf0.c:409-423 | a message of accepted values is read to its end and every entry holds its value |
| `Amf0Schema.MismatchRefused` | common/codec_helpers/amf0.c:413-417 | a value the entry does not accept ends the reading and changes nothing |
| `Amf0Schema.AcceptsIsTypeFits` | common/codec_helpers/amf0.c:346-350 | which values a declared type accepts: its own, and for an object also arrays and null |
| `Amf0RoundTrip.EntryFilled` | common/codec_helpers/amf0.c:393-401 | with distinct names an entry is filled from the one field it matches and by no other |
| `Amf0RoundTrip.EntryUntouched` | common/codec_helpers/amf0.c:393-401 | an entry no field matches is left as it was |
| `Amf0Schema.ObjectFillsSchema` | common/codec_helpers/amf0.c:377-407 | reading an object leaves in every entry the value of the first-matching field, at every level, leaves the others alone, and ends exactly behind the object |
| `Amf0Schema.ElementsAreStored` | common/codec_helpers/amf0.c:352-367 | a strict array is read element by element into the entries that accept them, no further than announced |
| `Amf0Schema.WireFormat` | common/codec_helpers/amf0.c:9-157 | the bytes of each kind of value, most significant first |
| `Amf0Schema.ShortValueFails` | common/codec_helpers/amf0.c:227-300 | a value without fields that breaks off anywhere is refused |
| `Amf0Schema.UnknownMarkerFails` | common/codec_helpers/amf0.c:340-343 | a byte that is no type marker is refused |
| `Amf0Schema.TruncatedObject` | common/codec_helpers/amf0.c:383-406 | an object that breaks off before or inside a name is refused if and only if it is not the one byte that looks like an end |
| `Amf0Schema.EndMistakenExample` | common/codec_helpers/amf0.c:404-405 | that byte, read as an object |
| `Amf0Writer.WriteText` | common/codec_helpers/amf0.c:129-147 | short and long strings are written exactly when they fit |
| `Amf0Writer.WriteNamedText` | common/codec_helpers/amf0.c:182-189 | a named string is written exactly when it fits, although the first check undercounts long values |
| `Amf0Writer.WriteDate` | common/codec_helpers/amf0.c:149-157 | the rewritten marker and the zone give a date |
| `Amf0Writer.WriteEcmaArray` | common/codec_helpers/amf0.c:86-92 | the head of an ECMA array |
| `Amf0Writer.WriteNamedBoolean` | common/codec_helpers/amf0.c:164-171 | a named boolean is written exactly when it fits |
| `Amf0Writer.WriteNamedDouble` | common/codec_helpers/amf0.c:173-180 | a named number is written exactly when it fits |
| `Amf0Writer.WriteTree` | common/codec_helpers/amf0.c:9-189 | the writers put together write the encoding of any tree, exactly when it fits |
| `RtmpMetadata.FieldSizeExact` | streamer/rtmp_streamer.c:63-71 | the precomputed field size is what the writers emit, or a refusal exactly for values over 32 bits |
| `RtmpMetadata.PayloadSize` | streamer/rtmp_streamer.c:74-100 | the precomputed payload size is the length of the message |
| `RtmpMetadata.FillMetadata` | streamer/rtmp_streamer.c:104-119 | the writer calls end exactly at the end of the buffer and leave the message |
| `RtmpMetadata.BuildMetadata` | streamer/rtmp_streamer.c:73-123 | the pointer mismatch never occurs; each refusal has exactly its cause, and otherwise the message is built |
| `RtmpMetadata.MetadataReadsBack` | streamer/rtmp_streamer.c:107-119 | a receiver reads the message to its exact end, finds the event name and fills any schema from title and author |
| `RtmpMetadata.TextsComeBack` | streamer/rtmp_streamer.c:109-118 | an entry for title or author that has the space holds exactly that text |
| `HevcArena.RemoveOk` | common/codec_helpers/hevc-annexbtomp4.c:184-195 | what removal asserts holds, and no pointer is shifted below the buffer |
| `HevcArena.ShiftReads` | common/codec_helpers/hevc-annexbtomp4.c:184-195 | after the gap is closed a shifted slot still reads its own bytes |
| `HevcArena.ReplacedTiles` | common/codec_helpers/hevc-annexbtomp4.c:208-214 | replacing moves a slot to the end and the slots still tile the buffer without overlap |
| `HevcArena.ReplacedContent` | common/codec_helpers/hevc-annexbtomp4.c:208-214 | every other slot reads what it read, the replaced one its new bytes |
| `HevcArena.DroppedContent` | common/codec_helpers/hevc-annexbtomp4.c:309-317 | removing a slot leaves the list without that entry |
| `HevcArena.Arena.Remove` | common/codec_helpers/hevc-annexbtomp4.c:184-195 | memmove and pointer walk have exactly the effect those lemmas speak of |
| `HevcArena.Arena.Update` | common/codec_helpers/hevc-annexbtomp4.c:197-216 | refines replacement in a list: unchanged, too big or replaced |
| `HevcArena.Arena.Append` | common/codec_helpers/hevc-annexbtomp4.c:218-237 | refines appending to a bounded list |
| `HevcArena.Arena.Search` | common/codec_helpers/hevc-annexbtomp4.c:250-255 | finds the first set of that type and ids |
| `HevcArena.Arena.Copy` | common/codec_helpers/hevc-annexbtomp4.c:239-302 | refines replace-or-append on the list |
| `HevcArena.Arena.ClearSei` | common/codec_helpers/hevc-annexbtomp4.c:304-320 | the walk that removes while it advances drops all SEI entries and no other |
| `HevcArena.Arena.UpdateWith` | common/codec_helpers/hevc-annexbtomp4.c:322-357 | refines the list update for every unit type |
| `HevcRuns.UpdateKeepsBounds` | common/codec_helpers/hevc-annexbtomp4.c:202-227 | slot and byte bounds hold after every update |
| `HevcRuns.CopyTakesEffect` | common/codec_helpers/hevc-annexbtomp4.c:239-302 | a refusal changes nothing; otherwise the new set is there and every set of another type or other ids still is |
| `HevcRuns.UpdateLaw` | common/codec_helpers/hevc-annexbtomp4.c:322-357 | what each type of unit does: the three kinds of sets are stored, refused exactly when too short or without room, the first after dropping SEI; SEI appended where kept; everything else ignored |
| `HevcRuns.UpdateTakesEffect` | common/codec_helpers/hevc-annexbtomp4.c:322-357 | after an accepted set a reader finds it, and every set it was not taken for |
| `HevcRuns.SeiDropped` | common/codec_helpers/hevc-annexbtomp4.c:304-320 | clearing drops exactly the SEI entries and keeps the order |
| `HevcRuns.RunKeepsBounds` | common/codec_helpers/hevc-annexbtomp4.c:322-357 | after any sequence of updates, however the ids are parsed, the bounds hold |
| `HevcIds.DecodeRbsp` | common/codec_helpers/hevc-annexbtomp4.c:34-52 | the loop decodes as far as the scratch space and the input limit allow |
| `HevcIds.RbspRoundTrip` | common/codec_helpers/hevc-annexbtomp4.c:34-52 | the decoder undoes emulation prevention on every unit of up to 256 bytes |
| `HevcIds.RbspStable` | common/codec_helpers/hevc-annexbtomp4.c:34-52 | with 256 bytes of scratch space the decoder never runs out of it |
| `HevcIds.IdsAreStable` | common/codec_helpers/hevc-annexbtomp4.c:107-182 | so the ids of every unit no longer depend on the space left, whatever the bit parser does |
| `HevcRuns.CopyKeepsDistinctIff` | common/codec_helpers/hevc-annexbtomp4.c:250-257 | storing a set keeps type and ids unique if and only if the entry found with the space left is the one found with enough space, or there is none |
| `HevcRuns.RunKeepsDistinct` | common/codec_helpers/hevc-annexbtomp4.c:322-357 | no sequence of updates that each start with 256 free bytes leaves two sets of one type and ids |
| `HevcRuns.ParserKeepsDistinct` | common/codec_helpers/hevc-annexbtomp4.c:107-182 | the same for the source's own decoder with any bit parser behind it |
| `HevcRuns.FullArenaConfusesSets` | common/codec_helpers/hevc-annexbtomp4.c:107-126 | four updates of a zeroed arena that end with two sets of one id, because the arena was full |
| `Av1Config.ScanLeb` | common/codec_helpers/aom-av1.c:95-107 | the shifting loop computes the little-endian base-128 value in 64 bits and how much it read |
| `Av1Config.LebReadsBack` | common/codec_helpers/aom-av1.c:519-525 | a written size is read back, and no byte more |
| `Av1Config.StoredAllSplits` | common/codec_helpers/aom-av1.c:144-185 | stored OBUs are split into themselves, in order, with their payloads |
| `Av1Config.BuildStoresKept` | common/codec_helpers/aom-av1.c:468-546 | a build that succeeds has stored exactly the sequence headers and metadata of the stream |
| `Av1Config.RecordIsStream` | common/codec_helpers/aom-av1.c:541-546 | the record of a successful build is itself an OBU stream: splitting it yields those OBUs, payloads unchanged |
| `Av1Streams.StreamSplits` | common/codec_helpers/aom-av1.c:144-185 | a stream of OBUs with sizes, the last one with or without, splits into exactly those OBUs, headers, extensions and payloads |
| `Av1Streams.KeptIs` | common/codec_helpers/aom-av1.c:507-514 | sequence headers and metadata are kept, in order, with the size bit set and nothing else changed |
| `Av1Streams.BuildSucceedsIff` | common/codec_helpers/aom-av1.c:478-537 | a build succeeds if and only if each kept OBU finds room and each sequence header parses |
| `Av1Streams.RecordOfStream` | common/codec_helpers/aom-av1.c:541-546 | so a record is made of a stream exactly then, and splits into the kept OBUs |
| `Av1Streams.LebSize` | common/codec_helpers/aom-av1.c:101-101 | every 64-bit size takes at most the ten bytes the reader looks at |
| `Av1Config.StoredFits` | common/codec_helpers/aom-av1.c:509-510 | the capacity check leaves room for what is then stored |
| `Av1Config.Record.Handler` | common/codec_helpers/aom-av1.c:468-538 | the in-place handler stores what the specification stores, with the same result |
| `Av1Config.Record.Init` | common/codec_helpers/aom-av1.c:541-546 | the in-place build computes the specified record and result |
| `MediaSource.LastSnoc` | core/media_source.c:192-204 | adding to a full window drops its oldest element, otherwise none |
| `MediaSource.HistoryIsGroup` | core/media_source.c:167-190 | for any order of added tracks and published frames the history is everything from the latest video keyframe on, or, before the first one, everything up to the first video track |
| `MediaSource.Source.ReplayIsGroup` | core/media_source.c:437-448 | what a newcomer is shown are the last frames of that group, beginning with the latest video keyframe whenever there was one and the group fits the ring |
| `MediaSource.Source.CellIsMod` | core/media_source.c:193-197 | the cell used is the remainder of the source |
| `MediaSource.Source.CacheFrame` | core/media_source.c:154-208 | the frame joins what was taken in, and the ring keeps holding the last frames of the history; a failed copy changes nothing |
| `MediaSource.Source.Publish` | core/media_source.c:379-406 | a frame of a known track is taken in by that track's type and delivered until a callback refuses; an unknown track or a failed copy changes nothing |
| `MediaSource.Source.AddTrack` | core/media_source.c:319-349 | ids stay distinct, the bound holds, an automatic id never collides, a refusal changes nothing |
| `MediaSource.AddAllIff` | server/server_runtime.c:289-305 | a list of tracks with ids of their own is added if and only if there is room, no id clashes and each can be copied |
| `MediaSource.AddAllAdds` | server/server_runtime.c:299-302 | they then stand behind the old ones in order, with their types and ids |
| `MediaSource.Source.Subscribe` | core/media_source.c:408-451 | the newcomer is shown the cache in order; a refused replay takes the entry back but never the id |
| `MediaSource.Source.Unsubscribe` | core/media_source.c:453-473 | removes exactly the entry of that id |
| `MediaSource.TokenInjective` | core/media_source.c:426-429 | namespace and local id can be read off a subscription id |
| `ServerRuntime.IdsAreUnique` | core/media_source.c:548-590 | over the whole life of a registry no subscription id is handed out twice, across removal and re-creation of keys |
| `ServerRuntime.RunKeeps` | core/media_source.c:408-608 | after every run the ids of a source are distinct and its own, and namespaces are distinct and never reused |
| `ServerRuntime.CloseTakesOnlyItsOwn` | server/server_runtime.c:253-268 | closing takes away the subscription with that id under that key and no other |
| `ServerRuntime.ClosingHarmsNobodyElse` | server/server_runtime.c:363-382 | after any run, closing a session with its own id, however stale, leaves every other session's subscription in place |
| `ServerRuntime.StaleCloseDoesNothing` | server/server_runtime.c:363-382 | closing a session whose source was replaced has no effect |
| `ServerRuntime.RunBalances` | server/server_runtime.c:168-268 | after every run created minus removed is the number of live subscriptions, failed replays and removed sources included |
| `ServerRuntime.CreateLaw` | core/media_source.c:562-589 | a source is there afterwards exactly when it was or could be made; a new one is empty, in a namespace never used before |
| `ServerRuntime.OpenLaw` | core/media_source.c:417-450 | a subscription succeeds exactly when the source is there, has room and an id left and the replay goes through, and is then live |
| `ServerRuntime.SubscriptionLives` | server/server_runtime.c:168-268 | a live subscription lives through every run in which it is not closed and its source not removed |
| `ServerRuntime.CloseEndsIt` | server/server_runtime.c:168-268 | closing ends it and removing the source ends and counts all of its subscriptions |
| `ServerRuntime.Server.OpenSource` | core/media_source.c:548-590 | finds or creates the source object, in a namespace of its own, with no effect on the other sources |
| `ServerRuntime.Server.DropSource` | server/server_runtime.c:168-190 | forgets the source and counts the subscriptions its own table still held |
| `ServerRuntime.Server.Attach` | server/server_runtime.c:229-251 | subscribes at the source object, replay and roll-back included, and counts exactly the successes; unique ids and the balance keep holding |
| `ServerRuntime.Server.Detach` | server/server_runtime.c:253-268 | removes from the source object's table and counts exactly the successes |
| `ServerRuntime.Server.Publish` | server/server_runtime.c:212-227 | only the source under that key takes the frame in |
| `ServerRuntime.Server.AddTracks` | server/server_runtime.c:289-305 | the table afterwards and the first refusal, for every list of tracks |
| `ServerRuntime.OpenSession` | server/server_runtime.c:289-361 | what opening does to the runtime, for both roles and every refusal, and what the session holds |
| `ServerRuntime.Session.Close` | server/server_runtime.c:363-382 | at most one effect, and none the second time |
| `RtspAdapter.RequestKeeps` | server/rtsp_server_adapter.c:419-633 | every request keeps: distinct channels in 0..255, an exact setup count, state, mode and handles in step, a chosen mode unchanged |
| `RtspAdapter.SessionKeeps` | server/rtsp_server_adapter.c:419-633 | the same for whole sessions |
| `RtspAdapter.PlayerGetsThrough` | server/rtsp_server_adapter.c:445-633 | DESCRIBE, SETUP of all tracks in order, with the mode given or implied, and PLAY always lead to PLAYING with all of them |
| `RtspAdapter.PublisherGetsThrough` | server/rtsp_server_adapter.c:419-548 | ANNOUNCE, SETUP of all tracks, with the mode given or implied, and RECORD always lead to RECORDING, and each channel then leads to its track |
| `RtspAdapter.WrongStateRefused` | server/rtsp_server_adapter.c:433-611 | a request in the wrong state is answered 455 and changes nothing |
| `RtspAdapter.WrongSessionRefused` | server/rtsp_server_adapter.c:461-607 | a foreign or missing session id is answered 454 and changes nothing |
| `RtspAdapter.SetupRefusals` | server/rtsp_server_adapter.c:484-493 | a SETUP in step fails exactly for want of a track, 404, or of channels, 461 |
| `RtspAdapter.TrackIsFound` | server/rtsp_server_adapter.c:224-243 | when a URI means no track, and what the track it means looks like |
| `RtspAdapter.DefaultChannels` | server/rtsp_server_adapter.c:261-266 | the channels of a request that leaves them out |
| `RtspAdapter.OpeningFails` | server/rtsp_server_adapter.c:524-629 | when publisher or player cannot be opened, that is the answer and nothing has changed |
| `RtspAdapter.DescriptionFails` | server/rtsp_server_adapter.c:436-581 | a description that cannot be had or read leaves the session at its start |
| `RtspAdapter.RouteExact` | server/rtsp_server_adapter.c:651-682 | an interleaved channel leads to its one owner: data to that track, control nowhere |
| `RtspAdapter.RouteRefused` | server/rtsp_server_adapter.c:666-681 | a channel nobody owns is refused |
| `RtspAdapter.FindSetupTrack` | server/rtsp_server_adapter.c:224-243 | the first unset track whose control ends the URI, or the only track |
| `RtspAdapter.FormatTransport` | server/rtsp_server_adapter.c:245-298 | the channels settled on, refused exactly when out of range, equal or taken |
| `RtspAdapter.ServeSetup` | server/rtsp_server_adapter.c:461-493 | the binding and the status code of a SETUP, every refusal included |
| `RtspAdapter.Interleaved` | server/rtsp_server_adapter.c:651-682 | the loop computes the route that RouteExact and RouteRefused speak of |
| `RtspAdapter.Adapter.Get` | server/rtsp_server_adapter.c:116-164 | finds the session's binding or takes a free slot, refused only when the table is full or no id could be made; no session ever has two, and no other slot changes |
| `RtspAdapter.Adapter.Handle` | server/rtsp_server_adapter.c:419-633 | only the binding of that session changes, by the state machine, with its status code; 453 exactly for a full table or a missing id |
| `RtspAdapter.Adapter.Teardown` | server/rtsp_server_adapter.c:635-649 | answers 200 and frees the binding exactly when the session id matches, else 454 |

## Left out

- StreamGraph (FrameStore, Fanout, Handoff, Executor): its source is not part of this model.
- Encoding and decoding through OpenH264, x265, libde265, libvpx, Opus and FFmpeg, file transcoding included; of the file path only its state changes and its share of admitted_frames are modelled.
- G.711 tables, the H.265 packetiser, HLS and DASH output, transports, TLS, URL parsing, HTTP response parsing, the codec, muxer and streamer registries, container adapters, speech and recognition wrappers: finite tables, file and socket I/O, or thin calls into other libraries, with no invariant of their own.
- FLV writing and muxing in front of the HTTP-FLV queue: a producer hands over arbitrary vectors.
- Weak memory ordering: interleavings are sequentially consistent and mutexes correct.
- Lifecycle calls racing with each other: the header asks callers to serialize them (client_processing/include/turbo_client_processing.h:137), and the model does.
- Destroying the capture object, snapshots and statistics calls: they only read or free.
- Null pointers and structure-size checks: the model has no such values; a missing destination buffer is modelled.
- Wrap-around of 64-bit counters (admitted, rejected, created, removed) and of the native track id counter.
- Allocation while a component itself is created; wherever a call checks for memory, the failure is a parameter of the call.
- H264RoundTrip.FrameLaw: parameter sets are at most 65535 bytes, the range of the 16-bit length field of a STAP-A (the cast in the source cuts longer ones), and units have the types RFC 6184 leaves to single units, 0 to 23.
- The packet buffers of the RTP packetisers as reusable memory: packets are values, so a caller that keeps fragments across calls is not modelled.
- Vpx: conformance of the VP9 scalability structure; its length computation is modelled, its meaning is not.
- Amf0.ReadItem: an entry whose memory is of another kind than its declared type is left alone, while the source would write through the pointer; the zone of a date cut short, which the source sets from an uninitialized variable, is left as it was; reserved type markers fail as in a build without assertions.
- HEVC parameter-set ids: the decoder is modelled, the bit parser behind it is an arbitrary function of type and decoded bytes (only the VPS id is spelled out); the scratch writes behind the used part of the buffer are not modelled, and the slot table is a sequence, not an array.
- Av1Config.Record.Init: pointer arithmetic beyond the address space and casts of sizes over 31 bits to int; the sequence-header bit parse is an arbitrary predicate of the payload.
- MediaSource.Source.Publish: callbacks answer but do not re-enter the source; the statistics counters of sources and runtime, apart from the subscription counts, are not modelled.
- The closed state of a source, which no function ever sets, and text limits of keys, tracks and session ids.
- ServerRuntime.Server.DropSource: a removed source is forgotten; what a caller might still do with a pointer to it is not modelled.
- RtspAdapter.Adapter.Handle: SDP parsing and writing and the opening of publisher and player appear as their outcome.
