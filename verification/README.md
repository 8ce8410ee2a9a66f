# Verified models of goav1

This project models, in Dafny, the parts of goav1 whose correctness is hardest to see from one function, and
proves what they promise for all inputs and all interleavings:

* **The frame-threaded decoder.** One goroutine submits frames in order into a ring of frame contexts; every
  frame's own goroutine runs its entropy pass and then its reconstruction, waiting on progress cells that other
  frames publish. The model is a step relation whose steps interleave freely. Beside it runs a shadow serial
  decoder; the invariant says that every handle already holds, or will hold, what the shadow wants it to hold.
  From it follow: threaded output equals serial output, surfaces are freed only when nobody uses them and only
  once, a blocked retirement always returns, and the tables and the pool are large enough. Decoding itself is a
  parameter (`Codec`): any total functions for the entropy pass, reconstruction and default contexts. The ring
  is then given as an imperative class whose methods are proved to be stretches of that step relation.
* **The session-description engine.** Printers and parsers of `a=rid` (RFC 8851 section 10), `a=simulcast`
  (RFC 8853 section 5.1) and AV1 `fmtp`, the fixed-point bits-per-pixel numbers, the order of capabilities, and
  the one-pass scan for an AV1 section. Each query is proved against a statement about the words of the
  description's lines, and each reader has a lemma that says exactly which texts it reads, and as what.
* **What decoding a frame is.** `FrameMeaning` spells out, for the serial decoder and for a frame in flight, which
  slots a frame reads, what it computes from them and which slots take what; agreement of the two alone would not.
* **Sizes and the code that spends them.** RTP packets (RFC 3550 section 5.3.1, RFC 8285 sections 4.2 and 4.3),
  the encoder's packets of several frames, the typed arena, the post filter's flat scratch, per-worker scratch
  windows, tile batches, incremental and batch decoding of streams, and the two paths of chroma conversion.

## What holds only under a condition

Nine promises hold only under a condition. For each, lemmas give the condition as an if and only if, and inputs
that fail.

1. *Output identical to serial decoding* (`decode_frame_thread.go:19-20`). A frame that starts from the default
   contexts claims a free table entry and waits on that entry's cell without resetting it
   (`decode_frame_thread.go:528`, `internal/av1/decoder/work.go:881-889`). If the last writer of the entry failed,
   the cell still says so, and an unrelated frame fails. `StaleContexts.SerialPrefixesIffStraight`: after
   every prefix of a run the slots and pictures are those of the serial decoder exactly if no submission claims such
   an entry to some effect; pictures alone can agree although a slot's saved contexts do not. As long as none does,
   every call, with failures or without, returns the serial decoder's pictures (`StaleContexts.StraightCall`).
   `StaleExample.FourthFrameFails` is a stream of four key frames in which the fourth fails though it decodes alone.
   For a stream that decodes without failure the promise holds outright (`FrameThreadOutput.ThreadedEqualsSerial`).
2. *A frame arrives up to delay-1 calls late* (`decode_frame_thread.go:18`, `decode_simple.go:487`). The ring of n
   contexts keeps a frame until the n-th following submission, unless a drain, or a retirement for want of a
   surface, makes it leave earlier. `FrameRing.Pipeline.Waits`: a submission is in flight if and only if it is not
   below the floor and fewer than n submissions have followed it; `FrameRing.Pipeline.DecodeNext`: the floor moves
   only with a serial frame, a barrier or a dry pool. So the picture of a call arrives by the (n-1)-th call after it
   if and only if n submissions, a drain or a dry pool follow by then. With one key frame to a call they do not:
   `DelayExample.OnePerCall` shows, for every n, that the frame is still in the ring after n-1 further calls and
   leaves with the n-th.
3. *Printing and reading an RID are inverse.* True exactly if no payload type contains a semicolon or spaces other
   than single blanks inside (`SdpRid.RoundTrip`); numbers qualify, "1;2" does not (`SdpRid.SemicolonLost`).
4. *Bits per pixel are read as what they denote.* The product is computed in 64 bits (`av1_sdp.go:1784`), so a huge
   integer part can wrap into the accepted range: exact if and only if the integer part is at most 48
   (`SdpBitsPerPixel.ReadExactly`); "182622766329724561.0" is read as 0.0016 (`SdpBitsPerPixel.WrappingAccepted`).
5. *Extension elements are read back as written.* One-byte framing accepts identifiers above 15 but writes only
   their low four bits (`rtp_header.go:109`, `rtp_header.go:445`): true exactly if every identifier is below 15
   (`RtpHeader.ElementsRoundTrip`, `RtpHeader.IdentifierLost`).
6. *Maxima of scratch needs stay exact.* Only if one need dominates the other, as with equal worker counts
   (`WorkerWindows.MaxExactIff`, `WorkerWindows.MixedWorkersFail`).
7. *A surface is always available.* In runs without failures, with every frame shown or kept and at most n + 1
   submissions per call (`FrameThreadPool.NeverDry`); in general, with nothing in flight, the pool is dry exactly if
   the slots and the pictures of the call name every surface (`FrameThreadPool.SurfaceAvailable`). A call that shows
   2 n + 1 frames after eight hidden ones have filled the slots gets there (`DryExample.PoolRunsDry`).
8. *The sized arena holds everything that is taken from it.* The totals are checked kind by kind, but the byte total
   is computed unchecked (`decode_simple.go:1140-1145`): the allocation covers the layout if and only if the byte
   total, rounded up, is a length (`Arena.BackedIff`). `ArenaPlans.SizedNotBacked` is a plan that passes the sizing
   and does not meet it.
9. *Frames are judged by the restrictions of an RID.* Samples per second are computed in 64 bits (`av1_sdp.go:522`,
   `av1_sdp.go:539`): a frame is judged by what the restrictions mean, whatever they are, if and only if its samples
   per second are a 64-bit number (`SdpLimits.FrameExactIff`). One with 2^64 of them fits every limit on them
   (`SdpLimits.ProductWraps`).

## Modules

`Values`, `Numbers`; `Handles`, `Progress`, `Surfaces` (tables, cells, pool and slots); `SerialDecode` (the reference
decoder), `FrameMeaning` (what it and a frame in flight do); `Lanes`, `FrameThread` (the step relation); `Ownership`,
`Refinement`, `SubmitStep`, `FrameSteps` (the invariant and its preservation); `FrameThreadTheorems`,
`FrameThreadOutput`, `FrameThreadPool`, `StaleContexts`, `StaleExample`, `DryExample` (results); `FrameCalls`,
`FrameDelay`, `FrameRing`, `DelayExample` (calls and the imperative ring). `Text`, `SdpBitsPerPixel`, `SdpRid`,
`SdpRidText`, `SdpSimulcast`, `SdpFmtp`, `SdpLimits`, `SdpScan`, `SdpLines`, `SdpQueries`, `SdpFrames` (session
descriptions). `RtpHeader`, `RtpWrap`, `FramePackets` (packets); `Arena`, `ArenaPlans`, `PostFilterBind`,
`WorkerWindows` (scratch); `TileBatches`, `StreamRuns`, `Chroma`. `dafny verify dfyconfig.toml` checks everything.

## Model

| member | source | states |
|---|---|---|
| FrameThreadOutput.ThreadedEqualsSerial | decode_frame_thread.go:14-25 | for every codec, context count and interleaving, if the stream decodes serially, bytes returned so far plus those collected by the current call are the serial pictures of the submissions that have left, in order; what serial decoding is, the FrameMeaning rows state |
| FrameThreadOutput.DrainedEqualsSerial | decode_frame_thread.go:752-785 | once drained and the call ended, exactly the serial pictures have been returned |
| FrameThreadOutput.CallOutput | decode_frame_thread.go:248-292 | within a call the pictures that leave are the outputs of the submissions that leave, once each, in submission order, and the recorded failure is the earliest |
| FrameThreadOutput.CleanRun | decode_frame_thread.go:491-556 | for a stream that decodes serially, the shadow of any interleaving is the serial decoder, and nothing in the tables fails |
| FrameThreadOutput.ReadyPixels | decode_frame_thread.go:280-292 | a queued picture's surface holds the bytes the shadow decoder wants, whatever was submitted since |
| FrameThreadOutput.LedgerRun | decode_frame_thread.go:752-802 | over any run of a decoding stream the calls together return each output once, in order |
| FrameMeaning.StartsFrom | internal/av1/decoder/work.go:843-889 | a frame starts from the contexts saved in the slot that its primary reference selects, if there are any, and otherwise from fresh ones |
| FrameMeaning.ReadsFrom | internal/av1/decoder/segmap.go:137-186 | it reads the segmentation map saved in that slot exactly if it predicts from one or does not update its own, and the shapes agree |
| FrameMeaning.ReadsReferences | internal/av1/decoder/frame_thread.go:166-180 | it reads the motion grids of its seven references if it projects motion, and their pixels if it is inter coded |
| FrameMeaning.PassComputes | decode_frame_thread.go:822-840 | the entropy pass runs exactly on a start and a map that did not fail |
| FrameMeaning.PassReads | decode_frame_thread.go:822-840 | its symbols come from these contexts, this map and these grids |
| FrameMeaning.PixelsCompute | internal/av1/decoder/frame_thread.go:380-440 | reconstruction takes the pass's symbols and the references' pixels; a failed pass fails pixels, contexts, grid and map |
| FrameMeaning.SlotsTake | internal/av1/decoder/surface.go:115-139 | slot by slot, what a refreshed slot takes of pixels, contexts, grid, map and its shape, and that other slots stay |
| FrameMeaning.ShowTakes | internal/av1/decoder/frame_thread.go:275-299 | slot by slot, what showing a picture again saves |
| FrameMeaning.SerialFrom | decode_frame_thread.go:14-25 | serial decoding starts from empty slots and goes from unit to unit with the codec's own default contexts and reconstruction |
| FrameMeaning.BoundToPrimary | internal/av1/decoder/work.go:843-889 | a submitted frame is bound to the entry that the slot of its primary reference holds |
| FrameMeaning.BoundToDefaults | internal/av1/decoder/work.go:843-889 | otherwise to an unreferenced entry that holds its default contexts, and no other entry changes |
| FrameMeaning.BoundMap | internal/av1/decoder/segmap.go:137-186 | the previous map bound is that slot's if shapes agree, and none otherwise |
| FrameMeaning.BoundGrids | internal/av1/decoder/frame_thread.go:166-180 | the grids bound are those of its seven references, if it projects motion |
| FrameMeaning.BoundSurfaces | internal/av1/decoder/frame_thread.go:184-270 | the surfaces it waits for are those of its seven references, if it is inter coded |
| FrameMeaning.PassPublishes | decode_frame_thread.go:822-840 | what an entropy pass in flight reads from the cells and publishes in its own |
| FrameMeaning.PixelsPublish | internal/av1/decoder/frame_thread.go:380-440 | what a reconstruction in flight reads and publishes |
| FrameMeaning.StartsEmpty | internal/av1/decoder/frame_thread.go:16-26 | the numbers of surfaces, context entries, motion grids and segment maps a decoder of n contexts starts with, all free |
| FrameMeaning.Accepts | internal/av1/decoder/frame_thread.go:184-270 | in a sound state a frame can be submitted exactly if it is well formed, a context and a surface are free, and its references have surfaces if it is inter coded |
| FrameMeaning.AcceptsShow | internal/av1/decoder/frame_thread.go:275-299 | and a picture can be shown again exactly if a context is free and its slot has a surface |
| StaleContexts.SerialPrefixesIffStraight | decode_frame_thread.go:14-25 | a run, with failures or without, has the slots and pictures of the serial decoder of its stream after every prefix if and only if no submission claims a stale failed context to some effect |
| StaleContexts.SerialIffStraight | decode_frame_thread.go:528-534 | every step of a run does what the serial decoder does from the same slots if and only if no submission claims a stale failed context to some effect |
| StaleContexts.SerialPrefixes | decode_frame_thread.go:14-25 | agreement with the serial decoder step by step is agreement with it on the whole stream after every prefix |
| StaleContexts.StraightCall | decode_frame_thread.go:248-292 | as long as none does, each call returns the serial decoder's pictures of the submissions that left, in order and with their bytes, and the earliest of their serial failures |
| StaleContexts.StaleOutcome | internal/av1/decoder/work.go:843-889 | starting from failed contexts leaves pixels and slots as serial decoding has them exactly if serial decoding gives no pixels either and no refreshed slot saves contexts that differ |
| StaleContexts.StepSerially | decode_frame_thread.go:822-829 | one step keeps the shadow equal to serial decoding exactly if it does not use a stale context that matters |
| StaleExample.FourthFrameFails | decode_frame_thread.go:528-534 | a reachable state in which submitting a key frame that decodes serially departs from serial decoding, because of an unrelated failed frame |
| FrameThreadTheorems.RunKeeps | decode_frame_thread.go:155-214 | every run keeps the whole invariant |
| FrameSteps.StepKeeps | decode_frame_thread.go:155-214 | every step of every goroutine keeps the invariant |
| SubmitStep.SubmitKeeps | internal/av1/decoder/frame_thread.go:184-270 | submission names the frame in slots and tables before it is decoded and keeps the invariant |
| FrameSteps.ParseKeeps | decode_frame_thread.go:822-840 | the entropy pass publishes contexts, motion and segments and keeps the invariant |
| FrameSteps.ParseIsWanted | decode_frame_thread.go:822-840 | an enabled entropy pass computes what the serial decoder computes for that frame |
| FrameSteps.FinishIsWanted | internal/av1/decoder/frame_thread.go:380-440 | an enabled reconstruction computes the serial pixels |
| FrameSteps.FinishKeeps | decode_frame_thread.go:155-214 | publishing pixels keeps the invariant |
| FrameSteps.RetireKeeps | decode_frame_thread.go:248-278 | retirement drops holds and releases surfaces and keeps the invariant |
| FrameSteps.ShowKeeps | internal/av1/decoder/frame_thread.go:275-299 | a picture shown again, with the key frame reset of all slots, keeps the invariant |
| FrameSteps.BeginKeeps | decode_simple.go:696-718 | the release of the previous batch keeps the invariant |
| FrameSteps.EndKeeps | decode_simple.go:655-690 | returning the batch keeps the invariant |
| FrameThreadTheorems.FreeIsUnused | decode_frame_thread.go:330-358 | in every reachable state a free surface is named by no slot, written, read, shown or held for release by no frame in flight, and not returned by this call |
| FrameThreadTheorems.ReleasedByDropper | decode_frame_thread.go:260-267 | a surface becomes free only by the retirement of the frame that dropped it or by the next call's pass over shown surfaces |
| FrameThreadTheorems.NoDoubleRelease | decode_simple.go:696-718 | release lists are duplicate free, pairwise disjoint and in use, so nothing is released twice |
| FrameThreadTheorems.OldestCanStep | decode_frame_thread.go:155-214 | the oldest unfinished frame can always step |
| FrameThreadTheorems.NoDeadlock | decode_frame_thread.go:248-257 | if no frame goroutine can step, every frame in flight has finished |
| FrameThreadTheorems.TailDecreases | decode_frame_thread.go:155-214 | every step of a frame goroutine uses up one of finitely many remaining steps |
| FrameThreadTheorems.DelayBound | decode_frame_thread.go:386-405 | in every interleaving at most n frames are in flight, they are the latest submissions in order, and one leaves by the n-th following submission |
| FrameRing.Pipeline.Waits | decode_frame_thread.go:386-405 | in the ring a submission is in flight if and only if it is not below the floor and fewer than n submissions have followed it |
| FrameDelay.InFlightIff | decode_frame_thread.go:386-405 | the same of any state of a run with as many frames in flight as the ring keeps |
| FrameDelay.EarlyNotDry | decode_simple.go:241-244 | the pool cannot run dry while a stream has submitted fewer units than there are surfaces |
| DelayExample.OnePerCall | decode_frame_thread.go:14-25 | for every n, with one key frame to a call and fewer frames than surfaces, a frame is in the ring exactly until n further calls have been made, and the bytes returned are the serial ones of the frames that have left |
| DryExample.PoolRunsDry | decode_frame_thread.go:398-405 | for every n a well-behaved run of a decoding stream reaches a state with nothing in flight and no free surface, in which nothing can be submitted |
| Refinement.HandlesSuffice | internal/av1/decoder/work.go:488-500 | a submission with a free context never fails to claim a context entry, motion grid or segment map |
| Handles.AlwaysFree | internal/av1/decoder/work.go:488-500 | a reference-counted table with more entries than references has a free one |
| Handles.PublishBalanced | internal/av1/decoder/segmap.go:93-104 | publishing a handle into slots keeps every count equal to the slots and holds that name it |
| Handles.PublishOthersBalanced | internal/av1/decoder/segmap.go:106-122 | so does the reset by a key frame shown again |
| Handles.AcquireBalanced | internal/av1/decoder/segmap.go:59-75 | the lowest unreferenced handle is claimed, and was named by nobody |
| Handles.ReleaseAllBalanced | internal/av1/decoder/frame_thread.go:301-325 | releasing a frame's holds leaves exact counts |
| Progress.OldestReads | internal/av1/threading/frame_thread.go:56-76 | everything the oldest frame waits for is final |
| Progress.ReadIsWanted | internal/av1/threading/frame_thread.go:45-76 | a final cell holds the wanted outcome |
| Progress.StartCoupled | decode_frame_thread.go:491-556 | resetting the cells of a new frame disturbs no reader of older frames |
| Surfaces.RefreshInPlace | internal/av1/decoder/surface.go:115-139 | the in-place slot update gives the refreshed slots and exactly the dropped surfaces |
| Surfaces.DroppedExactly | internal/av1/decoder/surface.go:187-202 | a surface is dropped exactly if a refreshed slot named it and no slot names it afterwards, and it is listed once |
| Surfaces.AcquiredValid | internal/av1/frame/pool.go:107-133 | acquiring takes a surface that was free and keeps free list and use flags consistent |
| Surfaces.ReleasedExceptValid | internal/av1/frame/pool.go:150-167 | releasing a list except held surfaces frees exactly the others |
| Lanes.BindContextsKept | internal/av1/decoder/work.go:843-900 | binding a frame's entropy contexts keeps the lane; which entry it binds, BoundToPrimary and BoundToDefaults state |
| Lanes.BindMotionKept | internal/av1/decoder/frame_thread.go:166-180 | binding its motion grids keeps the lane |
| Lanes.BindSegmentsKept | internal/av1/decoder/segmap.go:137-186 | binding its segment maps keeps the lane; which map it binds, BoundMap states |
| FrameThreadPool.StepExact | decode_frame_thread.go:248-278 | in well-behaved runs every surface in use keeps an owner: nothing leaks |
| FrameThreadPool.SurfaceAvailable | decode_frame_thread.go:398-405 | with the ring drained the pool is dry if and only if slots and ready pictures name every surface, which the first n + 1 submissions of a call exclude |
| FrameThreadPool.NeverDry | decode_simple.go:241-244 | so the pool of RefFrames + 1 + 2n surfaces never runs dry in a well-behaved run |
| Ownership.TrackedExactly | decode_simple.go:655-690 | the tracked surfaces are the distinct ones behind the returned batch when they fit |
| FrameCalls.AwaitOldest | decode_frame_thread.go:248-257 | waiting for the oldest frame ends, whichever goroutines step meanwhile |
| FrameCalls.CallMade | decode_frame_thread.go:752-802 | a call answers with the next pictures, or the earliest failure among the frames that left, and with the serial pictures of a decoding stream |
| FrameRing.Pipeline.constructor | decode_frame_thread.go:653-690 | a new ring is idle and in the initial state |
| FrameRing.Pipeline.Retire | decode_frame_thread.go:248-278 | an idle context is left alone; a busy one, the oldest, is retired and nothing else |
| FrameRing.Pipeline.RetireOldest | decode_frame_thread.go:370-380 | the scan finds and retires the oldest frame if and only if one is in flight |
| FrameRing.Pipeline.Drain | decode_frame_thread.go:361-366 | afterwards nothing is in flight; frames left oldest first |
| FrameRing.Pipeline.RunFrame | decode_frame_thread.go:386-405 | at most n in flight, a frame leaves early only if the pool has run dry, and refusal only for want of references or surfaces, the latter never in a well-behaved run |
| FrameRing.Pipeline.ShowAgain | decode_frame_thread.go:581-609 | a shown picture queues behind everything submitted before it |
| FrameRing.Pipeline.RunSerial | decoder_residual_event.go:601-604 | a serial event leaves the ring empty, adds its frame after everything submitted before it, and adds at most one picture |
| FrameRing.Pipeline.DecodeNext | decode_frame_thread.go:752-785 | a call over ring units, serial frames and barriers submits exactly their units in order and answers as CallMade states; frames leave early only by a drain or a dry pool; a refused unit drains the ring |
| FrameRing.Pipeline.Flush | decode_frame_thread.go:756-764 | the last call returns everything still in flight |
| SdpRid.RoundTrip | av1_sdp.go:651-684 | reading the printed attribute gives the value back, up to case of direction and trimming, exactly if its payload types are printable |
| SdpRid.ReadIsPrintable | av1_sdp.go:880-903 | whatever is read is valid, printable and normalized |
| SdpRid.Stable | av1_sdp.go:880-903 | what is read from any line is read again from its printed form |
| SdpRid.Append | av1_sdp.go:581-684 | the printer refuses exactly invalid values and otherwise appends the attribute with its parameters in order |
| SdpRid.ParseParams | av1_sdp.go:1624-1740 | the loop with its flags reads the parameters, refusing unknown and repeated ones |
| SdpRid.PartReads | av1_sdp.go:1645-1730 | each printed parameter sets exactly its own field |
| SdpRid.NamedLimit | av1_sdp.go:1660-1713 | each of the six limits is set by the parameter of its own name |
| SdpRidText.RidIff | av1_sdp.go:880-903 | an attribute is read as r exactly if its words are the identifier, the direction and parameters that spell r |
| SdpRidText.PartsIff | av1_sdp.go:1624-1740 | parameters are read exactly if each part is blank or one of the nine with a value it takes, and none is repeated; the rest is unset |
| SdpRid.SemicolonLost | av1_sdp.go:633-648 | a valid RID with a payload type that contains a semicolon is not read back |
| SdpRid.NumbersArePrintable | av1_sdp.go:1847-1863 | numeric payload types are valid and printable |
| SdpBitsPerPixel.ParseFormat | av1_sdp.go:1767-1802 | reading undoes printing for 1 to 480000 |
| SdpBitsPerPixel.ReadExactly | av1_sdp.go:1767-1789 | an accepted decimal is read as what it denotes if and only if its integer part is at most 48 |
| SdpBitsPerPixel.ParsedIff | av1_sdp.go:1767-1789 | exactly the texts of digits, a point and one to four digits are accepted whose value is in range modulo 2^64, and are read as that |
| SdpBitsPerPixel.WrapAroundAccepted | av1_sdp.go:1784-1788 | integer parts that wrap to 16 units are accepted as 16 |
| SdpBitsPerPixel.WrappingAccepted | av1_sdp.go:1784-1788 | "182622766329724561.0" is one, and does not denote it |
| SdpBitsPerPixel.Format | av1_sdp.go:1791-1802 | the padding and trimming loops give integer part, point and one to four digits |
| SdpBitsPerPixel.Parse | av1_sdp.go:1767-1789 | the reader with its padding loop computes the specified value |
| SdpSimulcast.RoundTrip | av1_sdp.go:711-726 | reading the printed attribute returns the same streams, alternatives, order and paused marks |
| SdpSimulcast.ReadIsValid | av1_sdp.go:907-944 | everything read is valid, repeats no identifier within a direction, and survives printing |
| SdpSimulcast.SimulcastIff | av1_sdp.go:907-944 | an attribute is read as v exactly if its words are one direction with streams or both in either order, the streams of v with semicolons between them, alternatives with commas, a tilde on paused ones, and no identifier twice in a direction |
| SdpSimulcast.Validate | av1_sdp.go:1536-1550 | the table of seen identifiers accepts exactly streams without empty ones, with valid identifiers and no repetition |
| SdpSimulcast.Append | av1_sdp.go:1552-1578 | the nested printing loops append the attribute, or refuse an invalid value |
| SdpSimulcast.Parse | av1_sdp.go:907-944 | the loop over directions with its flags reads what the specification reads |
| SdpSimulcast.ParseStreams | av1_sdp.go:1580-1622 | the loops over streams and alternatives, with the final check |
| SdpFmtp.RoundTrip | av1_sdp.go:312-328 | reading printed parameters gives them back |
| SdpFmtp.ForSequence | av1_sdp.go:238-264 | fails exactly for invalid sequences, and otherwise gives valid parameters of the sequence's profile whose level and tier are those of its most demanding operating point |
| SdpFmtp.AdvertisedIsAll | av1_sdp.go:286-308 | a receiver accepts the advertised parameters if and only if it accepts every operating point |
| SdpFmtp.AllowsIff | av1_sdp.go:282-298 | a receiver accepts a stream exactly if both are valid, the profile is not above, and the level is below, or equal with a tier not above |
| SdpFmtp.ValidIff | av1_sdp.go:266-280 | the valid profiles, levels and tiers |
| SdpFmtp.FmtpIff | av1_sdp.go:741-794 | a text gives parameters exactly if they are valid, each part is blank or has an equals sign, and each key is given once, by a number, or not at all, with its default; unknown keys do not matter |
| SdpFmtp.ParseFmtp | av1_sdp.go:741-794 | the loop with its flags ignores unknown parameters and refuses repeated ones |
| SdpScan.Scan | av1_sdp.go:1245-1337 | the one pass with one mutable section finds the first section that answers, hence whether any does |
| SdpScan.CheckSection | av1_sdp.go:1363-1384 | trying payload types in any table order gives the same answer |
| SdpQueries.Negotiates | av1_sdp.go:948-950 | true if and only if some line opens an active video section of acceptable direction, by the section's last direction line or the session's, with a payload type that a line of the section binds to AV1 and none breaks the format of; all in terms of the lines' words |
| SdpQueries.NegotiatesParams | av1_sdp.go:1121-1142 | the same, and the stream's profile, level and tier are within those of the last well-formed format line of the payload type, or the defaults |
| SdpQueries.AnswersIff | av1_sdp.go:1363-1384 | a section answers exactly if its lines say so, the direction being its own last or the session's |
| SdpQueries.FormatsAre | av1_sdp.go:1287-1304 | which payload types are bound to AV1 and which have malformed formats, from the lines |
| SdpQueries.ParamsAre | av1_sdp.go:1292-1304 | kept parameters are those of the last well-formed line, and the second parse never rejects them |
| SdpQueries.ParamsAnswers | av1_sdp.go:1121-1142 | a stream is accepted exactly if its profile, level and tier are within those of the last parameters of an available payload type, or the defaults |
| SdpQueries.NegotiatesFeedback | av1_sdp.go:1230-1243 | the same, and a line of the section declares the feedback for the payload type or for all |
| SdpQueries.HeaderExtensionId | av1_sdp.go:1208-1228 | the identifier is that of the first mapping, in the first section that answers, with the URI and an acceptable direction; it does not depend on table order |
| SdpQueries.RidsAre | av1_sdp.go:1316-1324 | an identifier is a duplicate exactly if two kept restrictions share it |
| SdpQueries.LookupIsUnique | av1_sdp.go:1498-1508 | a restriction is found exactly if it is the only one with its identifier and has the direction |
| SdpQueries.SimulcastsAre | av1_sdp.go:1325-1333 | seen and duplicate mean at least one and at least two simulcast lines |
| SdpQueries.CheckFrame | av1_sdp.go:1418-1450 | with simulcast one of its streams must permit the frame, otherwise one of the restrictions that apply, if any |
| SdpQueries.FrameIff | av1_sdp.go:1418-1508 | a frame is permitted by a restriction that binds it: for its direction, the only one with its identifier, for its payload type; named by a stream if there is simulcast for the direction, and if not, also if none binds it |
| SdpFrames.NegotiatesFrame | av1_sdp.go:1173-1184 | some section admits frames of AV1, in terms of the words of its restriction and simulcast lines |
| SdpFrames.NegotiatesSimulcast | av1_sdp.go:1186-1195 | some section's only simulcast line has a stream, of the direction or of either, that names a restriction that binds |
| SdpFrames.CheckSimulcast | av1_sdp.go:1452-1472 | the loops over the identifiers compute that of a gathered section |
| SdpFrames.KeptIff | av1_sdp.go:1510-1522 | a section keeps a restriction exactly if it names no payload types or one of the section's, without the others |
| SdpFrames.Judged | av1_sdp.go:1144-1156 | frames with 64-bit samples per second are judged by what the restrictions of the lines mean |
| SdpLimits.FrameExactIff | av1_sdp.go:511-543 | a frame is judged by what restrictions mean, whatever they are, if and only if its samples per second are a 64-bit number |
| SdpLimits.ProductWraps | av1_sdp.go:537-540 | a frame with 2^64 samples per second fits every limit on them |
| SdpLimits.EncodedExact | av1_sdp.go:545-577 | so is an encoded frame by its bitrate and bits per pixel, if its size and allowance are 64-bit numbers too |
| SdpLines.MediaLineReads | av1_sdp.go:1886-1905 | a media line of these words has this kind, is active exactly if its port has a character other than 0 before a slash, and has exactly the words from the fourth on as payload types |
| SdpLines.MediaIff | av1_sdp.go:1886-1905 | what any media line is read as |
| SdpLines.DirectionIff | av1_sdp.go:1907-1916 | exactly the four direction lines give a direction |
| SdpLines.RtpMapIff | av1_sdp.go:818-836 | a line binds a payload type exactly if it is a number up to 127 and the encoding is AV1 in either case, a slash and 90000 |
| SdpLines.FmtpLineIff | av1_sdp.go:796-815 | a line gives a payload type exactly the parameters that its other words give |
| SdpLines.FmtpBrokenIff | av1_sdp.go:1292-1297 | a line breaks the format of its first word exactly if that is no payload type or the others give no parameters |
| SdpLines.FeedbackLineIff | av1_sdp.go:1306-1311 | a line declares its second and later words for its first |
| SdpLines.ExtmapIff | av1_sdp.go:838-872 | a line maps an identifier from 1 to 255, with a direction after a slash or none, to its second word |
| SdpLines.RidLineIff | av1_sdp.go:1316-1324 | a line gives a restriction exactly if the text after its name spells it |
| SdpLines.SimulcastLineIff | av1_sdp.go:1325-1333 | so a simulcast line |
| Text.SplitJoin | av1_sdp.go:1580-1595 | splitting undoes joining |
| Text.JoinSplit | av1_sdp.go:1580-1595 | joining undoes splitting |
| Text.AtoiIff | av1_sdp.go:1742-1755 | the texts that are read as a number: digits, with a sign or none, within 64 bits |
| Text.TidyIff | av1_sdp.go:880-903 | a text survives being cut into words and joined by blanks exactly if its spaces are single inner blanks |
| RtpHeader.ElementsRoundTrip | rtp_header.go:92-176 | accepted extension elements are read back, padding or not, exactly if the framing carries every identifier |
| RtpHeader.KindIff | rtp_header.go:428-437 | 0xBEDE is one-byte framing and 0x1000 to 0x100F two-byte framing |
| RtpHeader.FitsIff | rtp_header.go:439-457 | which identifiers and lengths an element of each framing may have |
| RtpHeader.ElementOnWire | rtp_header.go:92-119 | the bytes of an element |
| RtpHeader.FixedOnWire | rtp_header.go:273-390 | the first twelve bytes of a header, field by field |
| RtpHeader.ExtensionOnWire | rtp_header.go:273-390 | an extension's profile, length in words, bytes and padding |
| RtpHeader.PaddingRoundTrip | rtp_header.go:392-410 | padding is left out when a packet is read |
| RtpHeader.IdentifierLost | rtp_header.go:107-110 | identifiers 17 to 30 in one-byte framing come back 16 lower |
| RtpHeader.SizeIsLength | rtp_header.go:73-87 | the size pass gives the written length and fails exactly if an element does not fit |
| RtpHeader.PutElements | rtp_header.go:92-119 | the writing loop puts exactly the elements' bytes and changes nothing after them |
| RtpHeader.HeaderRoundTrip | rtp_header.go:273-390 | reading undoes writing of a header with sources and extension, whatever follows |
| RtpHeader.PacketRoundTrip | rtp_header.go:392-410 | a written packet is read back with its payload |
| RtpWrap.Append | rtc_rtp_packet.go:149-222 | succeeds exactly for a feasible plan with room for the spans, appends exactly the packets and otherwise changes nothing; each span gives the place of its payload and descriptor, and the bytes there parse to the planned header and, if the framing carries their identifiers, to elements that hold the fixed bytes, the descriptor, and the counter of packet i as start + i modulo 2^16 before its suffix |
| RtpWrap.PlanDelivered | rtc_rtp_packet.go:149-222 | the same of the output of any plan, packet by packet |
| RtpWrap.SizePass | rtc_rtp_packet.go:105-141 | succeeds exactly if every packet has a size and the sum is a length; reports count, sum and maxima |
| RtpWrap.MeasuredMax | rtc_rtp_packet.go:130-137 | the reported maxima are attained bounds |
| RtpWrap.WrapsLength | rtc_rtp_packet.go:149-222 | bytes appended equal the size pass |
| RtpWrap.SpansTile | rtc_rtp_packet.go:209-219 | spans are contiguous, the last ends with the output, and sequence numbers advance modulo 2^16 |
| RtpWrap.PacketHeld | rtc_rtp_packet.go:209-219 | each span of the output holds its packet |
| RtpWrap.PacketEnds | rtc_rtp_packet.go:204-208 | a packet, taken by itself, ends with its source payload |
| RtpWrap.DescriptorHeld | rtc_rtp_packet.go:191-194 | within a packet the descriptor's bytes follow the first element's prefix |
| RtpWrap.PacketReadsBack | rtc_rtp_packet.go:195-208 | parsed, a packet has its sequence number, marker, identifiers, payload and extension |
| RtpWrap.ElementsReadBack | rtc_rtp_packet.go:579-709 | the elements parsed are the planned ones, counters advanced, exactly if the framing carries their identifiers |
| RtpWrap.ElementsAgree | rtc_rtp_packet.go:436-561 | the size pass over the configuration counts what the built elements take |
| RtpWrap.ValidConfigIff | rtc_rtp_packet.go:436-561 | which configurations are valid: payload type, number of extensions, different identifiers, and a profile with a framing |
| RtpWrap.SizeIff | rtc_rtp_packet.go:105-141 | a packet has a size exactly if its ranges lie in the buffers and its extensions fit the framing |
| RtpWrap.Build | rtc_rtp_packet.go:170-208 | elements, then header, then payload written in place give the packet |
| Arena.Pool.TakeAll | decode_simple.go:1176-1232 | takes are in range if totals fit, and get consecutive regions of their kinds |
| Arena.Counters.AddAll | decode_simple.go:1098-1126 | the checked additions succeed exactly if no request is negative and no total overflows |
| Arena.RegionsDisjoint | decode_simple.go:1140-1174 | different takes get regions that do not meet |
| Arena.RegionsAligned | decode_simple.go:1137-1174 | widest first, every region starts aligned for its kind |
| ArenaPlans.ConstructorExact | decode_simple.go:962-1000 | what the constructor takes is what was sized, kind by kind, with external output or without |
| ArenaPlans.PipelineExact | decode_frame_thread.go:653-729 | so for the arena of a pipeline with any number of contexts |
| ArenaPlans.AskedExactly | decode_simple.go:962-1000 | how many elements of each kind that is, as a formula of the plan |
| ArenaPlans.PipelineAsked | decode_frame_thread.go:653-729 | and for n contexts n times what one asks for |
| ArenaPlans.Build | decode_simple.go:290-350 | succeeds exactly if the sizing does, spends everything, and regions are aligned and disjoint; they lie inside the allocation exactly if the byte total, which is not checked, is a length |
| ArenaPlans.BuildPipeline | decode_frame_thread.go:653-729 | the same for the pipeline |
| ArenaPlans.SizedNotBacked | decode_simple.go:1140-1145 | a plan whose sizing succeeds and whose byte total overflows |
| Arena.BackedIff | decode_simple.go:1140-1146 | under wrap-around the allocated words cover the layout exactly if the byte total, rounded up, is a length |
| PostFilterBind.Bind | decoder_postfilter_bind.go:907-1030 | binding succeeds exactly if no size is negative and every arena has the reported length, and the parts then partition it |
| PostFilterBind.Cut | decoder_postfilter_bind.go:1232-1241 | cutting parts off the front succeeds exactly if none is negative and they fit together, each starting where the ones before it end |
| PostFilterBind.PartsAre | decoder_postfilter_bind.go:907-1030 | which part of each arena goes to which stage and plane |
| PostFilterBind.PartsDisjoint | decoder_postfilter_bind.go:1236-1241 | different parts do not meet and lie inside what was reported |
| PostFilterBind.ReportedIsSum | decoder_postfilter_bind.go:689-719 | the lengths reported plane by plane are the sums of the parts bound stage by stage |
| PostFilterBind.ReusableRunner.Apply | decoder_postfilter_bind.go:459-476 | scratch grows to the maximum when one arena is too small and never shrinks, so it dominates all that was served and binding always succeeds |
| WorkerWindows.FoldExact | decoder_residual_state.go:274-324 | with one worker count the flat length stays workers times batch through any fold of maxima |
| WorkerWindows.MaxExactIff | decoder_residual_state.go:313-324 | a maximum stays exact if and only if one need dominates the other |
| WorkerWindows.WindowFits | decoder_residual_state.go:857-887 | every worker's bind succeeds within the flat length |
| WorkerWindows.WindowsDisjoint | decoder_residual_state.go:857-887 | windows of different workers do not meet |
| WorkerWindows.MixedWorkersFail | decoder_residual_state.go:313-324 | mixed worker counts can leave the second worker without room |
| WorkerWindows.CheckedMulExact | decoder_residual_state.go:912-920 | the overflow check is exact |
| TileBatches.RunBatch | decoder_residual_state.go:732-788 | the loop over one shared storage decodes every tile from the initial context, up to the first failure |
| TileBatches.BatchingIsIrrelevant | decoder_residual_state.go:559-600 | two divisions of the same tiles among workers, with any interleavings that end: both fail or neither does, and if neither does the frames, with their retained contexts, and the totals are equal |
| TileBatches.EveryTileStartsFresh | decoder_residual_state.go:741-755 | whatever other workers do, a tile starts from the frame's initial context and not from what its worker's storage was left with |
| TileBatches.AloneIsBatch | decoder_residual_state.go:732-788 | a worker's steps over its batch come to what the batch loop computes |
| TileBatches.EndsWhole | decoder_residual_state.go:559-600 | a run without failure ends with every tile's pixels, the update tile's context, and the per-tile sum of statistics |
| TileBatches.FailureIsShared | decoder_residual_state.go:732-786 | the frame fails exactly if some tile fails, whichever worker has it |
| TileBatches.TotalPermutes | decoder_residual_state.go:693-704 | the total depends only on which tiles there are |
| StreamRuns.Runner.RunAll | decoder_residual_stream.go:603-620 | the batch form, a loop over a result of its own, ends with the result, decoder state and pictures in the slots that folding the inputs up to the first failure gives |
| StreamRuns.Runner.RunInto | decoder_residual_stream.go:591-601 | the incremental form adds one input to a result and its pictures behind those already there |
| StreamRuns.Runner.RunAllInto | decoder_residual_stream.go:622-635 | the incremental form over a list ends where the batch form ends |
| StreamRuns.Runner.RunAt | decoder_residual_stream.go:637-654 | an input that does not parse, or plans more pictures than there is room for, is not run; otherwise its pictures go to its slots and none before them changes |
| StreamRuns.FoldedCut | decoder_residual_stream.go:622-635 | a list taken in by parts gives what it gives in one call |
| StreamRuns.FoldedAddsUp | decoder_residual_stream.go:762-780 | events, steps, counters and pictures are sums over the inputs taken in, and the last step is that of the latest input that has one |
| StreamRuns.Plan | decoder_residual_stream.go:309-344 | planning fails exactly if some input does not parse, and otherwise adds up the planned pictures |
| StreamRuns.PlanSuffices | decoder_residual_event.go:564-566 | with the planned room no input is refused for want of room, at any prefix |
| FramePackets.AppendFrames | encoder.go:1074-1112 | succeeds exactly if tables and buffers suffice for the sizes of the sizing pass; then every span of the packet table finds its packet's payload and descriptor, spans tile both buffers across frames, and frame spans find their OBU and packets |
| FramePackets.AppendFrame | encoder.go:1252-1285 | appends a frame's packets and spans exactly if all of them fit, and otherwise returns the original buffers |
| FramePackets.TableFills | encoder.go:1274-1284 | the packet table tiles what was appended, and each packet is held where its span says |
| FramePackets.TotalAgrees | encoder.go:1047-1072 | the sizing pass over several frames gives the bytes that the frames take |
| FramePackets.SizeAgrees | encoder.go:1212-1235 | so does the sizing of one frame, with the structure attached to its first descriptor only |
| Chroma.PathsAgree | encode.go:2464-2518 | typed and generic conversion of an 8-bit plane give the same samples, the rounded means |
| Chroma.OrdersAgree | encode.go:2665-2712 | NV12, and NV21 with swapped pairs, give the same planes |
| Chroma.Convert | encode.go:2550-2598 | the nested loops fill the destination plane, and each sample is the mean of the two source samples above each other rounded up, that of four in a square rounded to the nearest, or the one at its place of the pair |
| Chroma.PlaneLengthExact | encode.go:2714-2721 | the overflow check of plane lengths is exact |
| Chroma.InBounds | encode.go:2714-2721 | the checked length bounds every access |

## Left out

- Progress by rows: cells are final or not; the early publication of contexts by the update tile and row-wise waits are not modelled.
- Film-grain pictures, display copies, worker lanes, test hooks and compact loop-filter state.
- Serial events are modelled as waiting for the ring and then submitting, decoding and retiring one frame; their immediate surface releases, sequence changes, reset and close are not.
- Errors inside a submission other than missing references, an invalid event or a dry pool; a call with a refused unit ends the modelled run.
- Leaks after failures: pictures lost with a reported failure and surfaces of failed frames are not shown to return; exact ownership is stated for runs without failures.
- Per-slot metadata such as order hints, and the contents of headers beyond what selects references, contexts, grids and maps.
- External output pools with super-resolution, and layered decoding.
- SDP text is ASCII; the printers of rtpmap, extmap and rtcp-fb, and error texts.
- SdpLimits.EncodedExact: one direction only, from 64-bit sizes and allowances; which larger ones are judged rightly depends on both.
- Payload encodings of the individual RTP header extensions: an extension is given by its bytes, or by a counter with constant suffix.
- RTP packet padding on the writing side; the reader's padding rule is modelled.
- High-bit-depth and native-format conversions, and reuse of destination scratch.
- Chroma.Convert: the destination is dense; luma copies are not modelled.
- TileBatches.RunBatch: one counter stands for all of them, without its 32-bit wrap-around; preparing a tile's request cannot fail.
- FrameRing.Pipeline.RunSerial: the serial frame is submitted, decoded and retired as steps of the ring; its immediate surface releases are not modelled.
- ArenaPlans.Build: what happens after an allocation that does not cover its regions is not modelled, only when that is so.
- Output slots that are absent (nil) and the size of preserved RTP fragments in stream results; payload runs differ from low-overhead runs only in how an input is parsed.
- How an encoder frame is cut into packets: packets and descriptors are given, and so are the two descriptor lengths.
