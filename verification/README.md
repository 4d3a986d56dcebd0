# Verified models of cdrecord and cdda2wav

The modules model the parts of the cdrtools 2.01 sources in which shared buffers, streams and bit formats have to be
exactly right, and prove what those parts are for:

- **The cdrecord FIFO** (`FifoLayout`, `Fifo`, `FifoInvariant`, `FifoSafety`, `FifoVerdict`, `FifoExact`,
  `TrackTransfer`, `FifoTransfer`). The filler and the drainer process are a state machine whose steps are single accesses
  to shared memory; every statement is about all interleavings. `TrackTransfer` pairs the producer and consumer loops over the
  tracks, and `FifoTransfer` puts these loops at the two ends of the FIFO.
- **The cdda2wav pipeline** (`RingBuffer`, `SyncSearch`, `Stitching`, `Resample`, `Ramps`, `SaveBuffer`, `Chunking`,
  `TrackCutting`). The ring of buffers with its two counting semaphores, the search that stitches overlapping reads, the
  streaming down-sampler that works in place, and the cutting of the stream into one file per track.
- **CD-Text** (`CdTextCrc`, `CdTextCorrection`, `CdTextPack`, `CdTextPacker`, `CdTextRoundTrip`, `CdTextReader`,
  `Subchannel`, `CdTextSubchannel`). The CRC and the single-bit correction, packing and reading back (pack format of Annex J of MMC-3),
  and recoding for the R-W subchannel.
- **The hashes** (`BitCount`, `BlockHash`, `ShaRounds`, `Sha1`, `Sha1Example`, `Md5Rounds`, `Md5`, `Md5Example`). The unravelled
  rounds, streaming against one-shot hashing, and the published digests of "abc".
- **Layout changes in place** (`TocCompaction`, `TocInPlace`, `Scatter`, `Base64`).

`Arith`, `Ring` and `Common` hold what several models share. Code that changes state is a class or a method over arrays,
proved against a function of its inputs or its old state; what the code promises is then proved about that function.

## Where the code does not keep what it promises

The lemma named with each of these gives the exact condition.

- A call of `faio_get_buf` beyond the last segment can return the last segment again, or an empty one, when there are as
  many segments as slots or one fewer: the final hand-over of the last slot (fifo.c:536-538) races with the drainer.
  `FifoExact.ExactlyWhenUnboundedCallsAreSafe`. Callers that ask for no more than was produced are safe always, and the
  loops of both processes do so (`FifoTransfer.PairedLoopsNeverFail`).
- `faio_get_buf` does not pass an empty segment of another descriptor, which its comment at fifo.c:711-715 provides for: it
  goes round for ever. `FifoVerdict.NeverPassesAnEmptySegment`, and `FifoVerdict.VerdictOnSegment` for when.
- The comment at fifo.c:711-716 names a known track size of 0 modulo the transfer size as the reason for an empty segment
  that nobody takes. Such a track has no empty segment, unless its file ends early, and none is ever left over.
  `TrackTransfer.LastSegmentIsEmptyExactly`.
- A track of known size 0 with fixed packets still has bytes of its file written. `TrackTransfer.MoreThanTheSizeExactly`.
- `SaveBuffer`'s short cut does not drop the low bits of 12-bit stereo output, which `emit_sample` would drop.
  `SaveBuffer.ShortCutExactlyForSixteenBits`.
- `sync_buffers` does not reach the last positions when the overlap is exactly half of the buffer
  (`SyncSearch.CompleteExactlyUnlessHalfOverlaps`), and takes an accidental occurrence when it lies nearer to the expected
  position than the true one (`Stitching.MatchContinues`).
- When all attempts of `do_read` fail, it marks the new part of the buffer with the overlap of an attempt that is not made
  (cdda2wav.c:1457-1459): one sector too late, or too early by up to nsectors - 2 sectors.
  `Stitching.GivingUpContinuesExactly`.
- `collect_tracks` patches in a wrong lead-out address from 100 minutes on: the minutes do not leave out what the `zero`
  byte stands for. `TocCompaction.LeadOutReadsBack`.
- `collect_tracks` drops a track that starts exactly at the lead-out, while one that starts behind it moves the lead-out
  and is kept. `TocCompaction.LeftOutExactlyAtTheLeadOut`.
- `packtext` runs (cdrecord.c:784) before the tracks get their numbers (cdrecord.c:1249-1251), and always numbers them
  from 1; on a disc that has tracks already, these are not the real numbers.
  `CdTextRoundTrip.NumbersAreRealExactlyOnAnEmptyDisc`.

## Model

| member | source | states |
|---|---|---|
| FifoLayout.InitFifo | sources/cdrtools-2.01/cdrecord/fifo.c:183-227 | the buffer area starts page-aligned inside the mapping, ends at its end, and still holds more than the requested FIFO size |
| FifoLayout.InitFaio | sources/cdrtools-2.01/cdrecord/fifo.c:379-419 | the two-pass sizing: when it succeeds, at least MIN_BUFFERS page-aligned segments lie pairwise disjoint, behind headers and statistics, inside the area, and each takes a whole transfer; there are as many as fit behind the headers of the first estimate, and nothing is wasted beyond page alignment; it gives up exactly when these are fewer than three |
| FifoLayout.Headers | sources/cdrtools-2.01/cdrecord/fifo.c:406-416 | the running address gives header i the address of segment i |
| Fifo.LayoutIsValid | sources/cdrtools-2.01/cdrecord/fifo.c:379-419 | the layout computed by init_faio satisfies everything the state machine assumes about memory |
| FifoInvariant.InitInv | sources/cdrtools-2.01/cdrecord/fifo.c:410-419 | the slot invariant holds when the two processes start |
| FifoInvariant.NextInv | sources/cdrtools-2.01/cdrecord/fifo.c:517-736 | every single shared-memory access of either process keeps the slot invariant, with owner published before users and puts |
| FifoInvariant.FillerStoreInv | sources/cdrtools-2.01/cdrecord/fifo.c:646-668 | whatever fill_buf stores while it runs, and what it finally stores, touches no segment that is published or lent |
| FifoInvariant.DrainerReleaseInv | sources/cdrtools-2.01/cdrecord/fifo.c:695-701 | handing the lent slot back keeps the invariant |
| FifoSafety.Refinement | sources/cdrtools-2.01/cdrecord/fifo.c:560-737 | in every interleaving the results of faio_get_buf (descriptor, length, errno, bytes) are a prefix of the segments filled; the slots between the two indices are reader-owned, the others writer-owned, at most the one at buf_idx faio-owned, and after the final hand-over of the last slot all others still are |
| FifoSafety.LentBufferStable | sources/cdrtools-2.01/cdrecord/fifo.c:656-737 | between two calls of faio_get_buf the bytes behind the returned pointer do not change, whatever the filler does |
| FifoSafety.NeverBothBlocked | sources/cdrtools-2.01/cdrecord/fifo.c:604-636 | while callers ask for no more segments than are produced, filler and drainer are never both waiting, also after the filler has exited |
| FifoSafety.AwaitEnds | sources/cdrtools-2.01/cdrecord/fifo.c:464-548 | while await_faio waits, each filler access brings the filler nearer its end, and when it can make none the last slot is reader-owned, even with fewer segments than slots |
| FifoSafety.AwaitStaysEnabled | sources/cdrtools-2.01/cdrecord/fifo.c:464-499 | once enabled, the wait of await_faio stays enabled |
| FifoVerdict.VerdictOnSegment | sources/cdrtools-2.01/cdrecord/fifo.c:707-726 | in every interleaving: a call takes the next segment the filler made if and only if it is for the descriptor asked for and fits, goes round again if and only if it is an empty one for another descriptor, and is fatal otherwise |
| FifoVerdict.NeverPassesAnEmptySegment | sources/cdrtools-2.01/cdrecord/fifo.c:695-713 | a call that goes round again never ends: it does not give the slot back, and finds the same segment again whatever the filler does |
| FifoExact.RepeatsLastSegment | sources/cdrtools-2.01/cdrecord/fifo.c:532-547 | a reachable run with as many segments as slots in which one call too many returns the last segment a second time |
| FifoExact.ReturnsEmptySlot | sources/cdrtools-2.01/cdrecord/fifo.c:532-547 | a reachable run with one segment fewer than slots in which one call too many, for descriptor -1, returns an empty segment |
| FifoExact.ExactlyWhenUnboundedCallsAreSafe | sources/cdrtools-2.01/cdrecord/fifo.c:517-548 | without a bound on the calls, every run returns a prefix of the filled segments if and only if the number of segments is neither the number of slots nor one less |
| TrackTransfer.SegmentQueue.GetBuf | sources/cdrtools-2.01/cdrecord/fifo.c:685-737 | a call succeeds exactly when the next segment has the descriptor asked for and fits the buffer; then it is that segment |
| TrackTransfer.SegmentQueue.ReadTrack | sources/cdrtools-2.01/cdrecord/fifo.c:560-602 | reading a track pushes exactly the segments of the specification Pushes |
| TrackTransfer.SegmentQueue.WritePacketData | sources/cdrtools-2.01/cdrecord/wm_packet.c:104-268 | the consumer takes exactly the segments pushed for its track, meets neither the descriptor mismatch nor the short-read error, and writes the track data followed only by the zeros that complete a record |
| TrackTransfer.WriteRecord | sources/cdrtools-2.01/cdrecord/wm_packet.c:143-213 | one round keeps: what is written is the file so far, padded only at its end |
| TrackTransfer.ReadAllTracks | sources/cdrtools-2.01/cdrecord/fifo.c:517-548 | the filler pushes the segments of all tracks in order |
| TrackTransfer.WriteAllTracks | sources/cdrtools-2.01/cdrecord/wm_packet.c:129-268 | for any list of tracks, of known or unknown size, the consumer takes every segment of the queue, asks for none beyond the last, and makes the calls of the specification AllRequests |
| TrackTransfer.RequestsFit | sources/cdrtools-2.01/cdrecord/wm_packet.c:129-268 | for each track the consumer makes as many calls as the producer pushes segments, each with the descriptor of its segment and room for it, also after the block size was reduced |
| FifoTransfer.PairedLoopsNeverFail | sources/cdrtools-2.01/cdrecord/fifo.c:685-737 | the loops against the FIFO itself: in every interleaving of filler and drainer no call of write_packet_data fails, and none goes round again without having advanced |
| TrackTransfer.LastSegmentIsEmptyExactly | sources/cdrtools-2.01/cdrecord/fifo.c:583-599 | the last segment of a track is empty if and only if its size is unknown, or the file does not reach it, or both are 0 |
| TrackTransfer.WholeTransfersNeedNoEmptySegment | sources/cdrtools-2.01/cdrecord/fifo.c:710-717 | a known size of two whole transfers makes two full segments and no empty one |
| TrackTransfer.MoreThanTheSizeExactly | sources/cdrtools-2.01/cdrecord/wm_packet.c:144-172 | more bytes of the file than its known size are written if and only if that size is 0, packets are fixed and the file is not empty |
| TrackTransfer.FileOfSizeZeroIsWritten | sources/cdrtools-2.01/cdrecord/wm_packet.c:144-172 | for such a track, the packet written begins with bytes of the file |
| TrackTransfer.PushesCoverTheFile | sources/cdrtools-2.01/cdrecord/fifo.c:583-599 | the segments of a track joined are exactly its part of the file |
| TrackTransfer.PushesShape | sources/cdrtools-2.01/cdrecord/fifo.c:583-599 | every segment has the descriptor of its track and fits the transfer size, and a short one is the last, or only followed by an empty one |
| Resample.StartIntegral | sources/cdrtools-2.01/cdda2wav/resample.c:831-915 | with an integral divider u, output k averages the u samples from k * u on |
| Resample.StartHalved | sources/cdrtools-2.01/cdda2wav/resample.c:831-915 | with a halved divider, outputs come in pairs for 2u + 1 samples: one at the start, one at u + 1 |
| Resample.CountIntegral | sources/cdrtools-2.01/cdda2wav/resample.c:831-937 | after n samples with integral divider u there are exactly floor(n / u) outputs |
| Resample.CountUnique | sources/cdrtools-2.01/cdda2wav/resample.c:831-937 | the number of outputs is a function of the number of inputs |
| Ramps.InterpolatesParabolas | sources/cdrtools-2.01/cdda2wav/resample.c:258-268 | interpolate is exact for parabolas: whatever parabola passes through the three values at 0, 1 and 2, the result is its value at 1/2 without the fraction |
| Ramps.TruncDivTruncates | sources/cdrtools-2.01/cdda2wav/resample.c:861-869 | the divisions cut off the fraction, also of negative sums |
| Ramps.OutputsOfRamp | sources/cdrtools-2.01/cdda2wav/resample.c:831-915 | on a ramp, every output of either kind is the value of the ramp at its point, without the fraction |
| Ramps.PointsApart | sources/cdrtools-2.01/cdda2wav/resample.c:831-915 | and the points of outputs in a row, interpolated and plain ones in turn, lie exactly the divider apart |
| Resample.OutputPrefix | sources/cdrtools-2.01/cdda2wav/resample.c:831-937 | an output that is determined does not change with later input |
| SaveBuffer.CollectPlain | sources/cdrtools-2.01/cdda2wav/resample.c:881-901 | accumulating one sample extends the sum over the window of an integral output |
| SaveBuffer.CollectInterpolated | sources/cdrtools-2.01/cdda2wav/resample.c:881-894 | accumulating one sample extends the three overlapping windows |
| SaveBuffer.EmitInterpolated | sources/cdrtools-2.01/cdda2wav/resample.c:859-880 | what is emitted for the first output of a pair is the interpolation of the three window sums |
| SaveBuffer.EmitMean | sources/cdrtools-2.01/cdda2wav/resample.c:866-880 | with an integral divider, or for the second output of a pair, the value emitted is the mean of its window, and the accumulators are ready for the next output |
| SaveBuffer.CollectLastButOne | sources/cdrtools-2.01/cdda2wav/resample.c:844-851 | the last but one sample of an interpolated output belongs to the second window, and to the third unless the divider is 1 |
| SaveBuffer.EncodedValues | sources/cdrtools-2.01/cdda2wav/resample.c:277-358 | what is read from the bytes of an output is the left and the right value, or their mean, in steps of the output format, rounded down, offset by 128 in 8-bit samples |
| SaveBuffer.Converter.Convert | sources/cdrtools-2.01/cdda2wav/resample.c:843-913 | one round of the four-state machine keeps: everything written is the specified outputs of everything read |
| SaveBuffer.Converter.Flush | sources/cdrtools-2.01/cdda2wav/resample.c:917-937 | a window that is complete at the end of a buffer is written at once |
| SaveBuffer.Converter.Save | sources/cdrtools-2.01/cdda2wav/resample.c:655-949 | SaveBuffer in place: the bytes written are the encoded outputs that continue the previous call, they never overtake unread input, and nothing behind the input changes |
| SaveBuffer.Converter.Forward | sources/cdrtools-2.01/cdda2wav/resample.c:699-719 | the short cut hands on the buffer as it is, which is what conversion would give |
| SaveBuffer.Converter.Transform | sources/cdrtools-2.01/cdda2wav/resample.c:831-915 | the loop over one buffer, in place |
| Chunking.CountHalved | sources/cdrtools-2.01/cdda2wav/resample.c:831-937 | after n samples with a halved divider there are exactly two outputs per complete group, and one more once u + 2 samples of the next group are there |
| Chunking.ConvertPieces | sources/cdrtools-2.01/cdda2wav/resample.c:655-949 | for any split of the stream over SaveBuffer calls the sample file holds the encoded outputs of the whole stream, a function of the joined input alone |
| SaveBuffer.ShortCutExactlyForSixteenBits | sources/cdrtools-2.01/cdda2wav/resample.c:699-719 | the unconverted short cut writes what emit_sample would write if and only if no bits are to be dropped |
| SyncSearch.SymMemMem | sources/cdrtools-2.01/cdda2wav/resample.c:98-127 | the occurrence returned is the nearest in the order 0, -1, +1, -2, ...; none is in range when nothing is returned; no compare leaves the buffer |
| SyncSearch.MemMem | sources/cdrtools-2.01/cdda2wav/resample.c:129-153 | the first occurrence, or there is none |
| SyncSearch.MemRMem | sources/cdrtools-2.01/cdda2wav/resample.c:155-179 | the last occurrence, or there is none |
| SyncSearch.SyncBuffers | sources/cdrtools-2.01/cdda2wav/resample.c:182-258 | a continuation is found if and only if the last 600 bytes of the old buffer occur below the reach of the search, and it is the nearest of all occurrences |
| SyncSearch.CompleteExactlyUnlessHalfOverlaps | sources/cdrtools-2.01/cdda2wav/resample.c:182-258 | the search misses no occurrence, whatever the buffers hold, if and only if the overlap is not exactly half of the buffer |
| Stitching.MatchContinues | sources/cdrtools-2.01/cdda2wav/resample.c:617-648 | wherever the drive positioned itself, joining at what sync_buffers finds is right if and only if the true continuation is within reach and the needle does not occur nearer to the expected position |
| Stitching.OneOccurrenceIsClear | sources/cdrtools-2.01/cdda2wav/resample.c:197-207 | one occurrence in the new buffer, the true one, is enough, whatever the rest of the disc holds |
| Stitching.SilenceHidesJitter | sources/cdrtools-2.01/cdda2wav/resample.c:197-207 | on equal bytes the join is right if and only if the drive was exactly where it was asked to be |
| Stitching.Reader.Synchronize | sources/cdrtools-2.01/cdda2wav/resample.c:617-648 | the first buffer, and every one without overlap, is taken whole; of the others sync_buffers finds the nearest occurrence within reach, or there is none |
| Stitching.Reader.ChangeOverlap | sources/cdrtools-2.01/cdda2wav/cdda2wav.c:1435-1446 | each retry continues the same sector, with one more sector of overlap or, after the maximum, with one |
| Stitching.Reader.DoRead | sources/cdrtools-2.01/cdda2wav/cdda2wav.c:1371-1486 | the first attempt that can be joined is kept, or the last of twelve when none can; each is for the sector that its overlap asks for; the next overlap, sector and offset |
| Stitching.OverlapsCycle | sources/cdrtools-2.01/cdda2wav/cdda2wav.c:1435-1446 | the overlap of attempt k has gone up by k, wrapping around within 1 to nsectors - 1 |
| Stitching.GivingUpContinuesExactly | sources/cdrtools-2.01/cdda2wav/cdda2wav.c:1435-1459 | with a drive that reads what it is asked to, the part kept after the last failure begins where the previous buffer ended if and only if there are two sectors in a buffer |
| Stitching.RightJoinsAreContiguous | sources/cdrtools-2.01/cdda2wav/cdda2wav.c:1371-1486 | buffers joined rightly are one contiguous stretch of the disc |
| Stitching.Record | sources/cdrtools-2.01/cdda2wav/cdda2wav.c:1371-1486 | whatever the drives deliver of the disc, each join is right if and only if its seam is clear; when all seams are, every buffer is joined and the recording is one contiguous stretch |
| RingBuffer.IncIsNextPlace | sources/cdrtools-2.01/cdda2wav/ringbuff.h:66-75 | INC on addresses is the step to the next place of the ring |
| RingBuffer.PlacesDiffer | sources/cdrtools-2.01/cdda2wav/ringbuff.h:66-75 | fewer than total_buffers steps apart, two places have different addresses |
| RingBuffer.NextInv | sources/cdrtools-2.01/cdda2wav/ringbuff.c:80-212 | every step of reader or writer keeps the ring invariant |
| RingBuffer.TokensConserved | sources/cdrtools-2.01/cdda2wav/semshm.c:127-175 | free buffers, defined buffers and tokens held always make up the total |
| RingBuffer.WriterGetsBurstsInOrder | sources/cdrtools-2.01/cdda2wav/ringbuff.c:144-212 | the writer gets every burst once, in order, from the oldest defined buffer, never the one being filled |
| RingBuffer.NeverBothBlocked | sources/cdrtools-2.01/cdda2wav/ringbuff.c:94-136 | reader and writer never wait for each other |
| RingBuffer.PreviousBufferHoldsPreviousBurst | sources/cdrtools-2.01/cdda2wav/ringbuff.c:80-92 | while a burst is read, the previous read buffer is another one and still holds the burst before |
| RingBuffer.SingleBufferFails | sources/cdrtools-2.01/cdda2wav/resample.c:188-194 | with one buffer and overlapping bursts there is a run in which the previous read buffer is the one being filled and its assertion fails |
| RingBuffer.AssertionsHoldExactly | sources/cdrtools-2.01/cdda2wav/ringbuff.c:80-212 | no assertion fails in any run if and only if there are at least two buffers or the bursts do not overlap |
| RingBuffer.ChooseBuffers | sources/cdrtools-2.01/cdda2wav/cdda2wav.c:2500-2514 | the ring set up after the option checks never fails an assertion, whatever the user asked for, and a buffer is added only where without it one would fail |
| TrackCutting.TrackWriter.DoWrite | sources/cdrtools-2.01/cdda2wav/cdda2wav.c:1539-1756 | of a buffer, exactly the samples still wanted are saved, once and in order, and the files stay cut at the track starts |
| TrackCutting.TrackWriter.SavePart | sources/cdrtools-2.01/cdda2wav/cdda2wav.c:1555-1616 | before and after a part the position is not beyond the end of the track, so that left_in_track is never negative and no part crosses a track boundary |
| TrackCutting.TrackWriter.NextTrack | sources/cdrtools-2.01/cdda2wav/cdda2wav.c:1604-1748 | at each close nSamplesDoneInTrack is the count of the file |
| TrackCutting.TrackWriter.MoveUp | sources/cdrtools-2.01/cdda2wav/cdda2wav.c:1596-1602 | the residual samples are moved to where the next round reads |
| TrackCutting.FilesHoldTheStream | sources/cdrtools-2.01/cdda2wav/cdda2wav.c:1555-1751 | the closed files joined are the stream up to the current track: nothing lost, repeated or moved |
| TrackCutting.EverySampleIsInItsTrack | sources/cdrtools-2.01/cdda2wav/cdda2wav.c:1555-1751 | every requested sample is in the file of the track whose start and successor enclose it, at its place there |
| TrackCutting.ForkedWrite | sources/cdrtools-2.01/cdda2wav/cdda2wav.c:1799-1823 | over any sequence of buffers, each with its own offset, the files hold exactly the requested samples |
| CdTextCrc.TableIsEightSteps | sources/cdrtools-2.01/cdda2wav/cd_text.c:12-46 | each of the 256 table entries is eight steps of bitwise division |
| CdTextCrc.UpdateIsEightSteps | sources/cdrtools-2.01/cdda2wav/cd_text.c:54-64 | one table-driven update is eight steps of bitwise division |
| CdTextCrc.CrcIsLongDivision | sources/cdrtools-2.01/cdda2wav/cd_text.c:54-73 | the table-driven CRC is the remainder of dividing the message and 16 zero bits by x^16 + x^12 + x^5 + 1 |
| CdTextCrc.CrcLinear | sources/cdrtools-2.01/cdda2wav/cd_text.c:54-64 | the CRC is linear in register and message |
| CdTextCrc.CrcOfCodeword | sources/cdrtools-2.01/cdda2wav/cd_text.c:54-73 | a message followed by its CRC has CRC 0 |
| CdTextCorrection.UpdCrc | sources/cdrtools-2.01/cdda2wav/cd_text.c:54-64 | the loop over the bytes computes the specified CRC |
| CdTextCorrection.CrcOfFlip | sources/cdrtools-2.01/cdda2wav/cd_text.c:88-106 | inverting one bit adds the syndrome of its position |
| CdTextCorrection.SyndromesDistinct | sources/cdrtools-2.01/cdda2wav/cd_text.c:88-106 | no two of the 144 single-bit errors have the same syndrome |
| CdTextCorrection.OnlyOneRepair | sources/cdrtools-2.01/cdda2wav/cd_text.c:88-147 | a correct pack with one bit inverted is not correct, and inverting one bit makes it correct exactly when it is that bit |
| CdTextCorrection.FlipErrorCorr | sources/cdrtools-2.01/cdda2wav/cd_text.c:88-106 | one bit is left inverted exactly when that makes the CRC 0, else the 18 bytes are as before |
| CdTextCorrection.CdTextCrcOk | sources/cdrtools-2.01/cdda2wav/cd_text.c:111-147 | accepts exactly the packs at most one bit from a correct one; a pack with one wrong bit is restored, a failing or correct one is unchanged |
| CdTextCorrection.FilledPackIsCorrect | sources/cdrtools-2.01/cdrecord/cdtext.c:443-447 | the complemented CRC in the last two bytes makes a correct pack |
| CdTextPack.FilledPackPasses | sources/cdrtools-2.01/cdrecord/cdtext.c:443-447 | a pack completed by fillcrc is accepted unchanged by cdtext_crc_ok |
| CdTextPacker.TxtArg.FillPacks | sources/cdrtools-2.01/cdrecord/cdtext.c:410-452 | a string is appended to the stream of its type, finishing the packs it fills; sequence number and pack count go up by the packs opened |
| CdTextPacker.TxtArg.FillOnePack | sources/cdrtools-2.01/cdrecord/cdtext.c:425-448 | one round puts as much of the string as fits into the open pack |
| CdTextPacker.TxtArg.StartPack | sources/cdrtools-2.01/cdrecord/cdtext.c:426-437 | the header of a new pack |
| CdTextPacker.TxtArg.FillupPack | sources/cdrtools-2.01/cdrecord/cdtext.c:398-408 | the packs are those of the stream, the last filled up with NULs |
| CdTextPacker.AnyText | sources/cdrtools-2.01/cdrecord/cdtext.c:379-396 | whether any track has a nonempty string of a type |
| CdTextPacker.PackType | sources/cdrtools-2.01/cdrecord/cdtext.c:338-352 | the packs of one type are those of its strings, numbered on from the packs before |
| CdTextPacker.PackSizes | sources/cdrtools-2.01/cdrecord/cdtext.c:355-362 | the three size packs |
| CdTextPacker.PackText | sources/cdrtools-2.01/cdrecord/cdtext.c:298-364 | the packs of all types and the sizes, as specified, for any texts that fit 256 packs |
| CdTextRoundTrip.TextReadsBack | sources/cdrtools-2.01/cdrecord/cdtext.c:298-364 | selecting the packs of a type, joining their text fields and splitting at NULs returns exactly the strings of that type and behind them only empty ones, of at most eleven filling NULs |
| CdTextRoundTrip.NumbersAreRealExactlyOnAnEmptyDisc | sources/cdrtools-2.01/cdrecord/cdtext.c:313-315 | the track numbers in packs and sizes are those the tracks get on the disc if and only if the number read from its TOC is 0 |
| CdTextRoundTrip.PacksOfOneType | sources/cdrtools-2.01/cdrecord/cdtext.c:332-353 | selecting by pack type gives the packs made for that type |
| CdTextRoundTrip.PacksAreComplete | sources/cdrtools-2.01/cdrecord/cdtext.c:426-447 | pack k carries sequence number k and a valid CRC |
| CdTextRoundTrip.SizesAreRight | sources/cdrtools-2.01/cdrecord/cdtext.c:310-362 | the size packs give the number of packs of every type, the first and last track, and the number of the very last pack |
| CdTextRoundTrip.HeaderNamesFirstCharacter | sources/cdrtools-2.01/cdrecord/cdtext.c:426-437 | each header gives the string index and min(15, characters of that string already placed) of its first character |
| Subchannel.EightSixEight | sources/cdrtools-2.01/cdrecord/cdtext.c:524-570 | six2eight undoes eight2six on any three bytes, and eight2six gives 6-bit values |
| Subchannel.ValuesHoldTheBits | sources/cdrtools-2.01/cdrecord/cdtext.c:524-545 | value k of a group holds bits 6k to 6k + 5 of its 24 bits, the most significant first |
| Subchannel.SixEightSix | sources/cdrtools-2.01/cdrecord/cdtext.c:524-570 | eight2six undoes six2eight on any four 6-bit values |
| Subchannel.Eight2Six | sources/cdrtools-2.01/cdrecord/cdtext.c:527-545 | the byte-wise code computes the group function and writes nothing else |
| Subchannel.Six2Eight | sources/cdrtools-2.01/cdrecord/cdtext.c:550-570 | the byte-wise code computes the group function and writes nothing else |
| Subchannel.DecodedRecoded | sources/cdrtools-2.01/cdrecord/cdtext.c:524-570 | decoding undoes recoding for any whole number of groups |
| Subchannel.RecodedDecoded | sources/cdrtools-2.01/cdrecord/cdtext.c:524-570 | recoding undoes decoding for any 6-bit values |
| Subchannel.TimesFillSectors | sources/cdrtools-2.01/cdrecord/cdtext.c:222-230 | 1, 2 or 4 repetitions fill whole sectors of 96 values, and fewer do not |
| Subchannel.NoGroupStraddles | sources/cdrtools-2.01/cdrecord/cdtext.c:235-239 | no group of three bytes crosses the wrap at len |
| Subchannel.SetupTextData | sources/cdrtools-2.01/cdrecord/cdtext.c:207-241 | the buffer sent is the recoding of the repeated packs, and its length is a multiple of 96 |
| Subchannel.SubchannelDecodes | sources/cdrtools-2.01/cdrecord/cdtext.c:207-241 | decoding what is sent gives whole repetitions of the packs |
| CdTextReader.PackInMemory | sources/cdrtools-2.01/cdrecord/cdtext.c:61-68 | cutting the memory into pieces of 18 bytes gives the packs, with type and text where struct textpack has them |
| CdTextReader.BytesReadBack | sources/cdrtools-2.01/cdrecord/cdtext.c:298-364 | a reader of the bytes, who cuts, selects by first byte, joins bytes 4 to 15 and splits at NULs, gets exactly the strings of every type; bytes 1 and 3 name string and position of the first character, byte 2 numbers the packs, the CRCs are valid, and the size packs are right |
| CdTextSubchannel.PackIntoSubchannel | sources/cdrtools-2.01/cdrecord/cdtext.c:298-364 | from the strings to the subchannel: the values sent fill whole sectors and decode to whole repetitions of bytes from which that reader gets all strings back |
| BlockHash.AbsorbAppend | sources/cdrtools-2.01/cdda2wav/sha_func.c:235-276 | absorbing a + b is absorbing b, behind the unfinished block of a, from the state after a |
| BlockHash.PaddedIsWholeBlocks | sources/cdrtools-2.01/cdda2wav/sha_func.c:278-310 | the padded message is a whole number of blocks |
| ShaRounds.Chooses | sources/cdrtools-2.01/cdda2wav/sha_func.c:51-51 | f1 takes the bits of y where x has ones and those of z elsewhere |
| ShaRounds.Parities | sources/cdrtools-2.01/cdda2wav/sha_func.c:52-54 | f2 and f4 are parities |
| ShaRounds.Majority | sources/cdrtools-2.01/cdda2wav/sha_func.c:53-53 | f3 is the majority |
| ShaRounds.RotationBy5 | sources/cdrtools-2.01/cdda2wav/sha_func.c:67-69 | the five upper bits come to the lower end, the others move up |
| Sha1Example.DigestOfAbc | sources/cdrtools-2.01/cdda2wav/sha_func.c:101-326 | the digest of "abc" is the one published in section 7.3 of RFC 3174; every constant, rotation and word of the schedule goes into it |
| Md5Example.DigestOfAbc | sources/cdrtools-2.01/cdda2wav/md5c.c:104-283 | the digest of "abc" is the one published in appendix A.5 of RFC 1321; every constant, rotation and choice of a word goes into it |
| ShaRounds.FA | sources/cdrtools-2.01/cdda2wav/sha_func.c:73-80 | an unravelled round, with its register renaming, is one generic round |
| ShaRounds.FT | sources/cdrtools-2.01/cdda2wav/sha_func.c:73-95 | the sixth round closes the cycle of register names |
| ShaRounds.Rounds1 | sources/cdrtools-2.01/cdda2wav/sha_func.c:177-178 | twenty unravelled rounds are twenty generic ones |
| ShaRounds.Rounds4 | sources/cdrtools-2.01/cdda2wav/sha_func.c:183-184 | the last twenty rounds leave the state in E, T, A, B, C |
| ShaRounds.ComputeSchedule | sources/cdrtools-2.01/cdda2wav/sha_func.c:108-169 | the 80 words of the schedule |
| ShaRounds.Transform | sources/cdrtools-2.01/cdda2wav/sha_func.c:101-189 | sha_transform with unravelled rounds and the additions from E, T, A, B, C is the generic block function |
| ShaRounds.TransformPlain | sources/cdrtools-2.01/cdda2wav/sha_func.c:101-211 | the plain 80-iteration loop is the same block function |
| Sha1.ShaInfo.Update | sources/cdrtools-2.01/cdda2wav/sha_func.c:235-276 | the context afterwards stands for the message with the new bytes appended, the bit count modulo 2^64 |
| Sha1.ShaInfo.Final | sources/cdrtools-2.01/cdda2wav/sha_func.c:278-326 | the digest of the padded message hashed so far (sections 4 and 6.1 of RFC 3174) |
| Sha1.LengthReadsBack | sources/cdrtools-2.01/cdda2wav/sha_func.c:278-326 | the eight length bytes make the number of bits modulo 2^64, the most significant first |
| Sha1.DigestOfPieces | sources/cdrtools-2.01/cdda2wav/sha_func.c:235-326 | however the message is cut into updates, the result is its one-shot digest |
| Md5Rounds.OnA | sources/cdrtools-2.01/cdda2wav/md5c.c:83-102 | a step macro on register a is one step of the generic loop |
| Md5Rounds.Transform | sources/cdrtools-2.01/cdda2wav/md5c.c:192-283 | the 64 written-out steps are the generic block function |
| Md5Rounds.Decode | sources/cdrtools-2.01/cdda2wav/md5c.c:303-316 | the little-endian words of a block |
| Md5.EncodeDecode | sources/cdrtools-2.01/cdda2wav/md5c.c:285-316 | Decode undoes Encode on every word |
| Md5.Md5Ctx.Update | sources/cdrtools-2.01/cdda2wav/md5c.c:122-159 | the context afterwards stands for the message with the new bytes appended, the two-word bit count modulo 2^64 |
| Md5.Md5Ctx.Final | sources/cdrtools-2.01/cdda2wav/md5c.c:164-188 | the digest of the padded message hashed so far (sections 3.1 to 3.4 of RFC 1321) |
| Md5.LengthReadsBack | sources/cdrtools-2.01/cdda2wav/md5c.c:164-188 | the eight length bytes make the number of bits modulo 2^64, the least significant first |
| Md5.DigestOfPieces | sources/cdrtools-2.01/cdda2wav/md5c.c:122-188 | however the message is cut into updates, the result is its one-shot digest |
| TocCompaction.KeptInOrder | sources/cdrtools-2.01/cdda2wav/scsi_cmds.c:622-639 | the start addresses of the kept entries do not decrease |
| TocCompaction.KeptAreTheAccepted | sources/cdrtools-2.01/cdda2wav/scsi_cmds.c:439-642 | exactly the accepted entries are kept, each once, in their order, decoded |
| TocCompaction.LeftOutExactlyAtTheLeadOut | sources/cdrtools-2.01/cdda2wav/scsi_cmds.c:610-640 | a track in session, range and order is left out if and only if it starts exactly at the lead-out recorded so far |
| TocCompaction.TrackAtTheLeadOutIsDropped | sources/cdrtools-2.01/cdda2wav/scsi_cmds.c:610-640 | in a given TOC the track at the lead-out is dropped, and kept when it starts one frame later |
| TocCompaction.LeadOutReadsBack | sources/cdrtools-2.01/cdda2wav/scsi_cmds.c:644-656 | the patched lead-out address reads back as the original if and only if it is below 100 minutes |
| TocCompaction.BcdDigits | sources/cdrtools-2.01/cdda2wav/scsi_cmds.c:447-455 | two BCD digits are read as the number they write |
| TocInPlace.ScanTrack | sources/cdrtools-2.01/cdda2wav/scsi_cmds.c:599-640 | the checks on a track entry and what is copied down |
| TocInPlace.ScanEntry | sources/cdrtools-2.01/cdda2wav/scsi_cmds.c:439-642 | one round on the buffer is one step of the filter; kept and unread entries stay |
| TocInPlace.FilterEntries | sources/cdrtools-2.01/cdda2wav/scsi_cmds.c:430-642 | the buffer begins with the accepted entries, although they are copied over earlier ones |
| TocInPlace.RewriteEntry | sources/cdrtools-2.01/cdda2wav/scsi_cmds.c:677-686 | the aliased assignments give the 8-byte form of the old entry: nibbles of the control byte exchanged, track number, address, and two reserved zeros |
| TocInPlace.RewriteEntries | sources/cdrtools-2.01/cdda2wav/scsi_cmds.c:677-697 | no write clobbers an entry still to be read |
| TocInPlace.CollectTracks | sources/cdrtools-2.01/cdda2wav/scsi_cmds.c:399-701 | for every accepted entry and the lead-out, in order, the buffer holds the 8-byte form, byte for byte, and the right header |
| Scatter.MoveBytes | sources/cdrtools-2.01/libschily/movebytes.c:29-125 | an overlapping move gives what a move through a copy would |
| Scatter.ScatterSecs | sources/cdrtools-2.01/cdrecord/movesect.c:64-100 | for all sizes and counts, each sector begins at its new place with the bytes it had at its old one, and nothing behind the last changes |
| Scatter.MoveTogether | sources/cdrtools-2.01/cdrecord/movesect.c:81-89 | moving backwards, first sector first, overwrites nothing still needed |
| Scatter.MoveApart | sources/cdrtools-2.01/cdrecord/movesect.c:90-99 | moving forwards, last sector first, overwrites nothing still needed |
| Scatter.GrowThenShrink | sources/cdrtools-2.01/cdrecord/movesect.c:35-63 | growing and then shrinking the sectors restores the data |
| Base64.Rfc822Binary | sources/cdrtools-2.01/cdda2wav/base64.c:89-117 | for every source length the string is the encoding, ends with the only NUL, and is two shorter than the reported length |
| Base64.PutQuad | sources/cdrtools-2.01/cdda2wav/base64.c:100-108 | the side effects on the count inside one tuplet read no byte beyond the source and give its four digits |
| Base64.RoundTrip | sources/cdrtools-2.01/cdda2wav/base64.c:89-117 | for every source, the output without line ends decodes to the source |

## Left out

- Creating processes and shared memory, delays, the 240 second timeouts and priorities: waiting is a guard on a step.
- The test of standard input for end of file in await_faio (fifo.c:488-497), which only delays.
- The FIFO statistics empty, full and the low-water marks: they decide nothing.
- fill_buf and get_buf: fill_buf stores at most a transfer, is short only at end of file, and clears the rest of the transfer, as it does for tracks without raw sectors (cdrecord.c:1824-1849); get_buf is faio_get_buf.
- The fatal check of init_faio for a transfer size above the segment size, and read errors (negative lengths) in the pairing of producer and consumer loops; in the FIFO itself a segment may have any length.
- TrackTransfer.SegmentQueue.WritePacketData: does not model the sector addresses passed to the drive, because they do not influence what is transferred.
- The pipe build of semrequest and semrelease, drop_all_buffers, and last bursts of a single sector, which are not compared with the previous buffer.
- What is recorded after do_read has given up, short bursts at the end, paranoia mode and the search for an illegal lead-out.
- De-emphasis, waitforsignal, minimum and maximum, mono detection, the sound card and endianness guessing in SaveBuffer.
- SaveBuffer.Converter.Save: does not model overflow of the 32-bit accumulators, because no allowed divider of 16-bit samples reaches it.
- SaveBuffer.Converter.Save: the buffer is a byte array with little-endian samples, so a big-endian host is not modelled.
- TrackCutting.TrackWriter.DoWrite: leaves out rate conversion, the MD5 signature of the start of a track, file names and sample file headers.
- CdTextPacker.PackText: the buffer for packs is a list of packs, not 4608 bytes; texts that need more than 256 packs, for which the code has no check, are excluded.
- checktextfile, write_cdtext and the other pack types of cd_text.c: file and drive access around the functions modelled.
- A failing malloc in setuptextdata, rfc822_binary and elsewhere.
- sha_stream, sha_print and the command line around the hashes; big-endian builds of sha_func.c.
- The WARN_FULLTOC messages of collect_tracks, and TOC_entries, which stores its result.
- The word-wise loops of movebytes: MoveBytes moves single bytes in the same directions.
- SCSI commands, drive tables, options, messages, info files and sound file headers: input and output around the models.
