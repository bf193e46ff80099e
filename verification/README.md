# A model of go-ffmpeg's HLS core

go-ffmpeg drives ffmpeg to make HLS segments, on demand and continuously. This project models the parts of it that
carry state, loops and arithmetic, and proves what they promise. `dafny verify dfyconfig.toml` checks all of it.

| files | what they model |
|---|---|
| `Bytes`, `BoxTree`, `Tfdt`, `FirstTimes`, `Align`, `AlignInPlace`, `Limits` | rebasing the decode times of an fMP4 fragment in place, and fragments that show where the results end (`mp4/tfdt.go`) |
| `PublishCheck`, `FastReader` | the publishable check in memory, and the reader that looks at moofs only (`mp4/hls_validate.go`, `mp4/hls_publish.go`, `mp4/hls_reader.go`) |
| `InitBoxes`, `InitComplete` | completeness of an init segment (`mp4/init_validate.go`) |
| `Durations`, `FragmentEncoding`, `DurationRoundTrip`, `FragmentLiteral` | the decode time a fragment covers, against an encoder written independently of the readers and a fragment written out (`mp4/fragment.go`, `mp4/init_timescale.go`) |
| `Timeline`, `ContinuousPlan`, `CopyPlan`, `CopyCuts`, `GapJob`, `Lookup` | planning segments at keyframes, the cut times of restarted copy jobs, jobs that stop at a hand-off segment, looking segments up (`ops/hls_timeline.go`, `ops/hls_vod.go`, `ops/hls_vod_copy.go`, `ops/hls_vod_job.go`) |
| `Decision`, `Session`, `Protocol`, `Heads`, `Races` | the on-demand session: its object and locked regions, every interleaving of them, how the head moves over runs, and the runs that show where the results end (`ops/hls_vod_session.go`, `ops/hls_vod_decide.go`, `ops/hls_vod_segment_list.go`) |
| `SegmentCache`, `HandOff`, `Leftovers` | clearing the segment directory for a repositioned job, what becomes of its hand-off segment in the session, and what readers leave behind (`ops/hls_vod_job.go`, `ops/hls_vod_session.go`) |
| `Publisher`, `PublishPass`, `PublishedTimeline`, `PlaylistText`, `Decimals`, `PlaylistLiteral` | publishing passes over a growing muxer playlist, where published fragments land, and the playlist text (`ops/hls_continuous_align.go`, `ops/continuous_validate.go`) |
| `Slots` | the tiered slot limiter (`concurrency/limiter.go`) |
| `Monitors` | consumers of a chunked stderr stream (`ops/hls_vt_stderr.go`, `ops/hls_continuous.go`) |
| `Wrappers` | the optional value |

Where the source updates state in a loop or an object, there is a method proved against a function or a relation, and
the results are lemmas about that function. Concurrency is a state machine whose steps are the source's locked regions;
the objects in `Session` and `Slots` use the same functions the state machines step by.

How to read the model:

- Box types are big-endian numbers of their four characters. Sizes in the walker of `mp4/tfdt.go` are 32 bits; times are
  `uint64` with the source's `int64` conversions written out.
- `WellNested` is the reading of ISO/IEC 14496-12 the alignment results need: the nested walk succeeds, moofs and what is
  inside them end inside their parents, a tfhd holds its track_ID (section 8.8.7), a version 1 tfdt holds a time below
  2^63 (section 8.8.12). Outside it a walk can meet a byte twice. The methods themselves are specified for every buffer.
- `InRange` says that the float-to-int64 conversions of an alignment are defined; Go leaves the others to the machine.
- Track id 0 makes the choice of the primary track depend on Go's map order, so the choice is a relation, `IsPrimary`.
- In `InitBoxes` the walk adds in Go's 64-bit int, wrap-around included. `Boxes` is the same walk in unbounded numbers, and
  `InInt` the exact condition under which the two agree; the comment on `walkBoxes` promises that no box extends past the
  buffer, and outside `InInt` that is false.
- The comment on `PublishableHLSSegmentFragment` says decode times are monotonic per track; the code checks track 1 only,
  and so does the model; `Limits.OtherTrackCanStepBack` is a fragment on which the two differ.
- Seconds are exact reals; `math.Round` rounds halves away from zero, `math.Floor` and `math.Ceil` are exact.
- A segment directory is what is in it: which indices have a file, whether its content is publishable, which indices have
  a leftover temporary file. Listings are sorted by name, which for five-digit names is by index.
- In `Protocol` the readiness of segments and the segment list change freely between steps, jobs end at any time, and a
  host may install the job it starts any number of times before the restart does. All starts go through a restart. A
  waiter is there as what it can do to the others: any request may go for the restart lock at any moment, whatever it
  decided before, and may view or refresh the state.
- The session decides an unlink under its mutex and removes the file after letting it go, so `Protocol` has the two as
  separate steps. That leaves a window in which a new reader can lose a ready segment, which two runs in `Races` show;
  a third shows that an unlink put off can take the hand-off segment of a job started since.
- A send on a full channel in `Slots` waits while other clients act; each send is given what the channels hold by the
  time its wait ends, and whether that is by room or by cancellation.
- In `PlaylistText` number printing and parsing are parameters: an inverse pair on the represented numbers;
  `Decimals` is one such pair.

## Model

| member | source | states |
|---|---|---|
| `Bytes.Be32` | mp4/tfdt.go:260-270 | the four bytes it returns read back, big-endian, as the number |
| `Bytes.PutU64` | mp4/tfdt.go:261-270 | a write of eight bytes reads back as the number and changes no other byte |
| `BoxTree.TreeMoves` | mp4/tfdt.go:296-313 | the walk reads nothing outside its range: copied elsewhere, a range of boxes has the same box tree, moved by the distance |
| `Tfdt.AddDeltaMoves` | mp4/tfdt.go:245-275 | a delta added to a time that stays in its field moves exactly that time and no other byte |
| `Tfdt.PatchShifts` | mp4/tfdt.go:157-184 | the in-place patch that walks the very buffer it writes refines an abstract shift, for every nesting of boxes and every set of deltas: it succeeds exactly when every tfdt fits after its delta, and then each tfdt moved by its track's delta while box tree and other bytes stayed |
| `FirstTimes.FirstOfIsEarliest` | mp4/tfdt.go:122-155 | with nondecreasing times and one tfdt to a traf, the time recorded for a track is no later than any of its tfdts |
| `FirstTimes.FragmentHasTime` | mp4/hls_validate.go:96-102 | well-nested bytes are a fragment if and only if there are 64 or more of them, their first times can be read, and some traf has a tfdt |
| `Align.AlignShifts` | mp4/tfdt.go:37-81 | alignment is a shift by one delta per track: exact success condition, unchanged tree and unchanged bytes outside times, every tfdt's track has a delta, first times moved alike, result well nested |
| `Align.AlignNeverUnderflows` | mp4/tfdt.go:64-80 | when no tfdt precedes its track's first time, alignment fails if and only if some tfdt is unreadable or outgrows its field; never by underflow |
| `Align.AlignIsSafe` | mp4/tfdt.go:37-81 | for fragments whose times never step back and a media start from 0 on: the primary track is not clamped and nothing underflows |
| `Align.AlignedIsDetermined` | mp4/tfdt.go:43-59 | for every input alignment has an answer, and only one whatever the map order, unless track 0 stands beside others and track 1 does not |
| `Align.PrimaryLands` | mp4/tfdt.go:49-91 | for a media start from 0 on the primary track is never clamped and lands within half a tick of it, in the timescale the caller supplies for it or else 48000 for track 2 and 90000 for the others |
| `Align.OffsetKept` | mp4/tfdt.go:64-91 | a track that is not clamped keeps its offset from the primary to within half a tick of each of the two, both in the timescales the caller supplies or else the usual ones |
| `Align.FragmentLands` | mp4/tfdt.go:37-91 | from the bytes of a fragment to those of its alignment: the primary track begins within half a tick of the media start, every other one keeps its offset, or begins at 0 because its place would be before the beginning |
| `Align.AlignKeepsPublishable` | mp4/hls_publish.go:5-10 | a successful alignment changes neither acceptance nor rejection of the fragment by the full check |
| `Align.AlignTwice` | mp4/tfdt.go:37-81 | when the media start is a whole tick of the primary track, aligning the result again returns it byte for byte |
| `Align.AlignFixesIff` | mp4/tfdt.go:37-81 | alignment returns a fragment unchanged if and only if it succeeds and every track's shift is 0 |
| `Align.AlignTwiceIff` | mp4/tfdt.go:37-81 | from the first times of the fragment and the start alone: a second alignment to the same start returns the result unchanged if and only if the first one leaves every track less than half a tick off, or at 0 with the rest pointing below it |
| `Limits.AlignmentCanSwing` | mp4/tfdt.go:37-81 | a fragment, byte for byte, whose one time goes from 0 to 1 and back to 0 under repeated alignment to the same start |
| `Limits.PublishableIff` | mp4/hls_publish.go:5-10 | a fragment is publishable if and only if it has a decode time and on track 1 every time can be read and none is before an earlier one |
| `Limits.OtherTrackCanStepBack` | mp4/hls_validate.go:211-246 | a fragment, byte for byte, whose track 2 steps back and which the check accepts |
| `AlignInPlace.ReadTicks` | mp4/tfdt.go:186-205 | the decode time in a tfdt, or the error, for every version and length |
| `AlignInPlace.TfhdTrackId` | mp4/tfdt.go:218-239 | the last tfhd of a traf decides its track, 1 when there is none, an error for a cut tfhd or a bad size |
| `AlignInPlace.AddDeltaInPlace` | mp4/tfdt.go:245-275 | the time field updated in the buffer with 64-bit wrap-around; the buffer untouched on error |
| `AlignInPlace.ApplyDeltas` | mp4/tfdt.go:157-184 | the nested walk that patches the array leaves exactly the patched buffer of the specification, or the same failure |
| `AlignInPlace.FirstTfdtWalk` | mp4/tfdt.go:122-155 | the nested walk finds the first times the box tree defines, and fails exactly when it does |
| `AlignInPlace.PrimaryTrack` | mp4/tfdt.go:50-59 | track 1 if it has a time, otherwise the least track id; with an id of 0 present, one the map's order can leave |
| `AlignInPlace.AlignFragment` | mp4/tfdt.go:37-81 | the whole alignment of an array meets the specification for the primary track it picked, and leaves its input alone |
| `PublishCheck.MonotonicWalk` | mp4/hls_validate.go:211-246 | the walk that updates the last time seen returns what the specification folds over the box tree, errors included |
| `PublishCheck.PublishableFragment` | mp4/hls_publish.go:5-10 | accepts an array exactly when it is long enough, has a decode time, and track 1 never steps back |
| `PublishCheck.PublishableReaderAt` | mp4/hls_reader.go:12-21 | accepts a file exactly when its top-level moofs alone pass the full check |
| `FastReader.ReadTopLevelMoofBoxes` | mp4/hls_reader.go:24-59 | the loop over a file returns the concatenated top-level moofs, or rejects, as specified |
| `FastReader.ReaderRefinesFullCheck` | mp4/hls_reader.go:12-21 | on a well-nested file the fast reader accepts if and only if the full check does, every top-level box fits the file and no moof exceeds 4 MiB, and the moofs hold at least 64 bytes |
| `InitBoxes.WalkBoxes` | mp4/init_validate.go:13-40 | on every buffer on which the loop ends it does what the walk in Go's 64-bit int does: a box list with its 64-bit and to-the-end sizes, a rejection, or an index out of range |
| `InitBoxes.ForwardIffInInt` | mp4/init_validate.go:31-37 | the walk ends without its offset ever stepping back if and only if no box on it ends past the largest int; it then returns the list of the boxes in unbounded numbers, or finds one cut short |
| `InitBoxes.ParsedInInt` | mp4/init_validate.go:31-37 | a buffer that parses into boxes inside it meets that condition |
| `InitBoxes.WalkCanLoop` | mp4/init_validate.go:31-37 | 24 bytes on which the end of the second box overflows back to 0 and the loop never ends |
| `InitBoxes.WalkCanPanic` | mp4/init_validate.go:25-37 | a single box of a 64-bit size from 2^63 on is rejected up to 2^63+16, by a second overflow, and panics above |
| `InitBoxes.MoovChildrenComplete` | mp4/init_validate.go:63-78 | on every moov whose walk ends the flag loop says whether it parses and has both a trak and an mvex, or panics with the walk |
| `InitBoxes.InitComplete` | mp4/init_validate.go:46-61 | on every buffer on which it ends the loop over the boxes gives the specified verdict, a panic at a box that cannot be cut out of the buffer included |
| `InitBoxes.OpenBoxIsLast` | mp4/init_validate.go:30-32 | a box of size 0 reaches to the end of the buffer, whatever follows its header, and ends the list |
| `InitBoxes.LastMoovDecides` | mp4/init_validate.go:51-60 | with a verdict on every moov it is the last one, and it alone, that decides |
| `InitComplete.CompleteIff` | mp4/init_validate.go:42-78 | on a buffer whose boxes end within the int the answer is true if and only if it parses, holds an ftyp or a styp, and its last moov parses to a list with a trak and an mvex |
| `InitComplete.ThreeInits` | mp4/init_validate.go:42-78 | three inits byte for byte: one with both boxes is complete, one without mvex and one without trak are not |
| `InitComplete.OutsideTheInt` | mp4/init_validate.go:17-61 | bytes on which the check runs for ever, or panics, or answers no in spite of a size next to 2^63: as the buffer and as the payload of its moov |
| `InitBoxes.BoxesTile` | mp4/init_validate.go:13-40 | parsed boxes lie end to end from the first byte to the last |
| `InitBoxes.PrefixParses` | mp4/init_validate.go:13-40 | without a size-0 box, a prefix parses if and only if it ends at a box boundary, and then to that prefix of the box list |
| `InitBoxes.PrefixComplete` | mp4/init_validate.go:46-61 | the verdict on a prefix of a parsed buffer is that on the boxes it holds when it ends at a boundary, and incomplete otherwise |
| `InitBoxes.TruncationDetected` | mp4/init_validate.go:42-61 | no strict prefix of an init segment whose only moov comes last is taken for complete |
| `Durations.TrunDurationTicks` | mp4/fragment.go:83-125 | the cursor loop of a trun computes the specified uint64 sum or the unknown result |
| `Durations.TrafDurationTicks` | mp4/fragment.go:14-43 | the two walks of a traf: last default duration, then the sum of its truns |
| `Durations.LastDefaultCounts` | mp4/fragment.go:14-28 | of several default durations in a traf the last one counts |
| `Durations.WalkTracks` | mp4/init_timescale.go:137-159 | the nested walk that fills the per-track counts, stopping where the source stops |
| `DurationRoundTrip.HeaderDecodes` | mp4/fragment.go:62-81 | a tfhd printed with any optional fields gives back its track and its default sample duration |
| `DurationRoundTrip.RunDecodes` | mp4/fragment.go:83-125 | a trun printed with any flags gives back the sum of its sample durations, which never overflows 64 bits; a sum of 0 counts as unknown |
| `DurationRoundTrip.TrafDecodes` | mp4/fragment.go:14-43 | a printed traf gives back its track and the sum of its determinable durations modulo 2^64 |
| `DurationRoundTrip.DurationsInvertEncoding` | mp4/init_timescale.go:132-159 | for every file of moofs, trafs, truns and other boxes, printed with any flags, each track's count is the sum of its determinable sample durations modulo 2^64 |
| `FragmentLiteral.FragmentLasts` | mp4/fragment.go:14-125 | a fragment of 80 bytes written out, with default and own durations, is read as 35 ticks of its one track |
| `DurationRoundTrip.SpansInvertEncoding` | mp4/init_timescale.go:160-172 | a printed file has a span for exactly the tracks whose samples last, and it is what they last in seconds |
| `DurationRoundTrip.SecondsExact` | mp4/init_timescale.go:160-172 | below 2^64 ticks and with the timescale known those seconds are the summed durations over the timescale |
| `DurationRoundTrip.LongestOfEncoding` | mp4/init_timescale.go:105-114 | a number is the longest span decoded from a printed file if and only if it is the greatest of its tracks' seconds |
| `DurationRoundTrip.ShortestOfEncoding` | mp4/init_timescale.go:118-130 | a number is the shortest span decoded from a printed file if and only if it is the least of the seconds of the tracks that last, 0 when none does |
| `Durations.InferTrackDuration` | mp4/fragment.go:48-60 | without a timescale, the first candidate that makes the length plausible, else the default one |
| `Durations.InferredTimescale` | mp4/fragment.go:48-60 | in ticks: which counts are read at 16000, which at 1000 and which at 90000; the candidates 48000, 44100 and 30000 are never taken |
| `FragmentLiteral.NothingAfterBroken` | mp4/init_timescale.go:137-159 | after a moof with a box of size 0 in it nothing is counted, whatever bytes follow |
| `Durations.FragmentTrackSpans` | mp4/init_timescale.go:160-172 | the loop over the counts keeps exactly the positive spans, whatever the map order |
| `Durations.LongestSpan` | mp4/init_timescale.go:105-114 | the result bounds every span from above and is one of them, or 0 |
| `Durations.ShortestSpan` | mp4/init_timescale.go:118-130 | the result bounds every positive span from below and is one of them, or 0 |
| `Durations.FragmentDuration` | mp4/init_timescale.go:105-159 | from bytes to the longest span of the fragment |
| `Durations.FragmentMinDuration` | mp4/init_timescale.go:118-159 | from bytes to the shortest span of the fragment |
| `Timeline.NormalizeKeyframeTimes` | ops/hls_timeline.go:29-42 | the loop rebases each time by the container start, at least 0 |
| `Timeline.RebasedInside` | ops/hls_timeline.go:14-42 | a container time from the start on is before the end of the media exactly when its rebased time is before the rebased length |
| `Timeline.SanitizeKeyframes` | ops/hls_timeline.go:62-91 | the filter loop computes the specified list: empty for unusable probes, zero put in front when the first kept time is later |
| `Timeline.SanitizedIsSpaced` | ops/hls_timeline.go:62-91 | the cleaned list lies in the timeline, opens within a millisecond of 0, and keeps the half-second gap everywhere after an inserted zero |
| `Timeline.UnusableIff` | ops/hls_timeline.go:62-91 | the cleaned list is empty exactly when the media has no length, the probe is over the rate limit or has no time inside the media |
| `Timeline.CleanTwice` | ops/hls_timeline.go:62-91 | cleaning a cleaned list changes nothing if and only if its first gap is half a second too and the list, a zero in front included, is within the rate limit |
| `Timeline.CleaningCanGoOn` | ops/hls_timeline.go:70-90 | a probe of one time at 0.3 s is cleaned to a list that a second cleaning shortens |
| `Timeline.KeptCovers` | ops/hls_timeline.go:70-82 | from a sorted probe nothing is lost: every usable time is within the gap after a kept one |
| `Timeline.FixedTimeline` | ops/hls_timeline.go:150-168 | the grid loop and its tail merge compute the specified plan |
| `Timeline.MergeTinyTailSegment` | ops/hls_timeline.go:170-176 | the in-place merge of a short last segment into the one before it |
| `Timeline.FixedPlanPartitions` | ops/hls_timeline.go:150-176 | the grid is contiguous from 0, ends at the duration and its lengths add up to it exactly |
| `Timeline.FixedPlanIsGrid` | ops/hls_timeline.go:150-176 | every start is a multiple of the segment length, every segment but the last has exactly that length, the last is under half a second longer and, with two or more, not under half a second |
| `Timeline.FixedPlanOfNothing` | ops/hls_timeline.go:150-168 | without a duration there is one segment of the segment length |
| `Timeline.KeyframeSeekBefore` | ops/hls_timeline.go:179-191 | the scan returns the last leading keyframe within a millisecond of the time, 0 without one |
| `Timeline.SeekFromListed` | ops/hls_timeline.go:179-191 | a listed keyframe clear of the next one is its own seek point |
| `CopyPlan.FindCut` | ops/hls_vod.go:71-81 | the inner loop returns the first keyframe in list order that may end the segment, or the media's end |
| `CopyPlan.CopyModeTimeline` | ops/hls_vod.go:53-98 | the outer loop with both of its breaks, the fallback grid and the tail merge compute the specified plan; it terminates |
| `CopyPlan.NextCutIsGreedy` | ops/hls_vod.go:71-81 | on a sorted list the cut is the least usable keyframe, or the media's end and no keyframe is usable |
| `CopyPlan.PlanIsGreedyPartition` | ops/hls_vod.go:53-98 | the plan of a cleaned list is contiguous from 0, every end but the last is the first keyframe a millisecond on that meets its cumulative target within half a millisecond, no start is early by more than that, and the end is within 0.01 s of the media's |
| `CopyPlan.PlanHasNoTinySegment` | ops/hls_timeline.go:170-176 | with two or more segments before the merge the last is at least 0.5 s, and only the first can miss that, by half a millisecond |
| `CopyPlan.FirstSegmentCanMissMinimum` | ops/hls_vod.go:68-98 | a keyframe at 0.4997 s behind an inserted zero does give a first segment under 0.5 s |
| `CopyPlan.FirstSegmentMissesIff` | ops/hls_vod.go:68-98 | with two or more segments before the merge the first is under 0.5 s if and only if some keyframe under 0.5 s meets the first target on its half-millisecond slack and leaves 0.5 s of media after it |
| `CopyPlan.OneSegmentMissesIff` | ops/hls_vod.go:68-98 | with a single one it is under 0.5 s if and only if the media is, or its only cut is so near the end that the rest is dropped |
| `CopyPlan.PlanMeetsMinimumIff` | ops/hls_vod.go:53-98 | for the plan of every cleaned list: all segments are 0.5 s or more if and only if none of these conditions on keyframes, duration and segment length holds |
| `CopyPlan.SegmentListCovers` | ops/hls_vod.go:101-107 | every list built for media of positive length, grid or copy, is contiguous from 0 and covers it to within 0.01 s |
| `CopyPlan.NothingListed` | ops/hls_vod.go:101-108 | media without a length are listed as one segment of the usual length |
| `CopyPlan.SegmentListIs` | ops/hls_vod.go:41-107 | with a usable keyframe the list is the greedy partition at the cleaned keyframes, with none the grid of whole segments |
| `CopyCuts.CopySegmentCutTimes` | ops/hls_vod_copy.go:19-31 | the loop lists the planned boundaries after the start index relative to the seek, without those at or before it |
| `CopyCuts.CutTimesHave` | ops/hls_vod_copy.go:19-31 | a time is listed if and only if it is that of a boundary after the start index, more than half a millisecond past the seek |
| `CopyCuts.FloatsToArgs` | ops/hls_vod_copy.go:76-85 | the loop biases each time by a millisecond and floors it to whole milliseconds |
| `CopyCuts.EmittedBias` | ops/hls_vod_copy.go:79-82 | an emitted time is one to two milliseconds before its boundary |
| `CopyCuts.SeekPoint` | ops/hls_vod_copy.go:40-49 | the seek is never negative, and is the start itself when no keyframes are given |
| `CopyCuts.CutsAtBounds` | ops/hls_vod_copy.go:51-74 | a muxer that cuts at the first keyframe not before each listed time cuts at exactly the boundaries if and only if no keyframe falls between a time and its boundary |
| `CopyCuts.RestartCutsExactly` | ops/hls_vod_copy.go:19-31 | a job restarted at any segment cuts at exactly the planned starts if and only if the stream leaves room before each of them for the emitted time |
| `CopyCuts.RestartIndependence` | ops/hls_vod_copy.go:51-74 | two milliseconds without a keyframe before each boundary make file i the same stretch of media whichever job wrote it |
| `CopyCuts.SeekLandsOnStart` | ops/hls_vod_copy.go:40-49 | the keyframe seek of a job lands on the planned start of its first segment |
| `CopyCuts.PlannedRestartIndependence` | ops/hls_vod_copy.go:51-74 | for the plan of a cleaned probe, on any stream that has the probed keyframes and possibly more, all two milliseconds apart, every start index and every file: file i holds [starts[i], starts[i+1]) |
| `GapJob.GridBoundAgrees` | ops/hls_vod_job.go:412-415 | on the grid the bound read off the list is the one counted in segments |
| `GapJob.TranscodeGapJob` | ops/hls_vod_job.go:408-428 | a transcode job from m to the hand-off s lasts exactly s - m segments, however its bound is read and wherever keyframes are |
| `GapJob.RemuxRunsShorter` | ops/hls_vod_job.go:417-428 | a remux job that seeks past a millisecond is given half a second less output than a copy job with the same bound, none when no more than that is left |
| `GapJob.CutsBefore` | ops/hls_vod_copy.go:51-74 | a job whose frames end before a listed time cuts at exactly the boundaries before it |
| `GapJob.GapJobFillsGap` | ops/hls_vod_job.go:406-428 | a job started at m and bounded by a ready segment s writes files m to s-1, each with its planned stretch, and no file s |
| `GapJob.PlannedGapJob` | ops/hls_vod_job.go:406-428 | the job of a planned probe on such a stream, from its own seek and clock, copy or remux: each file from m to s-1 holds its planned stretch; with a bound no file s is written, without one the job goes on to the end of the plan |
| `GapJob.PlannedJobBound` | ops/hls_vod_job.go:408-428 | it is bounded if and only if its clock is not padded or the gap is longer than the pad, and then ends exactly on starts[s] |
| `GapJob.RemuxCanOverrun` | ops/hls_vod_job.go:417-428 | a remux job half a second before its hand-off gets no bound and writes the hand-off segment too |
| `ContinuousPlan.BuildSegmentTimeline` | ops/hls_timeline.go:96-148 | the loops compute the specified plan, with rebasing, defaults, the fallback grid and the tail merge |
| `ContinuousPlan.TimelinePartitions` | ops/hls_timeline.go:96-148 | for any container start time, keyframes spaced on the media's timeline give a plan contiguous from the first of them, each end but the last the first keyframe a segment length or more on, and the end within 0.01 s of the media's |
| `ContinuousPlan.CleanedTimelinePartitions` | ops/hls_timeline.go:62-148 | the clean-up meets that condition: any probe, cleaned on the media's timeline and put back in container time |
| `ContinuousPlan.StartsInside` | ops/hls_timeline.go:110-136 | whatever the keyframes are, no segment is planned to start at or after the end of the media |
| `ContinuousPlan.WithoutKeyframes` | ops/hls_timeline.go:96-108 | without keyframes the plan is the grid of the media, or one segment when the media have no length |
| `ContinuousPlan.NoLengthIsOneSegment` | ops/hls_timeline.go:96-108 | media without a length are planned as if they were one segment long, keyframes or not |
| `Lookup.SegmentIndexForTime` | ops/hls_vod.go:111-126 | the scan returns the end of the leading run of starts the time has reached, first and last segment at the edges |
| `Lookup.LookupFindsSegment` | ops/hls_vod.go:111-126 | a time inside a segment and half a millisecond clear of the next start is located at that segment and nowhere else |
| `Lookup.LookupRoundsUp` | ops/hls_vod.go:119-124 | a time in the last half millisecond of a segment is located at the next one |
| `Lookup.LookupSlack` | ops/hls_vod.go:119-124 | the slack in full: half a millisecond before a start is near enough to it, and any earlier time is not |
| `Lookup.LookupInvertsPlanning` | ops/hls_vod.go:101-126 | for every grid or copy list with segments of 0.5 s or more, lookup returns exactly the segment that was planned there |
| `Lookup.TargetDurationSec` | ops/hls_vod.go:146-157 | the loop takes the longest length, the default without one, and rounds up but for the slack |
| `Lookup.TargetBoundsEverySegment` | ops/hls_vod.go:146-157 | each length, exact or printed to the millisecond, rounds to no more than the announced target, and the target is less than a second over the longest |
| `Decision.GapFillsWindow` | ops/hls_vod_decide.go:31-43 | the wait gap is the whole number of segments in the media window, at least one |
| `Decision.DecideIff` | ops/hls_vod_decide.go:30-64 | the whole rule in seconds, for every configuration: served if and only if ready; otherwise waiting if and only if a job runs, the request is not before its start and within the window ahead of its head, of one segment at least; otherwise a restart |
| `Decision.SeekRestarts` | ops/hls_vod_decide.go:46-64 | with 4 s segments, a 24 s window and a job at segment 3, a request for 9 waits and one for 10 restarts |
| `Decision.NearStartWaits` | ops/hls_vod_decide.go:46-64 | a request at or after the start of a running job and within the gap of it waits, given a head that is not before the start |
| `Session.SegmentListHead` | ops/hls_vod_segment_list.go:57-67 | the loop returns the least index from the start on that is not listed |
| `Session.ExplicitHead` | ops/hls_vod_session.go:146-152 | the head taken from the list is not before the job's start and everything below it is listed |
| `Session.HLSVODSession.constructor` | ops/hls_vod_session.go:41-54 | a new session has no job, no partial segment, no readers |
| `Session.HLSVODSession.AttachJob` | ops/hls_vod_session.go:91-101 | one locked region: job, start, head, mode and partial segment set together |
| `Session.HLSVODSession.ClearJobIf` | ops/hls_vod_session.go:128-133 | only the given job is cleared |
| `Session.HLSVODSession.TrackPartial` | ops/hls_vod_session.go:114-118 | the partial segment follows the head of the current job, none at its hand-off bound |
| `Session.HLSVODSession.RefreshEncodeHead` | ops/hls_vod_session.go:137-181 | an uninterrupted refresh moves the head past every ready segment, or to the end of the listed run within the bound |
| `Session.HLSVODSession.JobViewNow` | ops/hls_vod_session.go:183-200 | the view returned and the clearing of a dead job |
| `Session.HLSVODSession.TakeJob` | ops/hls_vod_session.go:285-289 | the job and partial segment a restart captures, and the job cleared |
| `Session.HLSVODSession.AcquireServePath` | ops/hls_vod_session.go:57-61 | one more reader of that path and nothing else |
| `Session.HLSVODSession.ReleaseServePath` | ops/hls_vod_session.go:64-79 | one reader less, none becoming none; an unlink is decided exactly when no reader is left and one is pending |
| `Session.HLSVODSession.DeferUnlinkPath` | ops/hls_vod_session.go:337-373 | which partial segments are doomed, and whether the unlink is done, deferred or skipped |
| `Protocol.AtMostOneJobRuns` | ops/hls_vod_session.go:274-318 | in every interleaving at most one job runs, and when a job is started every earlier one has ended |
| `Protocol.HeadIsHonest` | ops/hls_vod_session.go:137-181 | while a job is current the head is not before its start, and every index between was finished at an earlier moment at which this very job was there: listed in a session that cuts explicitly, ready in one that does not |
| `Heads.HeadGoesBackIff` | ops/hls_vod_session.go:137-181 | in every run a refresh takes the head back if and only if the head was last set by a refresh, not an install, and to a greater value |
| `Heads.ReadExists` | ops/hls_vod_session.go:137-181 | every head a refresh writes is the one after the head it last read, or the head of the list it last read |
| `Heads.PeekedWriteKeepsHead` | ops/hls_vod_session.go:161-180 | a refresh that follows the ready segments takes the head back only if an install or another refresh set it between its read and its write |
| `Heads.ListedWriteKeepsHead` | ops/hls_vod_session.go:147-159 | the same for refreshes from the segment list in a session that always cuts explicitly, while the list only grows |
| `Heads.SerialRefreshesKeepHead` | ops/hls_vod_session.go:137-181 | between two installs refreshes that do not overlap never take the head back |
| `Races.HeadCanGoBack` | ops/hls_vod_session.go:147-159 | a run in which two refreshes of one job take its head back |
| `Protocol.NearRequestsDoNotRestart` | ops/hls_vod_decide.go:46-64 | no request within the gap after a running job's start turns into a restart or kills that job, decisions taken before the restart lock included |
| `Protocol.KillSparesHandOff` | ops/hls_vod_session.go:337-373 | the segment a restart removes lies in the range of the last job and is never its hand-off segment |
| `Protocol.ReadersKeepSegments` | ops/hls_vod_session.go:57-79 | a ready segment read throughout is removed by the session if and only if an unlink of it, decided before while it had no reader, is carried out meanwhile; every deferred unlink has a reader |
| `Races.RestartCanTakeFromReader` | ops/hls_vod_session.go:365-372 | a run in which the unlink of a restart, decided unread, takes a ready segment from a reader that came after the lock was let go |
| `Races.ReleaseCanTakeFromReader` | ops/hls_vod_session.go:64-79 | the same for the deferred unlink that the last reader carries out |
| `Protocol.StepKeepsSingleWriter` | ops/hls_vod_session.go:91-181 | every step keeps the single-writer invariant |
| `Protocol.StepKeepsHonestHead` | ops/hls_vod_session.go:161-180 | every step keeps the head within what was observed for the current job |
| `Protocol.StepKeepsHonestThreads` | ops/hls_vod_session.go:137-181 | what a refresh carries between its locked regions stays within what was observed for its job |
| `Protocol.RestartMeansOutOfReach` | ops/hls_vod_session.go:281-283 | a decision to restart under the lock means no running job reaches the request |
| `Protocol.RedecideRestartsIff` | ops/hls_vod_session.go:274-283 | under the restart lock a request goes on to restart if and only if no current job runs, it is before the start or beyond the window; otherwise it lets go |
| `Protocol.RestartGoesOn` | ops/hls_vod_session.go:274-318 | in every state of every run whoever holds the restart lock has a step to take, unless it waits for the job it cancelled, which can end |
| `Protocol.RefreshPassesReady` | ops/hls_vod_session.go:160-180 | with nothing between its three steps a refresh of the current job takes the head over a ready segment, and goes on |
| `Protocol.RefreshReadsList` | ops/hls_vod_session.go:146-159 | with nothing between its two steps a refresh of a job that keeps a list takes the head to the end of the listed run, and is done |
| `SegmentCache.Cache.ClearStale` | ops/hls_vod_job.go:196-244 | from any sorted listing: the bound is the first ready index of the rewrite, every temporary file is gone, and exactly the non-ready files before the bound are removed |
| `SegmentCache.Cache.PrepareLayout` | ops/hls_vod_job.go:177-189 | the directory and the stop index a repositioned job starts with |
| `SegmentCache.CleanUpConserves` | ops/hls_vod_job.go:177-244 | every ready segment is kept, no temporary file is left, and for a start that is not ready the stop is the least ready index above it within any preset bound and the job's range holds no file |
| `SegmentCache.RangeFreeIffStartNotReady` | ops/hls_vod_job.go:182-188 | the range given to a job holds no ready segment if and only if the segment it starts at is not ready |
| `SegmentCache.ReadyAfterCleanUp` | ops/hls_vod_job.go:225-243 | exactly which segments are ready afterwards: the old ones and those only a leftover temporary file had hidden |
| `SegmentCache.KillKeepsHandOff` | ops/hls_vod_session.go:376-385 | removing any index the repositioned job may be writing leaves its hand-off segment ready |
| `SegmentCache.HiddenBecomesReady` | ops/hls_vod_job.go:225-243 | a directory in which a clean-up from elsewhere makes a segment ready, by removing the temporary file beside it |
| `HandOff.HandOffSurvives` | ops/hls_vod_job.go:177-244 | over whole runs: the job started behind the clean-up stops at the least ready segment above its start, and until the next job is started, whatever kills it, the session takes that segment away if and only if it carries out an unlink put off before the start |
| `Leftovers.UnlinksBalance` | ops/hls_vod_session.go:64-79 | conservation over runs: the unlinks of a path that leaving readers decided are those carried out and those still to come |
| `Leftovers.ReadersBalance` | ops/hls_vod_session.go:57-79 | conservation over runs: the reader count of a path is the readers that came less those that left |
| `Races.HandOffCanBeLost` | ops/hls_vod_session.go:64-79 | a run in which an unlink put off for a reader takes the segment that the job started since was to hand off to |
| `Slots.RouteIff` | concurrency/limiter.go:157-178 | a lease takes a slot of its own tier and of no other, a global one if and only if there is a cap, and a large-file one if and only if the file is large, is not just probed and that pool is on |
| `Slots.CapacityIs` | concurrency/limiter.go:50-70 | each pool has the slots configured for it, or the default number |
| `Slots.RouteIsOrdered` | concurrency/limiter.go:159-176 | slots are taken in the fixed order global, large, tier |
| `Slots.ReleaseUndoesAcquire` | concurrency/limiter.go:120-134 | giving a route back in reverse restores every channel and counts no misrelease |
| `Slots.Limiter.constructor` | concurrency/limiter.go:137-153 | a new limiter has every channel empty |
| `Slots.Limiter.AcquireLease` | concurrency/limiter.go:157-178 | whatever other clients do while each send waits: either every send goes through and the lease holds its whole route, or the slots taken before the cancelled one are given back and the channels are left to the others |
| `Slots.Limiter.Acquire` | concurrency/limiter.go:182-195 | the same without the large-file pool |
| `Slots.Limiter.Release` | concurrency/limiter.go:198-203 | tier and then global given back |
| `Slots.Limiter.TryReleaseChan` | concurrency/limiter.go:254-264 | one slot less when one is held, nothing otherwise |
| `Slots.Limiter.ReleasePool` | concurrency/limiter.go:205-221 | one slot less, or one more misrelease |
| `Slots.Limiter.RunUnderLease` | concurrency/limiter.go:224-231 | whether the work starts or not, the channels are left to the others as they then are |
| `Slots.Lease.Release` | concurrency/limiter.go:113-134 | the first release gives everything back, every later one changes nothing |
| `Slots.StepConserves` | concurrency/limiter.go:157-221 | every step of every client keeps occupancy equal to live holdings, within capacity, with no misrelease |
| `Slots.RunConserves` | concurrency/limiter.go:113-134 | the same in every state of every run, for any number of clients |
| `Slots.AllReleasedMeansEmpty` | concurrency/limiter.go:120-134 | when every client has given everything back, every channel is empty |
| `Slots.NoDeadlock` | concurrency/limiter.go:157-178 | with a client waiting, somebody holds a complete lease, or a slot can be given back, or a waiting client's next slot is free |
| `Slots.RunNeverDeadlocks` | concurrency/limiter.go:224-231 | the same in every state of every run |
| `Monitors.DecodeMonitor.CountDecodeLines` | ops/hls_vt_stderr.go:53-82 | one write: the lines it completes are counted with their sticky flags, the rest stays pending |
| `Monitors.TwoWritesAreOne` | ops/hls_vt_stderr.go:53-65 | two writes do what their concatenation does, from any state |
| `Monitors.ChunkIndependence` | ops/hls_vt_stderr.go:53-82 | however the stream is split into writes, counters, flags and pending bytes are those of one whole write |
| `Monitors.MonitorCountsLines` | ops/hls_vt_stderr.go:67-80 | the counters count newline-terminated lines, a flag is up exactly from its threshold on, the unfinished line is pending |
| `Monitors.CountedLines` | ops/hls_vt_stderr.go:14-22 | which lines count as hardware and software failures: those with one of the given phrases anywhere in them, the software ones in lower case |
| `Monitors.LinesSplit` | ops/hls_vt_stderr.go:58-65 | lines and rest are a faithful split of the stream |
| `Monitors.StderrTail.constructor` | ops/hls_continuous.go:431-436 | a positive bound, the default for a bound that is not |
| `Monitors.StderrTail.Write` | ops/hls_continuous.go:438-450 | append, then cut to the bound |
| `Monitors.TailIsSuffix` | ops/hls_continuous.go:438-450 | after any writes the buffer is the suffix of the stream of length min(bound, total) |
| `Publisher.MediaStarts` | ops/hls_continuous_align.go:136-149 | the loop gives each listed index the sum of the lengths before it, a repeated index its last place |
| `Publisher.AbsoluteMediaStarts` | ops/hls_continuous_align.go:155-165 | the same, moved by a positive generation start |
| `Publisher.Job.PublishSegment` | ops/hls_continuous_align.go:249-275 | one listed segment: skipped, adopted, left for later, or aligned, with failures before or after the file is in place |
| `Publisher.Job.PublishReadySegments` | ops/hls_continuous_align.go:224-279 | one pass over the list, the bytes put in place included, ended by the first failing alignment; the served playlist rewritten exactly when something changed or the job is done |
| `PublishPass.PassPublishesIff` | ops/hls_continuous_align.go:224-279 | a pass that ends well publishes an index if and only if it was published before, or is listed and either in place or closed as a fragment; it puts in place exactly what it aligned |
| `PublishPass.PassFailsIff` | ops/hls_continuous_align.go:249-275 | a pass fails if and only if some listed index has still to be aligned and its alignment or a write of it fails; the first such entry ends it, with what the entries before allow published |
| `PublishPass.ClosedIsPublished` | ops/hls_continuous_align.go:224-279 | over runs: a segment listed and closed in a pass that ends well is published from that pass on |
| `PublishPass.ClosedListCompletes` | ops/hls_continuous_align.go:224-335 | when the list has ended and names only closed segments, a pass that ends well completes the served playlist |
| `PublishPass.ChangedIff` | ops/hls_continuous_align.go:224-279 | a pass never takes a segment back, and counts a change if and only if it published something |
| `Publisher.WriteServeArtifacts` | ops/hls_continuous_align.go:283-335 | the loop emits the published prefix and computes the job status |
| `Publisher.PrefixIsLongest` | ops/hls_continuous_align.go:311-331 | what is served is the longest run of published entries from the first one that names a segment; entries that name none are passed over |
| `Publisher.AlignedOnceInPlace` | ops/hls_continuous_align.go:246-275 | over any run of passes on a growing list, failures included, no segment is aligned into place twice, and each is put at the origin plus the lengths before it in the final list |
| `Publisher.EmissionsExtend` | ops/hls_continuous_align.go:311-330 | every emitted playlist extends the one before it and lists only segments in place |
| `Publisher.CompleteMeansAllPublished` | ops/hls_continuous_align.go:331-335 | complete exactly when the list has ended, is not empty and every entry is published; the produced length is then the whole sum |
| `Publisher.StatusNamesEnds` | ops/hls_continuous_align.go:292-330 | the first and last indices of the job status are those of the first and last emitted entries |
| `Publisher.EmittedPositionIsAligned` | ops/hls_continuous_align.go:244-247 | an emitted entry's file was aligned to the sum of the emitted entries before it if and only if the listed entries left out before it have no length |
| `PublishedTimeline.PublishedOnTimeline` | ops/hls_continuous_align.go:224-279 | over a whole run with failures, the bytes in place for an index are some pass's closed raw file of that index aligned to the origin plus the lengths before it in the final list; if that file is well nested and its shifts fit, they begin there on its primary track to within half a tick and are publishable exactly when it was |
| `PlaylistText.ParsePlaylist` | ops/continuous_validate.go:149-215 | the line loop returns the parsed playlist or rejects at the first bad line |
| `PlaylistText.ParsedIs` | ops/continuous_validate.go:149-215 | an accepted list has as header the tag lines before its first length, and one segment for each line that names one, in order |
| `PlaylistText.IndexOf` | ops/hls_continuous_align.go:167-174 | an index read from a URI has at most five digits |
| `PlaylistText.IndexOfIff` | ops/hls_continuous_align.go:167-174 | a URI names an index if and only if its last path element is that index in five digits and .m4s |
| `PlaylistText.BaseIs` | ops/hls_continuous_align.go:168 | the last path element is what stands after the last slash, slashes at the very end aside |
| `PlaylistText.TrimIs` | ops/hls_continuous_align.go:168 | trimming takes the blanks off both ends and nothing else |
| `PlaylistText.IndexOfSegmentURI` | ops/hls_continuous_align.go:167-174 | a printed segment name reads back as its index |
| `PlaylistText.TargetSeconds` | ops/hls_continuous_align.go:346-352 | the announced target is at least a second and at least the longest length |
| `PlaylistText.TargetIsLeast` | ops/hls_continuous_align.go:346-352 | it is the least such whole number |
| `PlaylistText.HeaderSplits` | ops/hls_continuous_align.go:295-309 | the new target line stands right after the first version tag, at the end without one, and the header is otherwise as parsed |
| `PlaylistText.HeaderDropsTargets` | ops/hls_continuous_align.go:295-309 | the served header has the new target line, every line of the muxer's header that is not a target line, and no other |
| `PlaylistText.EmitPlaylist` | ops/hls_continuous_align.go:293-336 | the loops emit the header with the new target, the entries, and the end tag when complete |
| `PlaylistText.EmitParses` | ops/continuous_validate.go:149-215 | parsing any emitted playlist returns its header, init URI, target, entries and end tag |
| `PlaylistLiteral.TagsMean` | ops/continuous_validate.go:149-215 | what each tag, written out, means to the parser whatever text follows it |
| `PlaylistLiteral.QuotedURIIs` | ops/continuous_validate.go:217-228 | the URI of a tag is the text between the quotes after its first URI= |
| `PlaylistLiteral.EmittedLines` | ops/hls_continuous_align.go:283-344 | the lines emitted for two published segments, written out |
| `PlaylistLiteral.LinesParse` | ops/continuous_validate.go:149-215 | and what the parser makes of those lines |
| `PlaylistText.ServedPlaylistRoundTrips` | ops/hls_continuous_align.go:283-344 | from any muxer list that parses, the served playlist parses to the same header lines, to the init URI of that header (the list's own when no map tag follows an entry) and to the published prefix; the end tag is there exactly when complete; no entry is longer than the target |
| `Decimals.MillisecondsAreFaithful` | ops/hls_continuous_align.go:325-352 | numbers to the millisecond, printed and read in decimal, are an instance of what the playlist results ask of numbers |

## Left out

- The ffmpeg and ffprobe processes, argument building, contexts, timers, real files and their errors: steps of the environment, or absent.
- Float rounding, decimal printing and parsing, JSON and fingerprints.
- Capability detection, encoder choice, filter chains, stderr classification, remediation hints, reports and labels: finite tables.
- `vodInputSeekMediaSec` (ops/hls_vod_job.go:430-439): the seek of `CopyCuts.SeekPoint` under another condition.
- `BuildVODPlaylist` (ops/hls_vod.go:161-187): text with no reader in the repository; its target duration is in `Lookup`.
- The readers of init timescales (mp4/init_timescale.go:6-102): the timescales are a parameter.
- `patchTFDTs`, `addTFDTOffset` and `setTFDTTicks` (mp4/tfdt.go:92-120, 241-243, 277-294): the same walk with a constant in place of the delta.
- `filterMatroskaSeekNoise` (ops/hls_vt_stderr.go:104-126): it filters write by write, so its output does depend on the chunks.
- Monitors.DecodeNoise: the lower-case mapping of a line is a parameter, since the results hold for every mapping.
- The rewriting of playlists after the fact (ops/hls_continuous_align.go:355-443) and whole-output validation (ops/continuous_validate.go:22-134).
- PlaylistText.Lex: blanks are the ASCII ones; the Unicode blanks that Go also trims are not modelled.
- Publisher.Run: a pass that finds no playlist, or one torn by the muxer, changes nothing and is not a step; servable files are not deleted during a run.
- Segment names beyond five digits, whose sorting is not by index, and names only a person would write.
- `explicitCopyJobActive` and what a waiter checks before it opens a segment (ops/hls_vod_session.go:209-249): in `Protocol` a reader may come at any moment.
- Direct host calls that replace the tracked job or partial segment.
- Session.HLSVODSession.DeferUnlinkPath: one call sees one state of the disk; in `Protocol` its check, its locked decision and its removal are three steps.
- Session.HLSVODSession.ReleaseServePath: the object's method ends with its locked region; the removal it decides is a step of `Protocol`.
- InitBoxes.WalkBoxes: nothing is promised of a call that never ends, which has no result; `Walked` says which calls those are.
- InitBoxes.MoovChildrenComplete: the same, by `MoovVerdict`.
- InitBoxes.InitComplete: the same, by `InitVerdict`.
- Fairness and waiting times: the limiter is shown free of deadlock, not of starvation.
