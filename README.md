# Continuous recorder: segment scheduler, file naming and queue hand-off

This project models the scheduling core of the continuous audio recorder in
`1.py`. The recorder reads the clock once at start-up. It then loops while
the shared `recording_active` flag is set. On every pass it compares the
elapsed time with the nominal start `segment_counter * OVERLAP_SECONDS` of
the next segment. When that start has been reached it starts a capture
thread for the segment and increments the counter. Each thread records 30
seconds of audio to `recordings/audio_segment_{k:04d}.wav`. After a
successful capture and write it appends that file name to the back of the
shared `audio_queue`. A failed capture leaves the queue untouched.

The model has three modules:

- `SegmentNaming` (`naming.dfy`): the file name of segment `k`, with the
  zero padding of `{k:04d}` written out. It proves that the padded field
  reads back as `k`, so distinct segments get distinct files.
- `Scheduler` (`scheduler.dfy`): the recorder loop `ContinuousRecorder` as a
  `while` loop over the passes it observes. It is proved against `Recorded`,
  which gives the segments started over a run: `Run` over the passes before
  the first one that finds the flag cleared. The lemmas about `Run` and
  `FirstInactive` state the properties of the schedule.
- `AudioCapture` (`capture.dfy`): the shared deque as the class `AudioQueue`,
  the body of a capture thread as `RecordAudioSegment`, and `QueueAfter`,
  the queue after a run's captures complete in start order. The method
  `CompleteInOrder` runs those captures through `RecordAudioSegment` and is
  proved to leave the queue as `QueueAfter` says.

Time is an integer count of ticks. A tick is a tenth of a second, the length of
the loop's sleep; a pass takes at least that long, so the overlap of 15 seconds is `OverlapTicks` = 150. The
start-up clock reading is the parameter `startTime`. A run is the finite
sequence of `Poll`s the loop observed: at each pass, the value of
`recording_active` and the clock reading. Another thread may clear the flag
between passes, so the flag is an input of each pass. The loop ends at the
first pass that finds it cleared. The outcome of a capture (device
recording plus file write) is an input, `Captured` or `Failed`.

Where a reader might expect otherwise, the code behaves as follows, and so
does the model:

- The loop starts segment `k + 1` while segment `k` may still be recording.
  The code does not serialise access to the device.
- The queue is an unbounded deque, with no back-pressure.
- A failed capture is printed and dropped. There is no retry.
- The anchor `start_time` is never moved. A late start does not shift the
  nominal starts of later segments.

## Model

| member | source | states |
|---|---|---|
| `SegmentNaming.DigitsWellFormed` | 1.py:49 | the decimal numeral of an index is a non-empty string of digits |
| `SegmentNaming.DigitsLeadingDigit` | 1.py:49 | the numeral starts with `0` iff the index is 0: no leading zeros before padding |
| `SegmentNaming.DigitsLength` | 1.py:49 | the numeral has exactly as many digits as the magnitude of the index needs |
| `SegmentNaming.ValueDigits` | 1.py:49 | the numeral of an index reads back as that index |
| `SegmentNaming.ValueZeros` | 1.py:49 | zeros put in front of a numeral do not change the number it denotes |
| `SegmentNaming.Digits` | 1.py:49 | the decimal numeral of the index, as `{k:04d}` writes it before padding. Its properties are stated by `DigitsWellFormed`, `DigitsLeadingDigit`, `DigitsLength` and `ValueDigits` |
| `SegmentNaming.Pad4` | 1.py:49 | the `{k:04d}` field. Its properties are stated by `Pad4Shape`, `Pad4AllDigits`, `Pad4Width`, `Pad4Value` and `Pad4Injective` |
| `SegmentNaming.SegmentFilename` | 1.py:49 | `os.path.join(OUTPUT_DIR, f'audio_segment_{k:04d}.{AUDIO_FORMAT}')`. Its properties are stated by `SegmentFilenameParts`, `SegmentFilenameInjective`, `FirstSegmentFilenames` and `WideSegmentFilename` |
| `SegmentNaming.Pad4Shape` | 1.py:49 | the `{k:04d}` field is exactly `max(4, digits of k)` wide. It ends with the whole numeral of `k` (never truncated), preceded only by zeros |
| `SegmentNaming.Pad4AllDigits` | 1.py:49 | the `{k:04d}` field holds only decimal digits |
| `SegmentNaming.Pad4Width` | 1.py:49 | the `{k:04d}` field is exactly 4 wide iff `k < 10000` |
| `SegmentNaming.Pad4Value` | 1.py:49 | the padded field reads back as the index |
| `SegmentNaming.Pad4Injective` | 1.py:49 | distinct indices give distinct padded fields |
| `SegmentNaming.SegmentFilenameParts` | 1.py:49 | a segment file name is `recordings/audio_segment_`, then the padded index, then `.wav`, and the index field can be cut back out of it |
| `SegmentNaming.SegmentFilenameInjective` | 1.py:49 | distinct segment indices are recorded to distinct files |
| `SegmentNaming.NamesOfIncreasingSegmentsDistinct` | 1.py:49 | the names of strictly increasing segment indices are pairwise distinct |
| `SegmentNaming.NameListedIffSegmentListed` | 1.py:49 | in a list of segment names, the name of segment `k` occurs iff `k` is one of the segments named |
| `SegmentNaming.FirstSegmentFilenames` | 1.py:14-15 | segments 0 and 1 are written to `recordings/audio_segment_0000.wav` and `recordings/audio_segment_0001.wav` |
| `SegmentNaming.Digits12345` | 1.py:49 | the numeral of 12345 is `12345` |
| `SegmentNaming.WideSegmentFilename` | 1.py:49 | segment 12345 is written to `recordings/audio_segment_12345.wav`: a five-digit index is not cut |
| `Scheduler.NominalStart` | 1.py:45 | `segment_counter * OVERLAP_SECONDS`, in ticks. Its values are stated by `NominalStartsAtOverlap15`; `RunStep` and `RunStartsOnlyWhenDue` use it as the loop's threshold |
| `Scheduler.Due` | 1.py:46-48 | the loop's test `time_until_next_record <= 0`. `RunStep` states it as "elapsed time at least the nominal start" |
| `Scheduler.JobFor` | 1.py:49-55 | the thread arguments for segment `k`: its file name, 30 s, 44100 Hz, 1 channel. `JobsUpToJobs` and `RecordedJobs` state which threads the loop starts |
| `Scheduler.JobsUpTo` | 1.py:49-57 | the threads for segments `0` to `n - 1`, in order. Its contents are stated by `JobsUpToJobs` |
| `Scheduler.Run` | 1.py:37-57 | the segments started over passes that all find the flag set. Its properties are stated by `RunStep`, `RunPrefixStep`, `RunBounds`, `RunSegments`, `RunPollsIncrease`, `RunStartsOnlyWhenDue`, `RunExtends` and `BehindRunStartsOnePerPass` |
| `Scheduler.Recorded` | 1.py:40 | `Run` over the passes before the first that finds `recording_active` cleared. Its properties are stated by `StopIsFinal` and `RecordedJobs` |
| `Scheduler.JobsUpToJobs` | 1.py:52-55 | the first `n` threads are one per segment below `n`, the `i`th for segment `i` |
| `Scheduler.FirstInactive` | 1.py:40 | the loop never makes more passes than were observed |
| `Scheduler.FirstInactiveStops` | 1.py:40 | every pass the loop makes found `recording_active` set, and the pass where it stops found it cleared |
| `Scheduler.FirstInactiveIsFirst` | 1.py:40 | the loop stops at the first pass that finds the flag cleared, and at no other |
| `Scheduler.FirstInactivePrefix` | 1.py:40 | passes after the first cleared flag do not change where the loop stops |
| `Scheduler.RunStep` | 1.py:45-57 | a pass starts a segment iff the elapsed time is at least `segment_counter * overlap`. It then starts exactly that segment, at that pass, raising the counter by one. Otherwise nothing changes |
| `Scheduler.RunPrefixStep` | 1.py:45-57 | the same step, for the pass at a given position of a run |
| `Scheduler.RunBounds` | 1.py:40-57 | over any run, no more segments are started than there are passes, and every start happens at one of the run's passes |
| `Scheduler.RunSegments` | 1.py:37-57 | the segments started over a run are 0, 1, 2, ... in order, with no gap and no repeat |
| `Scheduler.RunPollsIncrease` | 1.py:48-57 | starts happen at strictly later passes: at most one segment per pass, with no catch-up burst when behind |
| `Scheduler.RunStartsOnlyWhenDue` | 1.py:38-48 | every segment `k` is started at a pass whose elapsed time is at least `k * overlap` after the single start-up reading |
| `Scheduler.RunExtends` | 1.py:57 | later passes only add starts: earlier starts are never revised and the counter never decreases |
| `Scheduler.StopIsFinal` | 1.py:40 | once a pass finds `recording_active` cleared, nothing observed afterwards starts a segment |
| `Scheduler.NominalStartsAtOverlap15` | 1.py:43-45 | with a 15-second overlap, segments 0, 1 and 2 are due at 0 s, 15 s and 30 s after start-up |
| `Scheduler.BehindRunStartsOnePerPass` | 1.py:58-61 | at 45.0 s segments 2 and 3 are both due, but the pass starts only segment 2. Segment 3 starts one pass later, because its start is still measured from the start-up reading and the anchor is not moved |
| `Scheduler.RecordedJobs` | 1.py:49-57 | over a recorded run, the `i`th thread started is the one for the `i`th segment started |
| `Scheduler.ContinuousRecorder` | 1.py:35-64 | the loop starts one capture thread per segment `Recorded` gives for the observed passes, in order. The `i`th thread is for segment `i`, with file `SegmentFilename(i)`, 30 s, 44100 Hz and 1 channel |
| `AudioCapture.AudioQueue.constructor` | 1.py:20 | the audio queue starts empty |
| `AudioCapture.AudioQueue.Append` | 1.py:31 | appending puts the file name at the back and keeps everything before it |
| `AudioCapture.RecordAudioSegment` | 1.py:23-33 | a successful capture appends exactly its own file name at the back of the queue. A failed one leaves the queue unchanged. Nothing else is modified |
| `AudioCapture.QueueAfter` | 1.py:31-33 | captures only add at the back: the queue keeps what it held, and gains at most one name per capture |
| `AudioCapture.CompleteInOrder` | 1.py:23-33 | the capture threads finishing one after another in start order, each as `RecordAudioSegment`, leave the queue exactly as `QueueAfter` says |
| `AudioCapture.Succeeded` | 1.py:31-33 | the positions of the successful captures, in strictly increasing order |
| `AudioCapture.SucceededComplete` | 1.py:31-33 | every successful capture's position is listed |
| `AudioCapture.QueueAfterRun` | 1.py:31 | when a run's captures finish in start order, the queue gains exactly the file names of the successful segments, in increasing segment order, behind what it held |
| `AudioCapture.QueueHasNoDuplicates` | 1.py:49 | over a recorder run no file name enters the queue twice |
| `AudioCapture.QueueHoldsSegmentIffCaptured` | 1.py:26-33 | over a recorder run, segment `k`'s file is in the queue iff its capture succeeded. A failure does not stop later segments from being queued |

## Left out

- The device and file calls `sd.rec`, `sd.wait` and `wavio.write` (1.py:27-29) are foreign I/O. A capture is its outcome, `Captured` or `Failed`. For the same reason the frame count `int(duration * samplerate)` is not modelled.
- `os.makedirs` (1.py:17) is file-system I/O.
- Each capture runs on its own thread (1.py:52-56), and the deque is shared across threads. The model treats each start as a sequential event and each capture's completion as one call of `RecordAudioSegment`.
- AudioCapture.QueueAfter: assumes captures complete in the order they were started. With threads the real completion order can differ. `RecordAudioSegment`'s contract holds for any order.
- `time.time()` and `time.sleep(0.1)` (1.py:38, 1.py:41, 1.py:64) are a floating-point wall clock and sleeping. Each pass sees an integer clock reading in tenths of a second. Sub-tick fractions of the float comparison at 1.py:48 are not modelled.
- Scheduler.ContinuousRecorder: loops forever in the source. The model covers any finite prefix of a run, the passes given as input.
- `os.path.join` is modelled with the POSIX separator `/`.
- `print` logging (1.py:25, 1.py:30, 1.py:33) is console output.
- The commented-out start-up and shutdown block (1.py:66-79) is dead code.
- Transcription, notification, retry with back-off, a bounded queue and device serialisation do not exist in `1.py`, so they are not modelled. `fullrecord record_text.py` is not part of this model.
