/**
  The segment scheduler of the continuous recorder. The recorder reads the
  clock once at start-up, then polls: at every pass of its loop it checks the
  shared `recording_active` flag, reads the clock, and starts the capture of
  segment `k = segment_counter` when the nominal start `k * overlap` of that
  segment, measured from the single start-up reading, has been reached; each
  start increments the counter. Nothing in the loop ever moves the anchor.

  Clock readings are whole ticks of a tenth of a second, the loop's sleep
  between passes; a pass takes at least one tick. A run is given as the finite sequence of what the loop observed at
  each pass: the value of the flag and the clock reading.
 */
module Scheduler {
  import opened SegmentNaming

  const RecordDurationSeconds: nat := 30
  const OverlapSeconds: nat := 15
  const SampleRate: nat := 44100
  const Channels: nat := 1

  /** Clock ticks per second. */
  const TicksPerSecond: nat := 10
  /** Spacing of nominal segment starts, in ticks. */
  const OverlapTicks: nat := OverlapSeconds * TicksPerSecond

  /** What one pass of the loop observes: the `recording_active` flag, then the clock. */
  datatype Poll = Poll(active: bool, now: int)

  /** The arguments a capture thread is started with, and the segment it is for. */
  datatype CaptureJob = CaptureJob(
    segment: nat,
    filename: string,
    durationSeconds: nat,
    sampleRate: nat,
    channels: nat)

  /** Segment `segment` was started at the pass with position `poll` in the run. */
  datatype Dispatch = Dispatch(segment: nat, poll: nat)

  /** Ticks from the start-up clock reading to the nominal start of segment `k`. */
  function NominalStart(k: nat): nat {
    k * OverlapTicks
  }

  /** The loop's test: the time until segment `k` is due is not positive. */
  predicate Due(k: nat, elapsed: int) {
    NominalStart(k) - elapsed <= 0
  }

  /** The capture thread the loop starts for segment `k`. */
  function JobFor(k: nat): CaptureJob {
    CaptureJob(k, SegmentFilename(k), RecordDurationSeconds, SampleRate, Channels)
  }

  /** The capture threads for segments `0` to `n - 1`, in that order. */
  function JobsUpTo(n: nat): seq<CaptureJob> {
    if n == 0 then [] else JobsUpTo(n - 1) + [JobFor(n - 1)]
  }

  /** `JobsUpTo(n)` holds one thread per segment below `n`, the `i`th for segment `i`. */
  lemma {:induction false} JobsUpToJobs(n: nat)
    ensures |JobsUpTo(n)| == n
    ensures forall i :: 0 <= i < n ==> JobsUpTo(n)[i] == JobFor(i)
  {
    if n > 0 {
      var before := JobsUpTo(n - 1);
      JobsUpToJobs(n - 1);
      assert JobsUpTo(n) == before + [JobFor(n - 1)];
      forall i | 0 <= i < n
        ensures JobsUpTo(n)[i] == JobFor(i)
      {
        if i < n - 1 {
          assert JobsUpTo(n)[i] == before[i];
        }
      }
    }
  }

  /**
    The segments started over a run in which the flag stayed set at every pass,
    with `startTime` the start-up clock reading. The counter before a pass is
    the number of segments started so far.
   */
  function Run(startTime: int, polls: seq<Poll>): seq<Dispatch>
    decreases |polls|
  {
    if polls == [] then []
    else
      var earlier := Run(startTime, polls[..|polls| - 1]);
      var last := polls[|polls| - 1];
      if Due(|earlier|, last.now - startTime)
      then earlier + [Dispatch(|earlier|, |polls| - 1)]
      else earlier
  }

  /** The number of passes before the loop finds the flag cleared. */
  function FirstInactive(polls: seq<Poll>): (n: nat)
    ensures n <= |polls|
  {
    if polls == [] || !polls[0].active then 0 else 1 + FirstInactive(polls[1..])
  }

  /** Every pass before `FirstInactive` finds the flag set, and the pass it names finds it cleared. */
  lemma {:induction false} FirstInactiveStops(polls: seq<Poll>)
    ensures forall i :: 0 <= i < FirstInactive(polls) ==> polls[i].active
    ensures FirstInactive(polls) < |polls| ==> !polls[FirstInactive(polls)].active
  {
    if polls != [] && polls[0].active {
      FirstInactiveStops(polls[1..]);
      assert forall i :: 1 <= i < FirstInactive(polls) ==> polls[i] == polls[1..][i - 1];
    }
  }

  /** The segments started over a run: the loop ends at the first pass that finds the flag cleared. */
  function Recorded(startTime: int, polls: seq<Poll>): seq<Dispatch> {
    Run(startTime, polls[..FirstInactive(polls)])
  }

  /**
    One pass: it starts a segment exactly when the elapsed time has reached the
    nominal start of the current one, and then only that one, at this pass;
    otherwise nothing changes.
   */
  lemma RunStep(startTime: int, polls: seq<Poll>, p: Poll)
    ensures var before := Run(startTime, polls);
      Run(startTime, polls + [p])
        == if p.now - startTime >= NominalStart(|before|)
           then before + [Dispatch(|before|, |polls|)]
           else before
  {
    assert (polls + [p])[..|polls|] == polls;
  }

  /** `RunStep` for the pass at position `i` of a run. */
  lemma RunPrefixStep(startTime: int, polls: seq<Poll>, i: nat)
    requires i < |polls|
    ensures var before := Run(startTime, polls[..i]);
      Run(startTime, polls[..i + 1])
        == if polls[i].now - startTime >= NominalStart(|before|)
           then before + [Dispatch(|before|, i)]
           else before
  {
    assert polls[..i + 1] == polls[..i] + [polls[i]];
    RunStep(startTime, polls[..i], polls[i]);
  }

  /** A run starts at most one segment per pass, each at one of its own passes. */
  lemma {:induction false} RunBounds(startTime: int, polls: seq<Poll>)
    ensures var d := Run(startTime, polls);
      |d| <= |polls| && forall i :: 0 <= i < |d| ==> d[i].poll < |polls|
    decreases |polls|
  {
    if polls != [] {
      var init := polls[..|polls| - 1];
      assert polls == init + [polls[|polls| - 1]];
      RunBounds(startTime, init);
      RunStep(startTime, init, polls[|polls| - 1]);
    }
  }

  /** The segments started over a run are 0, 1, 2, ... in order, with no gap and no repeat. */
  lemma {:induction false} RunSegments(startTime: int, polls: seq<Poll>)
    ensures var d := Run(startTime, polls);
      forall i :: 0 <= i < |d| ==> d[i].segment == i
    decreases |polls|
  {
    if polls != [] {
      var init := polls[..|polls| - 1];
      assert polls == init + [polls[|polls| - 1]];
      RunSegments(startTime, init);
      RunStep(startTime, init, polls[|polls| - 1]);
    }
  }

  /** Starts happen at strictly later passes: never two in one pass, however far behind. */
  lemma {:induction false} RunPollsIncrease(startTime: int, polls: seq<Poll>)
    ensures var d := Run(startTime, polls);
      forall i, j :: 0 <= i < j < |d| ==> d[i].poll < d[j].poll
    decreases |polls|
  {
    if polls != [] {
      var init := polls[..|polls| - 1];
      assert polls == init + [polls[|polls| - 1]];
      RunPollsIncrease(startTime, init);
      RunBounds(startTime, init);
      RunStep(startTime, init, polls[|polls| - 1]);
    }
  }

  /** A segment is started only at a pass where the elapsed time has reached its nominal start. */
  lemma {:induction false} RunStartsOnlyWhenDue(startTime: int, polls: seq<Poll>)
    ensures var d := Run(startTime, polls);
      forall i :: 0 <= i < |d| ==>
        d[i].poll < |polls| && polls[d[i].poll].now - startTime >= NominalStart(d[i].segment)
    decreases |polls|
  {
    if polls != [] {
      var init := polls[..|polls| - 1];
      assert polls == init + [polls[|polls| - 1]];
      RunStartsOnlyWhenDue(startTime, init);
      RunBounds(startTime, polls);
      RunStep(startTime, init, polls[|polls| - 1]);
      RunSegments(startTime, init);
      var d := Run(startTime, polls);
      forall i | 0 <= i < |d|
        ensures d[i].poll < |polls| && polls[d[i].poll].now - startTime >= NominalStart(d[i].segment)
      {
        if i < |Run(startTime, init)| {
          assert polls[d[i].poll] == init[d[i].poll];
        }
      }
    }
  }

  /**
    Later passes only add starts: what a run has started is never revised,
    so the counter never decreases.
   */
  lemma {:induction false} RunExtends(startTime: int, polls: seq<Poll>, more: seq<Poll>)
    ensures var d := Run(startTime, polls);
      var e := Run(startTime, polls + more);
      |d| <= |e| && e[..|d|] == d
    decreases |more|
  {
    if more == [] {
      assert polls + more == polls;
    } else {
      var init := more[..|more| - 1];
      RunExtends(startTime, polls, init);
      assert polls + more == (polls + init) + [more[|more| - 1]];
      RunStep(startTime, polls + init, more[|more| - 1]);
    }
  }

  /** Once a pass finds the flag cleared, nothing the run would observe afterwards starts a segment. */
  lemma {:induction false} StopIsFinal(startTime: int, polls: seq<Poll>, now: int, rest: seq<Poll>)
    ensures Recorded(startTime, polls + [Poll(false, now)] + rest) == Recorded(startTime, polls)
  {
    var all := polls + [Poll(false, now)] + rest;
    var n := FirstInactive(polls);
    FirstInactivePrefix(polls, [Poll(false, now)] + rest);
    assert all == polls + ([Poll(false, now)] + rest);
    assert all[..n] == polls[..n];
  }

  /** Passes after the first cleared flag do not change where the loop stops. */
  lemma {:induction false} FirstInactivePrefix(polls: seq<Poll>, rest: seq<Poll>)
    requires rest != [] && !rest[0].active
    ensures FirstInactive(polls + rest) == FirstInactive(polls)
    decreases |polls|
  {
    if polls != [] {
      assert (polls + rest)[1..] == polls[1..] + rest;
      FirstInactivePrefix(polls[1..], rest);
    }
  }

  /** With a 15-second overlap, segments 0, 1 and 2 are due at 0 s, 15 s and 30 s. */
  lemma NominalStartsAtOverlap15()
    ensures NominalStart(0) == 0
    ensures NominalStart(1) == 15 * TicksPerSecond
    ensures NominalStart(2) == 30 * TicksPerSecond
  {
  }

  /**
    A run that falls behind: 45.0 s after start-up segments 2 and 3 are both due, one pass
    starts only segment 2, and segment 3 follows at the next pass, at least a tenth
    of a second later, since its start is still measured from the start-up reading.
   */
  lemma BehindRunStartsOnePerPass(t0: int)
    ensures var polls := [Poll(true, t0), Poll(true, t0 + 149), Poll(true, t0 + 150),
                          Poll(true, t0 + 450), Poll(true, t0 + 451), Poll(true, t0 + 452)];
      Run(t0, polls)
        == [Dispatch(0, 0), Dispatch(1, 2), Dispatch(2, 3), Dispatch(3, 4)]
  {
    var p0, p1, p2 := Poll(true, t0), Poll(true, t0 + 149), Poll(true, t0 + 150);
    var p3, p4, p5 := Poll(true, t0 + 450), Poll(true, t0 + 451), Poll(true, t0 + 452);
    assert OverlapTicks == 150;
    assert NominalStart(1) == 150 && NominalStart(2) == 300;
    assert NominalStart(3) == 450 && NominalStart(4) == 600;
    var d1 := [Dispatch(0, 0)];
    var d2 := d1 + [Dispatch(1, 2)];
    var d3 := d2 + [Dispatch(2, 3)];
    var d4 := d3 + [Dispatch(3, 4)];
    RunStep(t0, [], p0);
    assert [] + [p0] == [p0];
    var q1 := [p0];
    assert Run(t0, q1) == d1;
    var q2 := q1 + [p1];
    RunStep(t0, q1, p1);
    var q3 := q2 + [p2];
    RunStep(t0, q2, p2);
    assert Run(t0, q3) == d2;
    var q4 := q3 + [p3];
    RunStep(t0, q3, p3);
    assert Run(t0, q4) == d3;
    var q5 := q4 + [p4];
    RunStep(t0, q4, p4);
    assert Run(t0, q5) == d4;
    var q6 := q5 + [p5];
    RunStep(t0, q5, p5);
    assert Run(t0, q6) == d4;
    assert q6 == [p0, p1, p2, p3, p4, p5];
    assert d4 == [Dispatch(0, 0), Dispatch(1, 2), Dispatch(2, 3), Dispatch(3, 4)];
  }

  /**
    The recorder loop over the passes it observes. The capture threads it
    starts are returned in the order it starts them.
   */
  method ContinuousRecorder(startTime: int, polls: seq<Poll>) returns (jobs: seq<CaptureJob>)
    ensures jobs == JobsUpTo(|Recorded(startTime, polls)|)
    ensures |jobs| == |Recorded(startTime, polls)|
    ensures forall i :: 0 <= i < |jobs| ==> jobs[i] == JobFor(Recorded(startTime, polls)[i].segment)
  {
    var segmentCounter: nat := 0;
    jobs := [];
    var i := 0;
    FirstInactiveStops(polls);
    while i < |polls| && polls[i].active
      invariant i <= |polls|
      invariant i <= FirstInactive(polls)
      invariant segmentCounter == |Run(startTime, polls[..i])|
      invariant jobs == JobsUpTo(segmentCounter)
    {
      var currentTime := polls[i].now;
      var nextRecordStartOffset := segmentCounter * OverlapTicks;
      var timeUntilNextRecord := nextRecordStartOffset - (currentTime - startTime);
      assert nextRecordStartOffset == NominalStart(segmentCounter);
      RunPrefixStep(startTime, polls, i);
      if timeUntilNextRecord <= 0 {
        var filename := SegmentFilename(segmentCounter);
        jobs := jobs + [CaptureJob(segmentCounter, filename, RecordDurationSeconds, SampleRate, Channels)];
        segmentCounter := segmentCounter + 1;
      }
      i := i + 1;
    }
    assert i == FirstInactive(polls);
    RecordedJobs(startTime, polls);
  }

  /** The `i`th thread of `JobsUpTo` over a recorded run is the one for the `i`th segment started. */
  lemma RecordedJobs(startTime: int, polls: seq<Poll>)
    ensures var d := Recorded(startTime, polls);
      |JobsUpTo(|d|)| == |d|
      && forall i :: 0 <= i < |d| ==> JobsUpTo(|d|)[i] == JobFor(d[i].segment)
  {
    var d := Recorded(startTime, polls);
    assert d == Run(startTime, polls[..FirstInactive(polls)]);
    RunSegments(startTime, polls[..FirstInactive(polls)]);
    JobsUpToJobs(|d|);
    forall i | 0 <= i < |d|
      ensures JobsUpTo(|d|)[i] == JobFor(d[i].segment)
    {
      assert d[i].segment == i;
    }
  }

  /** The first pass that finds the flag cleared is the one `FirstInactive` names. */
  lemma {:induction false} FirstInactiveIsFirst(polls: seq<Poll>, n: nat)
    requires n <= |polls|
    requires forall i :: 0 <= i < n ==> polls[i].active
    requires n < |polls| ==> !polls[n].active
    ensures FirstInactive(polls) == n
    decreases n
  {
    if n > 0 {
      FirstInactiveIsFirst(polls[1..], n - 1);
    }
  }
}
