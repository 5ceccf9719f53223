/**
  The hand-off from capture to processing. A capture thread records its
  segment and writes the file; only when both succeed does it append the
  file name to the back of the shared audio queue. An exception anywhere in
  the capture leaves the queue as it was. The recording itself is not
  modelled: a capture is given by its outcome.
 */
module AudioCapture {
  import opened SegmentNaming
  import opened Scheduler

  /** How a capture thread ends: the file was written, or the capture raised. */
  datatype CaptureOutcome = Captured | Failed

  /** The shared deque of file names that are ready for processing. */
  class AudioQueue {
    var items: seq<string>

    constructor ()
      ensures items == []
    {
      items := [];
    }

    /** Adds a file name at the back. */
    method Append(filename: string)
      modifies this
      ensures items == old(items) + [filename]
    {
      items := items + [filename];
    }
  }

  /** The body of one capture thread, started with the arguments of `job`. */
  method RecordAudioSegment(queue: AudioQueue, job: CaptureJob, outcome: CaptureOutcome)
    modifies queue
    ensures queue.items == if outcome == Captured then old(queue.items) + [job.filename]
                           else old(queue.items)
  {
    if outcome == Captured {
      queue.Append(job.filename);
    }
  }

  /**
    The queue after the capture threads of `jobs` finish one after another in
    the order they were started, the `i`th ending with `outcomes[i]`; each
    step is what `RecordAudioSegment` does.
   */
  function QueueAfter(queue: seq<string>, jobs: seq<CaptureJob>, outcomes: seq<CaptureOutcome>): (r: seq<string>)
    requires |jobs| == |outcomes|
    ensures |queue| <= |r| <= |queue| + |jobs|
    ensures r[..|queue|] == queue
    decreases |jobs|
  {
    if jobs == [] then queue
    else
      var before := QueueAfter(queue, jobs[..|jobs| - 1], outcomes[..|outcomes| - 1]);
      if outcomes[|outcomes| - 1] == Captured then before + [jobs[|jobs| - 1].filename] else before
  }

  /**
    The capture threads of `jobs` finishing one after another in the order
    they were started, the `i`th with outcome `outcomes[i]`: the queue ends
    up as `QueueAfter` says.
   */
  method CompleteInOrder(queue: AudioQueue, jobs: seq<CaptureJob>, outcomes: seq<CaptureOutcome>)
    requires |jobs| == |outcomes|
    modifies queue
    ensures queue.items == QueueAfter(old(queue.items), jobs, outcomes)
  {
    var i := 0;
    while i < |jobs|
      invariant i <= |jobs|
      invariant queue.items == QueueAfter(old(queue.items), jobs[..i], outcomes[..i])
    {
      assert jobs[..i + 1][..i] == jobs[..i];
      assert outcomes[..i + 1][..i] == outcomes[..i];
      RecordAudioSegment(queue, jobs[i], outcomes[i]);
      i := i + 1;
    }
    assert jobs[..i] == jobs && outcomes[..i] == outcomes;
  }

  /** The positions of the successful captures, in increasing order. */
  function Succeeded(outcomes: seq<CaptureOutcome>): (s: seq<nat>)
    ensures forall a :: 0 <= a < |s| ==> s[a] < |outcomes| && outcomes[s[a]] == Captured
    ensures forall a, b :: 0 <= a < b < |s| ==> s[a] < s[b]
    decreases |outcomes|
  {
    if outcomes == [] then []
    else
      var before := Succeeded(outcomes[..|outcomes| - 1]);
      if outcomes[|outcomes| - 1] == Captured then before + [|outcomes| - 1] else before
  }

  /** Every successful capture is listed by `Succeeded`. */
  lemma {:induction false} SucceededComplete(outcomes: seq<CaptureOutcome>, k: nat)
    requires k < |outcomes| && outcomes[k] == Captured
    ensures k in Succeeded(outcomes)
    decreases |outcomes|
  {
    if k < |outcomes| - 1 {
      var init := outcomes[..|outcomes| - 1];
      SucceededComplete(init, k);
    }
  }

  /**
    When the threads of a recorder run finish in start order, the queue gains
    the file names of the successful segments, in increasing segment order,
    behind what it held before.
   */
  lemma {:induction false} QueueAfterRun(queue: seq<string>, jobs: seq<CaptureJob>, outcomes: seq<CaptureOutcome>)
    requires |jobs| == |outcomes|
    requires forall i :: 0 <= i < |jobs| ==> jobs[i] == JobFor(i)
    ensures var r := QueueAfter(queue, jobs, outcomes);
      var s := Succeeded(outcomes);
      |r| == |queue| + |s|
      && forall a :: |queue| <= a < |r| ==> r[a] == SegmentFilename(s[a - |queue|])
    decreases |jobs|
  {
    if jobs != [] {
      QueueAfterRun(queue, jobs[..|jobs| - 1], outcomes[..|outcomes| - 1]);
    }
  }

  /** Over a recorder run, no file name reaches the queue twice. */
  lemma QueueHasNoDuplicates(jobs: seq<CaptureJob>, outcomes: seq<CaptureOutcome>)
    requires |jobs| == |outcomes|
    requires forall i :: 0 <= i < |jobs| ==> jobs[i] == JobFor(i)
    ensures var r := QueueAfter([], jobs, outcomes);
      forall a, b :: 0 <= a < b < |r| ==> r[a] != r[b]
  {
    QueueAfterRun([], jobs, outcomes);
    NamesOfIncreasingSegmentsDistinct(QueueAfter([], jobs, outcomes), Succeeded(outcomes));
  }

  /**
    Over a recorder run, the file of segment `k` reaches the queue exactly
    when its capture succeeded: a failure adds nothing and stops nothing later.
   */
  lemma QueueHoldsSegmentIffCaptured(jobs: seq<CaptureJob>, outcomes: seq<CaptureOutcome>, k: nat)
    requires |jobs| == |outcomes|
    requires forall i :: 0 <= i < |jobs| ==> jobs[i] == JobFor(i)
    requires k < |jobs|
    ensures SegmentFilename(k) in QueueAfter([], jobs, outcomes) <==> outcomes[k] == Captured
  {
    QueueAfterRun([], jobs, outcomes);
    NameListedIffSegmentListed(QueueAfter([], jobs, outcomes), Succeeded(outcomes), k);
    if outcomes[k] == Captured {
      SucceededComplete(outcomes, k);
    }
  }
}
