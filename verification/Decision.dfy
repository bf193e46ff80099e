/** The serve, wait or restart rule for one segment request. */
module Decision {
  const DEFAULT_SEGMENT_SEC: real := 4.0
  const DEFAULT_GAP_SEC: real := 24.0

  datatype Action = Serve | Wait | Restart

  /** A snapshot of the encode job; `head` is the smallest index it has not completed. */
  datatype JobView = JobView(running: bool, start: int, head: int)

  datatype Config = Config(segmentSec: real, gapSec: real, count: int)

  /** How many segments ahead of the head a request may wait. */
  function MaxWaitGap(segmentSec: real, gapSec: real): (gap: int)
    ensures gap >= 1
  {
    var segment := if segmentSec <= 0.0 then DEFAULT_SEGMENT_SEC else segmentSec;
    var window := if gapSec <= 0.0 then DEFAULT_GAP_SEC else gapSec;
    var gap := (window / segment).Floor;
    if gap < 1 then 1 else gap
  }

  function Gap(c: Config): (gap: int)
    ensures gap >= 1
  {
    MaxWaitGap(c.segmentSec, c.gapSec)
  }

  /** A request past the end stands for the last segment. */
  function Clamped(c: Config, k: int): int {
    if c.count > 0 && k >= c.count then c.count - 1 else k
  }

  function Decide(c: Config, job: JobView, k: int, ready: bool): Action {
    var target := Clamped(c, k);
    if ready then Serve
    else if !job.running then Restart
    else if target < job.start then Restart
    else if target - job.head <= Gap(c) then Wait
    else Restart
  }

  lemma FloorQuotient(window: real, segment: real)
    requires segment > 0.0
    ensures var f := (window / segment).Floor;
      f as real * segment <= window < (f + 1) as real * segment
  {
    var f := (window / segment).Floor;
    Multiply(window, segment, window / segment);
    Bracket(window, segment, window / segment, f as real, (f + 1) as real);
  }

  lemma Bracket(window: real, segment: real, q: real, lo: real, hi: real)
    requires segment > 0.0 && q * segment == window && lo <= q < hi
    ensures lo * segment <= window < hi * segment
  {
    Scale(lo, q, segment);
    Scale(q, hi, segment);
  }

  lemma Multiply(window: real, segment: real, q: real)
    requires segment > 0.0 && q == window / segment
    ensures q * segment == window
  {}

  lemma Scale(a: real, b: real, segment: real)
    requires segment > 0.0
    ensures a <= b ==> a * segment <= b * segment
    ensures a < b ==> a * segment < b * segment
  {}

  /** The gap is the whole number of segments in the window, but never less than one. */
  lemma GapFillsWindow(c: Config)
    requires c.segmentSec > 0.0 && c.gapSec > 0.0
    ensures c.gapSec < (Gap(c) + 1) as real * c.segmentSec
    ensures Gap(c) > 1 ==> Gap(c) as real * c.segmentSec <= c.gapSec
  {
    FloorQuotient(c.gapSec, c.segmentSec);
    Scale(((c.gapSec / c.segmentSec).Floor + 1) as real, (Gap(c) + 1) as real, c.segmentSec);
  }

  lemma MultiplesWithin(n: int, f: int, segment: real, window: real)
    requires segment > 0.0 && f as real * segment <= window < (f + 1) as real * segment
    ensures n <= f <==> n as real * segment <= window
  {
    if n <= f {
      Scale(n as real, f as real, segment);
    } else {
      Scale((f + 1) as real, n as real, segment);
    }
  }

  /** The request lies no more than the window of media ahead of the head; a window under a segment counts as one. */
  predicate InWindow(segmentSec: real, gapSec: real, ahead: int) {
    var segment := if segmentSec <= 0.0 then 4.0 else segmentSec;
    var window := if gapSec <= 0.0 then 24.0 else gapSec;
    if segment <= window then ahead as real * segment <= window else ahead <= 1
  }

  /** The gap in segments is that window in seconds. */
  lemma GapIsWindow(c: Config, ahead: int)
    ensures ahead <= Gap(c) <==> InWindow(c.segmentSec, c.gapSec, ahead)
  {
    var segment := if c.segmentSec <= 0.0 then 4.0 else c.segmentSec;
    var window := if c.gapSec <= 0.0 then 24.0 else c.gapSec;
    var f := (window / segment).Floor;
    FloorQuotient(window, segment);
    MultiplesWithin(ahead, f, segment, window);
    MultiplesWithin(1, f, segment, window);
  }

  /**
    * The whole rule, in seconds. A ready segment is served, and nothing else is. Another request waits exactly when a job
    * runs, the request is not before its start, and it is within the window ahead of the head; otherwise it restarts.
    */
  lemma DecideIff(c: Config, job: JobView, k: int, ready: bool)
    ensures var target := if c.count > 0 && k >= c.count then c.count - 1 else k;
      var waits := job.running && job.start <= target && InWindow(c.segmentSec, c.gapSec, target - job.head);
      && (Decide(c, job, k, ready) == Serve <==> ready)
      && (Decide(c, job, k, ready) == Wait <==> !ready && waits)
      && (Decide(c, job, k, ready) == Restart <==> !ready && !waits)
  {
    GapIsWindow(c, Clamped(c, k) - job.head);
  }

  /**
    * A seek far ahead: with segments of 4 s, a window of 24 s and a job that has done 0 to 2, of a request that is not
    * ready the one for 9 waits and the one for 10 restarts, whatever the length of the list.
    */
  lemma SeekRestarts(c: Config, job: JobView)
    requires c.segmentSec == 4.0 && c.gapSec == 24.0 && (c.count <= 0 || c.count > 10) && job == JobView(true, 0, 3)
    ensures Decide(c, job, 9, false) == Wait && Decide(c, job, 10, false) == Restart && Decide(c, job, 10, true) == Serve
  {
    DecideIff(c, job, 9, false);
    DecideIff(c, job, 10, false);
  }

  /** A request at or after the job's start and within the gap of it is never a reason to restart. */
  lemma NearStartWaits(c: Config, job: JobView, k: int)
    requires job.running && job.start <= job.head
    requires job.start <= Clamped(c, k) <= job.start + Gap(c)
    ensures Decide(c, job, k, false) == Wait
  {}
}
