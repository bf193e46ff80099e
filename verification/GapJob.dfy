/** Jobs bounded by a hand-off segment: where they are told to stop, and what they write before it. */
module GapJob {
  import opened Wrappers
  import opened Timeline
  import opened CopyPlan
  import opened CopyCuts

  const REMUX_PAD: real := 0.5

  /** Where the output clock of a job starts on the media timeline. */
  function Base(copy: bool, remux: bool, seekTimes: seq<real>, startSec: real, inputStart: real): real {
    if !copy then startSec
    else
      var seek := SeekPoint(seekTimes, startSec);
      if remux && seek + inputStart > START_EPSILON then seek + REMUX_PAD else seek
  }

  /** The planned end of a job that stops before `stop`: the list's start when it has one, the grid's otherwise. */
  function BoundSec(starts: Option<seq<real>>, startIndex: nat, stop: nat, startSec: real, segmentSec: real): real
    requires stop > startIndex
  {
    if starts.Some? && stop < |starts.value| then starts.value[stop] else startSec + Mark(stop - startIndex, segmentSec)
  }

  /** The output length a job is given, 0 for none. */
  function StopDuration(starts: Option<seq<real>>, startIndex: nat, stop: int, startSec: real, segmentSec: real, base: real): real {
    if stop <= startIndex then 0.0
    else
      var d := BoundSec(starts, startIndex, stop, startSec, segmentSec) - base;
      if d <= 0.0 then 0.0 else d
  }

  /** A bounded job ends exactly on its bound if and only if its clock starts before it; otherwise it runs unbounded. */
  lemma StopsOnBound(starts: Option<seq<real>>, startIndex: nat, stop: int, startSec: real, segmentSec: real, base: real)
    requires stop > startIndex
    ensures var d, bound := StopDuration(starts, startIndex, stop, startSec, segmentSec, base),
                            BoundSec(starts, startIndex, stop, startSec, segmentSec);
      && (d > 0.0 <==> base < bound)
      && (base + d == bound <==> base <= bound)
  {}

  /** A job is given no output length when its stop is not after its start. */
  lemma NoStopNoBound(starts: Option<seq<real>>, startIndex: nat, stop: int, startSec: real, segmentSec: real, base: real)
    requires stop <= startIndex
    ensures StopDuration(starts, startIndex, stop, startSec, segmentSec, base) == 0.0
  {}

  /**
    * A remux job that seeks past the first millisecond of its container is given half a second less than a copy job with
    * the same bound, and no output length when there is no more than that left.
    */
  lemma RemuxRunsShorter(starts: Option<seq<real>>, m: nat, s: int, startSec: real, segment: real, seekTimes: seq<real>,
                         inputStart: real)
    ensures var copy := StopDuration(starts, m, s, startSec, segment, Base(true, false, seekTimes, startSec, inputStart));
      StopDuration(starts, m, s, startSec, segment, Base(true, true, seekTimes, startSec, inputStart))
      == if SeekPoint(seekTimes, startSec) + inputStart <= 0.001 then copy else if copy > 0.5 then copy - 0.5 else 0.0
  {}

  lemma MarksAdd(i: nat, j: nat, segment: real)
    ensures Mark(i, segment) + Mark(j, segment) == Mark(i + j, segment)
  {}

  /** On the grid it makes no difference whether the bound is read off the list or counted in segments. */
  lemma GridBoundAgrees(duration: real, segment: real, m: nat, s: nat)
    requires segment > 0.0 && m < s < |FixedPlan(duration, segment).starts|
    ensures var starts := FixedPlan(duration, segment).starts;
      BoundSec(Some(starts), m, s, starts[m], segment) == BoundSec(None, m, s, starts[m], segment)
  {
    MarksAdd(m, s - m, segment);
  }

  /**
    * A transcode job of the grid, which needs no keyframe: its clock starts at its first segment, and with a hand-off
    * segment s its output lasts exactly the segments from m to s - 1, however its bound is read and wherever keyframes are.
    */
  lemma TranscodeGapJob(duration: real, segment: real, m: nat, s: nat, remux: bool, seekTimes: seq<real>, inputStart: real,
                        list: Option<seq<real>>)
    requires duration > 0.0 && segment > 0.0 && m < s < |FixedPlan(duration, segment).starts|
    requires list.Some? ==> list.value == FixedPlan(duration, segment).starts
    ensures var starts := FixedPlan(duration, segment).starts;
      var length := StopDuration(list, m, s, starts[m], segment, Base(false, remux, seekTimes, starts[m], inputStart));
      length == (s - m) as real * segment && length > 0.0 && starts[m] + length == starts[s]
  {
    FixedPlanIsGrid(duration, segment);
    GridBoundAgrees(duration, segment, m, s);
    MarksAdd(m, s - m, segment);
    Scales(0.0, (s - m) as real, segment);
  }

  // ---- what the bounded job writes

  /** The keyframes a job sees that stops at `bound`. */
  function Before(stream: seq<real>, bound: real): seq<real> {
    if stream == [] then []
    else if stream[0] < bound then [stream[0]] + Before(stream[1..], bound)
    else Before(stream[1..], bound)
  }

  lemma {:induction false} BeforeHas(stream: seq<real>, bound: real)
    ensures forall k :: k in Before(stream, bound) <==> k in stream && k < bound
  {
    if stream != [] {
      BeforeHas(stream[1..], bound);
      assert forall k :: k in stream <==> k == stream[0] || k in stream[1..];
    }
  }

  lemma {:induction false} BeforeIncreasing(stream: seq<real>, bound: real)
    requires Increasing(stream)
    ensures Increasing(Before(stream, bound))
  {
    if stream != [] {
      FirstIsLeast(stream);
      BeforeIncreasing(stream[1..], bound);
      BeforeHas(stream[1..], bound);
      var rest := Before(stream[1..], bound);
      forall i | 0 <= i < |rest|
        ensures rest[i] > stream[0]
      {
        assert rest[i] in rest;
      }
    }
  }

  /** Times no frame reaches cut nothing. */
  lemma {:induction false} UnreachedTimes(frames: seq<real>, times: seq<real>, n: nat)
    requires n < |times| && forall k <- frames :: k < times[n]
    ensures MuxCuts(frames, times) == MuxCuts(frames, times[..n])
  {
    if frames != [] {
      assert frames[0] in frames && forall k <- frames[1..] :: k in frames;
      if frames[0] >= times[0] {
        assert times[1..][n - 1] == times[n] && times[..n][1..] == times[1..][..n - 1];
        UnreachedTimes(frames[1..], times[1..], n - 1);
      } else {
        UnreachedTimes(frames[1..], times, n);
      }
    }
  }

  lemma BracketsPrefix(times: seq<real>, bounds: seq<real>, n: nat)
    requires Brackets(times, bounds) && n <= |times|
    ensures Brackets(times[..n], bounds[..n])
  {}

  lemma CutsBefore(frames: seq<real>, times: seq<real>, bounds: seq<real>, n: nat)
    requires Increasing(frames) && Brackets(times, bounds) && n < |times|
    requires forall k <- frames :: k < times[n]
    requires forall b <- bounds[..n] :: b in frames
    requires forall i :: 0 <= i < n ==> NoneBetween(frames, times[i], bounds[i])
    ensures MuxCuts(frames, times) == bounds[..n]
  {
    UnreachedTimes(frames, times, n);
    BracketsPrefix(times, bounds, n);
    assert Clear(frames, times[..n], bounds[..n]);
    CutsAtBounds(frames, times[..n], bounds[..n]);
  }

  /** The frames of a bounded job, on its own clock. */
  lemma BoundedFrames(stream: seq<real>, starts: seq<real>, m: nat, s: nat, frames: seq<real>)
    requires Increasing(stream) && m < s < |starts| && TwoMillisecondsClear(stream, starts)
    requires frames == FramesFrom(Before(stream, starts[s]), starts[m])
    ensures Increasing(frames)
    ensures forall k <- frames :: k < Emitted(starts[s] - starts[m])
    ensures forall i :: m < i < |starts| ==> NoneBetween(frames, Emitted(starts[i] - starts[m]), starts[i] - starts[m])
  {
    var seek := starts[m];
    BeforeHas(stream, starts[s]);
    BeforeIncreasing(stream, starts[s]);
    FramesFromIncreasing(Before(stream, starts[s]), seek);
    FramesFromHas(Before(stream, starts[s]), seek);
    forall k <- frames
      ensures k < Emitted(starts[s] - seek)
    {
      assert k + seek in stream && k + seek < starts[s];
      EmittedBias(starts[s] - seek);
    }
    forall i | m < i < |starts|
      ensures NoneBetween(frames, Emitted(starts[i] - seek), starts[i] - seek)
    {
      EmittedBias(starts[i] - seek);
      forall k <- frames
        ensures !(Emitted(starts[i] - seek) <= k < starts[i] - seek)
      {
        assert k + seek in stream;
      }
    }
  }

  lemma BoundedHasStarts(stream: seq<real>, starts: seq<real>, m: nat, s: nat, i: nat)
    requires m < i < s < |starts| && Apart(starts) && starts[i] in stream
    ensures starts[i] - starts[m] in FramesFrom(Before(stream, starts[s]), starts[m])
  {
    BeforeHas(stream, starts[s]);
    assert starts[m] + 0.002 <= starts[i] < starts[s];
    FrameOf(Before(stream, starts[s]), starts[i], starts[m]);
  }

  lemma FrameOf(stream: seq<real>, k: real, seek: real)
    requires k in stream && k >= seek
    ensures k - seek in FramesFrom(stream, seek)
  {
    FramesFromHas(stream, seek);
  }

  lemma BoundsAreFrames(stream: seq<real>, starts: seq<real>, m: nat, s: nat, bounds: seq<real>)
    requires Apart(starts) && m < s < |starts| && bounds == Shift(starts[m + 1..], -starts[m])
    requires forall i :: 0 < i < |starts| ==> starts[i] in stream
    ensures forall b <- bounds[..s - m - 1] :: b in FramesFrom(Before(stream, starts[s]), starts[m])
  {
    forall b <- bounds[..s - m - 1]
      ensures b in FramesFrom(Before(stream, starts[s]), starts[m])
    {
      var i: nat :| i < s - m - 1 && bounds[i] == b;
      BoundedHasStarts(stream, starts, m, s, m + 1 + i);
    }
  }

  lemma BoundedMux(stream: seq<real>, starts: seq<real>, m: nat, s: nat, times: seq<real>, bounds: seq<real>)
    requires Increasing(stream) && Apart(starts) && m < s < |starts|
    requires forall i :: 0 < i < |starts| ==> starts[i] in stream
    requires TwoMillisecondsClear(stream, starts)
    requires bounds == Shift(starts[m + 1..], -starts[m]) && times == EmittedTimes(bounds)
    ensures MuxCuts(FramesFrom(Before(stream, starts[s]), starts[m]), times) == bounds[..s - m - 1]
  {
    var seek, n := starts[m], s - m - 1;
    var frames := FramesFrom(Before(stream, starts[s]), seek);
    EmittedBrackets(starts, m, seek, times, bounds);
    BoundedFrames(stream, starts, m, s, frames);
    BoundsAreFrames(stream, starts, m, s, bounds);
    forall i | 0 <= i < n
      ensures NoneBetween(frames, times[i], bounds[i])
    {
      assert bounds[i] == starts[m + 1 + i] - seek;
    }
    assert bounds[n] == starts[m + 1 + n] - seek;
    CutsBefore(frames, times, bounds, n);
  }

  /** A job bounded by segment `s` cuts at the planned starts between its own and `s`, and nowhere else. */
  lemma BoundedJobCuts(stream: seq<real>, starts: seq<real>, m: nat, s: nat)
    requires Increasing(stream) && Apart(starts) && m < s < |starts|
    requires forall i :: 0 < i < |starts| ==> starts[i] in stream
    requires TwoMillisecondsClear(stream, starts)
    ensures JobCuts(Before(stream, starts[s]), starts, m, starts[m]) == starts[m + 1..s]
  {
    var bounds := Shift(starts[m + 1..], -starts[m]);
    CutsFromAll(starts, starts[m], m);
    BoundedMux(stream, starts, m, s, EmittedTimes(bounds), bounds);
    ShiftPrefix(starts[m + 1..], s - m - 1, starts[m]);
    assert starts[m + 1..][..s - m - 1] == starts[m + 1..s];
  }

  lemma ShiftPrefix(xs: seq<real>, n: nat, offset: real)
    requires n <= |xs|
    ensures Shift(Shift(xs, -offset)[..n], offset) == xs[..n]
  {}

  /**
    * A gap-filling job fills exactly its gap: started at `m` and bounded by the ready segment `s`, it writes files `m` to
    * `s - 1`, each with its planned stretch, and no file `s`.
    */
  lemma GapJobFillsGap(stream: seq<real>, starts: seq<real>, m: nat, s: nat, i: nat)
    requires Increasing(stream) && Apart(starts) && m <= i < s < |starts|
    requires forall j :: 0 < j < |starts| ==> starts[j] in stream
    requires TwoMillisecondsClear(stream, starts)
    ensures var seen := Before(stream, starts[s]);
      && JobFile(seen, starts, starts[s], m, starts[m], i) == (starts[i], starts[i + 1])
      && m + |JobCuts(seen, starts, m, starts[m])| == s - 1
  {
    BoundedJobCuts(stream, starts, m, s);
  }

  // ---- the clock of a copy or remux job

  /** Whether a remux job's input seek is padded past its keyframe. */
  predicate Padded(remux: bool, seek: real, inputStart: real) {
    remux && seek + inputStart > START_EPSILON
  }

  /** The output length of a job started at `m` of a planned list and bounded by `s`. */
  function JobLength(kf: seq<real>, starts: seq<real>, m: nat, s: nat, segment: real, remux: bool, inputStart: real): real
    requires m < |starts|
  {
    StopDuration(Some(starts), m, s, starts[m], segment, Base(true, remux, kf, starts[m], inputStart))
  }

  /**
    * A copy or remux job is bounded if and only if its input is not padded or the stretch up to its bound is longer than
    * the pad; its output then ends exactly on the bound. Otherwise it is given no bound at all.
    */
  lemma PlannedJobBound(keyframes: seq<real>, duration: real, segment: real, m: nat, s: nat, remux: bool, inputStart: real)
    requires Sanitized(keyframes, duration) != [] && segment >= MIN_SEGMENT
    requires m < s < |Planned(duration, Sanitized(keyframes, duration), segment).starts|
    ensures var kf := Sanitized(keyframes, duration);
      var starts := Planned(duration, kf, segment).starts;
      var d, base := JobLength(kf, starts, m, s, segment, remux, inputStart), Base(true, remux, kf, starts[m], inputStart);
      && (d > 0.0 <==> !Padded(remux, starts[m], inputStart) || starts[s] - starts[m] > REMUX_PAD)
      && (d > 0.0 ==> base + d == starts[s])
      && d >= 0.0
  {
    var kf := Sanitized(keyframes, duration);
    var starts := Planned(duration, kf, segment).starts;
    PlanIsSeekable(keyframes, duration, segment);
    assert starts[s] >= starts[m] + 0.002;
    StopsOnBound(Some(starts), m, s, starts[m], segment, Base(true, remux, kf, starts[m], inputStart));
  }

  /** The frames a job sees, given its output length on top of its clock; no length is no bound. */
  function SeenBy(stream: seq<real>, base: real, length: real): seq<real> {
    if length > 0.0 then Before(stream, base + length) else stream
  }

  /**
    * The gap-filling job of planned media, on the stream it was probed from and from its own seek and clock: with a bound
    * it writes files `m` to `s - 1` with their planned stretches and no file `s`; without one it goes on to write file
    * `s`, and every file after it.
    */
  lemma PlannedGapJob(stream: seq<real>, keyframes: seq<real>, duration: real, segment: real, m: nat, s: nat, i: nat,
                      remux: bool, inputStart: real)
    requires ProbedFrom(keyframes, stream) && Sanitized(keyframes, duration) != [] && segment >= MIN_SEGMENT
    requires var starts := Planned(duration, Sanitized(keyframes, duration), segment).starts; m <= i < s < |starts|
    ensures var kf := Sanitized(keyframes, duration);
      var starts := Planned(duration, kf, segment).starts;
      var seek := SeekPoint(kf, starts[m]);
      var length := JobLength(kf, starts, m, s, segment, remux, inputStart);
      var seen := SeenBy(stream, Base(true, remux, kf, starts[m], inputStart), length);
      && JobFile(seen, starts, starts[s], m, seek, i) == (starts[i], starts[i + 1])
      && m + |JobCuts(seen, starts, m, seek)| == if length > 0.0 then s - 1 else |starts| - 1
  {
    var kf := Sanitized(keyframes, duration);
    var starts := Planned(duration, kf, segment).starts;
    PlanIsSeekable(keyframes, duration, segment);
    StreamIsCuttable(stream, keyframes, duration, segment);
    PlannedJobBound(keyframes, duration, segment, m, s, remux, inputStart);
    if JobLength(kf, starts, m, s, segment, remux, inputStart) > 0.0 {
      GapJobFillsGap(stream, starts, m, s, i);
    } else {
      UnboundedJob(stream, starts, starts[s], m, i);
    }
  }

  lemma UnboundedJob(stream: seq<real>, starts: seq<real>, end: real, m: nat, i: nat)
    requires Increasing(stream) && Apart(starts) && m <= i < |starts| - 1
    requires forall j :: 0 < j < |starts| ==> starts[j] in stream
    requires TwoMillisecondsClear(stream, starts)
    ensures JobFile(stream, starts, end, m, starts[m], i) == (starts[i], starts[i + 1])
    ensures m + |JobCuts(stream, starts, m, starts[m])| == |starts| - 1
  {
    RestartIndependence(stream, starts, end, m, i);
    forall j, k | m < j < |starts| && k in stream && k >= starts[m]
      ensures !(starts[m] + Emitted(starts[j] - starts[m]) <= k < starts[j])
    {
      EmittedBias(starts[j] - starts[m]);
    }
    RestartCutsExactly(stream, starts, m);
  }

  // ---- a hand-off half a second on

  lemma HalfSecondPlan()
    ensures Sanitized([0.0, 0.5, 1.0], 1.5) == [0.0, 0.5, 1.0]
    ensures Planned(1.5, [0.0, 0.5, 1.0], 0.5).starts == [0.0, 0.5, 1.0]
  {
    var kf := [0.0, 0.5, 1.0];
    assert kf[..2] == [0.0, 0.5] && kf[..2][..1] == [0.0] && kf[..2][..1][..0] == [];
    assert Kept([0.0], 1.5) == [0.0];
    assert Kept([0.0, 0.5], 1.5) == [0.0, 0.5];
    assert Kept(kf, 1.5) == kf;
    HalfSecondCuts();
    assert Segments(kf, 1.5, 0.5, 1.5, 3) == Plan([], []);
    assert Segments(kf, 1.5, 0.5, 1.0, 2) == Plan([1.0], [0.5]);
    assert Segments(kf, 1.5, 0.5, 0.5, 1) == Plan([0.5, 1.0], [0.5, 0.5]);
    assert Segments(kf, 1.5, 0.5, 0.0, 0) == Plan([0.0, 0.5, 1.0], [0.5, 0.5, 0.5]);
  }

  lemma HalfSecondCuts()
    ensures var kf := [0.0, 0.5, 1.0];
      && NextCut(kf, 0.0, Mark(1, 0.5), 1.5) == 0.5
      && NextCut(kf, 0.5, Mark(2, 0.5), 1.5) == 1.0
      && NextCut(kf, 1.0, Mark(3, 0.5), 1.5) == 1.5
  {
    var kf := [0.0, 0.5, 1.0];
    assert kf == [0.0] + ([0.5] + ([1.0] + []));
    assert Mark(1, 0.5) == 0.5 && Mark(2, 0.5) == 1.0 && Mark(3, 0.5) == 1.5;
    CutsOfThree(0.0, 0.5);
    CutsOfThree(0.5, 1.0);
    CutsOfThree(1.0, 1.5);
  }

  lemma CutsOfThree(start: real, target: real)
    ensures NextCut([0.0] + ([0.5] + ([1.0] + [])), start, target, 1.5) ==
            if Usable(0.0, start, target) then 0.0
            else if Usable(0.5, start, target) then 0.5
            else if Usable(1.0, start, target) then 1.0
            else 1.5
  {
    NextCutSkips(0.0, [0.5] + ([1.0] + []), start, target, 1.5);
    NextCutSkips(0.5, [1.0] + [], start, target, 1.5);
    NextCutSkips(1.0, [], start, target, 1.5);
  }

  /** With its hand-off half a second on, a padded remux job is given no bound and writes over the hand-off segment. */
  lemma RemuxCanOverrun()
    ensures var kf := Sanitized([0.0, 0.5, 1.0], 1.5);
      var starts := Planned(1.5, kf, 0.5).starts;
      && starts == [0.0, 0.5, 1.0]
      && JobLength(kf, starts, 1, 2, 0.5, true, 0.0) == 0.0
      && 1 + |JobCuts(SeenBy(kf, Base(true, true, kf, starts[1], 0.0), 0.0), starts, 1, SeekPoint(kf, starts[1]))| == 2
  {
    HalfSecondPlan();
    PlannedJobBound([0.0, 0.5, 1.0], 1.5, 0.5, 1, 2, true, 0.0);
    PlannedGapJob([0.0, 0.5, 1.0], [0.0, 0.5, 1.0], 1.5, 0.5, 1, 2, 1, true, 0.0);
  }
}
