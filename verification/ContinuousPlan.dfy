/** The continuous segment timeline: each segment runs to the first keyframe a segment length on. */
module ContinuousPlan {
  import opened Timeline
  import CopyPlan

  const NEGLIGIBLE: real := 0.01

  /** The first place from `j` on whose keyframe reaches `target`; the length of the list when none does. */
  function ReachAt(kf: seq<real>, j: nat, target: real): (r: nat)
    requires j <= |kf|
    ensures j <= r <= |kf|
    ensures forall q :: j <= q < r ==> kf[q] < target
    ensures r < |kf| ==> kf[r] >= target
    decreases |kf| - j
  {
    if j < |kf| && kf[j] < target then ReachAt(kf, j + 1, target) else j
  }

  function EndAt(kf: seq<real>, duration: real, j: nat): real {
    if j < |kf| then kf[j] else duration
  }

  /** The segments from keyframe `i` on. */
  function From(kf: seq<real>, duration: real, segment: real, i: nat): (p: Plan)
    requires i <= |kf|
    ensures |p.starts| == |p.durations|
    decreases |kf| - i
  {
    if i == |kf| || kf[i] >= duration then Plan([], [])
    else
      var j := ReachAt(kf, i + 1, kf[i] + segment);
      var end := EndAt(kf, duration, j);
      if end - kf[i] <= NEGLIGIBLE then From(kf, duration, segment, i + 1)
      else
        var rest := if end >= duration - 0.001 then Plan([], []) else From(kf, duration, segment, j);
        Plan([kf[i]] + rest.starts, [end - kf[i]] + rest.durations)
  }

  function OnTimeline(duration: real, segment: real, startTime: real): real {
    var d := if startTime > START_EPSILON then MediaDuration(duration, startTime) else duration;
    if d <= 0.0 then segment else d
  }

  function Timed(duration: real, keyframes: seq<real>, segmentSec: real, startTime: real): Plan {
    var segment := CopyPlan.Length(segmentSec);
    var media := OnTimeline(duration, segment, startTime);
    if keyframes == [] then FixedPlan(media, segment)
    else
      var raw := From(FromZero(Normalized(keyframes, startTime)), media, segment, 0);
      if raw.starts == [] then FixedPlan(media, segment) else MergeTinyTail(raw)
  }

  lemma JoinedEmpty(starts: seq<real>, durations: seq<real>)
    ensures CopyPlan.Joined(starts, durations, Plan([], [])) == Plan(starts, durations)
    ensures CopyPlan.Joined([], [], Plan(starts, durations)) == Plan(starts, durations)
  {}

  lemma JoinedOne(starts: seq<real>, durations: seq<real>, start: real, dur: real, rest: Plan)
    ensures CopyPlan.Joined(starts, durations, Plan([start] + rest.starts, [dur] + rest.durations))
         == CopyPlan.Joined(starts + [start], durations + [dur], rest)
  {
    assert starts + ([start] + rest.starts) == (starts + [start]) + rest.starts;
    assert durations + ([dur] + rest.durations) == (durations + [dur]) + rest.durations;
  }

  /** One turn at keyframe `i`: a cut too close is passed over, a cut at the media's end is the last. */
  lemma Turn(kf: seq<real>, duration: real, segment: real, i: nat, j: nat, end: real)
    requires i < |kf| && kf[i] < duration && j == ReachAt(kf, i + 1, kf[i] + segment) && end == EndAt(kf, duration, j)
    ensures From(kf, duration, segment, i) ==
            if end - kf[i] <= NEGLIGIBLE then From(kf, duration, segment, i + 1)
            else
              var rest := if end >= duration - 0.001 then Plan([], []) else From(kf, duration, segment, j);
              Plan([kf[i]] + rest.starts, [end - kf[i]] + rest.durations)
  {}

  method FindReach(kf: seq<real>, first: nat, target: real) returns (j: nat)
    requires first <= |kf|
    ensures j == ReachAt(kf, first, target)
  {
    j := first;
    while j < |kf| && kf[j] < target
      invariant first <= j <= |kf| && ReachAt(kf, j, target) == ReachAt(kf, first, target)
    {
      j := j + 1;
    }
  }

  /** Where the segment at keyframe `i` ends, and the keyframe to go on from. */
  method CutAfter(kf: seq<real>, duration: real, segment: real, i: nat) returns (j: nat, end: real)
    requires i < |kf|
    ensures j == ReachAt(kf, i + 1, kf[i] + segment) && end == EndAt(kf, duration, j)
  {
    j := FindReach(kf, i + 1, kf[i] + segment);
    end := duration;
    if j < |kf| {
      end := kf[j];
    }
  }

  method PlanFrom(kf: seq<real>, duration: real, segment: real) returns (starts: seq<real>, durations: seq<real>)
    ensures Plan(starts, durations) == From(kf, duration, segment, 0)
  {
    starts, durations := [], [];
    var i: nat := 0;
    ghost var whole := From(kf, duration, segment, 0);
    ghost var rest := whole;
    JoinedEmpty(whole.starts, whole.durations);
    while i < |kf| && kf[i] < duration
      invariant i <= |kf| && rest == From(kf, duration, segment, i)
      invariant CopyPlan.Joined(starts, durations, rest) == whole
    {
      var start := kf[i];
      var j, end := CutAfter(kf, duration, segment, i);
      Turn(kf, duration, segment, i, j, end);
      var dur := end - start;
      if dur <= NEGLIGIBLE {
        i := i + 1;
        continue;
      }
      ghost var after := if end >= duration - 0.001 then Plan([], []) else From(kf, duration, segment, j);
      assert rest == Plan([start] + after.starts, [dur] + after.durations);
      JoinedOne(starts, durations, start, dur, after);
      starts, durations, rest := starts + [start], durations + [dur], after;
      if end >= duration - 0.001 {
        JoinedEmpty(starts, durations);
        return;
      }
      i := j;
    }
    JoinedEmpty(starts, durations);
  }

  method BuildSegmentTimeline(duration: real, keyframes: seq<real>, segmentSec: real, startTime: real)
    returns (starts: seq<real>, durations: seq<real>)
    ensures Plan(starts, durations) == Timed(duration, keyframes, segmentSec, startTime)
  {
    var segment := segmentSec;
    if segment <= 0.0 {
      segment := DEFAULT_SEGMENT;
    }
    var media, kf := duration, keyframes;
    if startTime > START_EPSILON {
      media := MediaDuration(media, startTime);
      if |kf| > 0 {
        kf := NormalizeKeyframeTimes(kf, startTime);
      }
    }
    if media <= 0.0 {
      media := segment;
    }
    if kf == [] {
      starts, durations := FixedTimeline(media, segment);
      return;
    }
    if kf[0] > 0.001 {
      kf := [0.0] + kf;
    }
    starts, durations := PlanFrom(kf, media, segment);
    if starts == [] {
      starts, durations := FixedTimeline(media, segment);
      return;
    }
    starts, durations := MergeTinyTailSegment(starts, durations);
  }

  // ---- what the plan is

  /** `end` is the first listed keyframe a segment length or more after `start`. */
  ghost predicate FirstReach(kf: seq<real>, start: real, segment: real, end: real) {
    end in kf && end >= start + segment && forall q <- kf :: q >= start + segment ==> end <= q
  }

  lemma ReachIsFirst(kf: seq<real>, duration: real, segment: real, i: nat)
    requires Spaced(kf, duration) && i < |kf| && segment > 0.0
    ensures var j := ReachAt(kf, i + 1, kf[i] + segment);
      if j < |kf| then FirstReach(kf, kf[i], segment, kf[j]) else forall q <- kf :: q < kf[i] + segment
  {
    var j := ReachAt(kf, i + 1, kf[i] + segment);
    forall q | 0 <= q < |kf|
      ensures q < j ==> kf[q] < kf[i] + segment
      ensures j <= q ==> kf[j] <= kf[q]
    {
      if q < i {
        CopyPlan.SpacedIncreases(kf, duration, q, i);
      } else if j < q {
        CopyPlan.SpacedIncreases(kf, duration, j, q);
      }
    }
  }

  ghost predicate Reaches(kf: seq<real>, segment: real, p: Plan) {
    forall i: nat :: i < |p.starts| - 1 ==> FirstReach(kf, p.starts[i], segment, p.starts[i + 1])
  }

  /** The last segment is not too long: a keyframe that reaches its target stands no more than `rest` before the end. */
  ghost predicate EndsInTime(kf: seq<real>, duration: real, segment: real, p: Plan, rest: real) {
    p.starts != [] ==> forall q <- kf :: q >= p.starts[|p.starts| - 1] + segment ==> duration - q <= rest
  }

  /** Nothing follows a keyframe that stands within the negligible remainder of the media's end. */
  lemma NothingAfter(kf: seq<real>, duration: real, segment: real, i: nat)
    requires Spaced(kf, duration) && i < |kf| && kf[i] > 0.001 && duration - kf[i] <= NEGLIGIBLE
    ensures From(kf, duration, segment, i + 1).starts == []
  {
    if i + 1 < |kf| {
      CopyPlan.SpacedIncreases(kf, duration, i, i + 1);
    }
  }

  lemma {:induction false} FromPartitions(kf: seq<real>, duration: real, segment: real, i: nat)
    requires Spaced(kf, duration) && segment >= MIN_SEGMENT && i < |kf| && (i > 0 || duration > 0.05)
    requires i > 0 ==> kf[i] > 0.001
    ensures var p := From(kf, duration, segment, i);
      && p.Contiguous(kf[i])
      && Reaches(kf, segment, p)
      && EndsInTime(kf, duration, segment, p, NEGLIGIBLE)
      && (p.starts == [] ==> kf[i] >= duration - NEGLIGIBLE)
      && (p.starts != [] ==> duration - NEGLIGIBLE <= p.End(|p.starts| - 1) <= duration)
    decreases |kf| - i
  {
    assert kf[i] in kf;
    var j := ReachAt(kf, i + 1, kf[i] + segment);
    var end := EndAt(kf, duration, j);
    ReachIsFirst(kf, duration, segment, i);
    var p := From(kf, duration, segment, i);
    if end - kf[i] <= NEGLIGIBLE {
      NothingAfter(kf, duration, segment, i);
    } else if j < |kf| && end < duration - 0.001 {
      FromPartitions(kf, duration, segment, j);
      JoinsOn(kf, duration, segment, p, From(kf, duration, segment, j), kf[i], end);
    } else {
      assert j < |kf| ==> kf[j] in kf;
    }
  }

  lemma JoinsOn(kf: seq<real>, duration: real, segment: real, p: Plan, rest: Plan, start: real, end: real)
    requires rest.Contiguous(end) && Reaches(kf, segment, rest) && FirstReach(kf, start, segment, end)
    requires EndsInTime(kf, duration, segment, rest, NEGLIGIBLE)
    requires p == Plan([start] + rest.starts, [end - start] + rest.durations)
    requires rest.starts == [] ==> duration - NEGLIGIBLE <= end <= duration
    requires rest.starts != [] ==> duration - NEGLIGIBLE <= rest.End(|rest.starts| - 1) <= duration
    ensures p.Contiguous(start) && Reaches(kf, segment, p) && EndsInTime(kf, duration, segment, p, NEGLIGIBLE)
    ensures duration - NEGLIGIBLE <= p.End(|p.starts| - 1) <= duration
  {
    forall i: nat | i < |p.starts| - 1
      ensures p.starts[i + 1] == p.End(i) && FirstReach(kf, p.starts[i], segment, p.starts[i + 1])
    {
      if i > 0 {
        assert p.starts[i] == rest.starts[i - 1] && p.starts[i + 1] == rest.starts[i - 1 + 1];
        assert rest.starts[i - 1 + 1] == rest.End(i - 1);
        assert FirstReach(kf, rest.starts[i - 1], segment, rest.starts[i - 1 + 1]);
      }
    }
    if rest.starts != [] {
      var last := |p.starts| - 1;
      assert p.starts[last] == rest.starts[last - 1] && p.durations[last] == rest.durations[last - 1];
    }
  }

  lemma MergeKeepsReaches(kf: seq<real>, segment: real, p: Plan)
    requires p.Valid() && Reaches(kf, segment, p)
    ensures Reaches(kf, segment, MergeTinyTail(p))
  {
    var r := MergeTinyTail(p);
    forall i: nat | i < |r.starts| - 1
      ensures FirstReach(kf, r.starts[i], segment, r.starts[i + 1])
    {
      assert r.starts[i] == p.starts[i] && r.starts[i + 1] == p.starts[i + 1];
    }
  }

  lemma MergeEndsInTime(kf: seq<real>, duration: real, segment: real, p: Plan, from: real)
    requires p.Contiguous(from) && p.starts != [] && Reaches(kf, segment, p) && EndsInTime(kf, duration, segment, p, NEGLIGIBLE)
    requires duration - NEGLIGIBLE <= p.End(|p.starts| - 1)
    ensures EndsInTime(kf, duration, segment, MergeTinyTail(p), MIN_SEGMENT + NEGLIGIBLE)
  {
    var n := |p.starts|;
    if n >= 2 && p.durations[n - 1] < MIN_SEGMENT {
      assert FirstReach(kf, p.starts[n - 2], segment, p.starts[n - 2 + 1]);
    }
  }

  /**
    * What a caller may rely on in a continuous timeline: contiguous from the first keyframe, each segment but the last to
    * the first keyframe a segment length on, and a last one with no such keyframe except in the final half second or so.
    */
  ghost predicate Partition(kf: seq<real>, duration: real, segment: real, p: Plan) {
    && kf != [] && p.starts != [] && p.Contiguous(kf[0]) && Reaches(kf, segment, p)
    && EndsInTime(kf, duration, segment, p, 0.51)
    && duration - 0.01 <= p.End(|p.starts| - 1) <= duration
  }

  /**
    * The continuous timeline is a partition, whatever the container's start time, when the keyframes are spaced once
    * they are on the media's own timeline: contiguous from the first of them, each segment but the last ends at the
    * first keyframe a segment length or more after its start, and the end is within the negligible remainder of the
    * media's.
    */
  lemma TimelinePartitions(keyframes: seq<real>, duration: real, segment: real, startTime: real)
    requires segment >= MIN_SEGMENT && keyframes != []
    requires var media := MediaDuration(duration, startTime);
      media > 0.05 && Spaced(FromZero(Normalized(keyframes, startTime)), media)
    ensures Partition(FromZero(Normalized(keyframes, startTime)), MediaDuration(duration, startTime), segment,
                      Timed(duration, keyframes, segment, startTime))
  {
    var media := MediaDuration(duration, startTime);
    var kf := FromZero(Normalized(keyframes, startTime));
    var raw := From(kf, media, segment, 0);
    FromPartitions(kf, media, segment, 0);
    MergeKeepsContiguous(raw, kf[0]);
    MergeKeepsReaches(kf, segment, raw);
    MergeEndsInTime(kf, media, segment, raw, kf[0]);
  }

  /** Media times as the container has them. */
  function InContainer(times: seq<real>, startTime: real): (r: seq<real>)
    ensures |r| == |times|
  {
    if startTime <= START_EPSILON then times
    else seq(|times|, i requires 0 <= i < |times| => times[i] + startTime)
  }

  lemma NormalizedBack(times: seq<real>, startTime: real)
    requires forall t <- times :: t >= 0.0
    ensures Normalized(InContainer(times, startTime), startTime) == times
  {
    if startTime > START_EPSILON && times != [] {
      forall i | 0 <= i < |times|
        ensures Rebased(times[i] + startTime, startTime) == times[i]
      {
        assert times[i] in times;
      }
    }
  }

  /** The clean-up meets that condition: any probe, cleaned on the media's timeline and put back in container time. */
  lemma CleanedTimelinePartitions(keyframes: seq<real>, duration: real, segment: real, startTime: real)
    requires segment >= MIN_SEGMENT
    requires Sanitized(Normalized(keyframes, startTime), MediaDuration(duration, startTime)) != []
    ensures var media := MediaDuration(duration, startTime);
      var kf := Sanitized(Normalized(keyframes, startTime), media);
      Partition(kf, media, segment, Timed(duration, InContainer(kf, startTime), segment, startTime))
  {
    var media := MediaDuration(duration, startTime);
    var kf := Sanitized(Normalized(keyframes, startTime), media);
    SanitizedIsSpaced(Normalized(keyframes, startTime), media);
    NormalizedBack(kf, startTime);
    assert FromZero(kf) == kf;
    TimelinePartitions(InContainer(kf, startTime), duration, segment, startTime);
  }

  /** Whatever the keyframes are, no planned segment starts at or after the end of the media. */
  lemma {:induction false} StartsInside(kf: seq<real>, duration: real, segment: real, i: nat)
    requires i <= |kf|
    ensures forall s <- From(kf, duration, segment, i).starts :: s < duration
    decreases |kf| - i
  {
    if i < |kf| && kf[i] < duration {
      var j := ReachAt(kf, i + 1, kf[i] + segment);
      StartsInside(kf, duration, segment, i + 1);
      StartsInside(kf, duration, segment, j);
    }
  }

  /** Without keyframes the timeline is the grid: of the media, or of one segment when it has no length. */
  lemma WithoutKeyframes(duration: real, segment: real, startTime: real)
    requires segment > 0.0
    ensures var media := if startTime > 0.001 && duration > 0.0 then duration - startTime else duration;
      Timed(duration, [], segment, startTime) == if media > 0.0 then FixedPlan(media, segment) else Plan([0.0], [segment])
  {
    FixedPlanIsGrid(segment, segment);
    FixedPlanPartitions(segment, segment);
    OneSegment(segment);
  }

  lemma OneSegment(segment: real)
    requires segment > 0.0
    ensures FixedPlan(segment, segment) == Plan([0.0], [segment])
  {
    FixedPlanIsGrid(segment, segment);
    FixedPlanPartitions(segment, segment);
    var p := FixedPlan(segment, segment);
    var last := |p.starts| - 1;
    Scales(1.0, last as real, segment);
    assert p.End(last) == segment && p.starts[last] == last as real * segment;
  }

  /** Media without a length, once the start time is taken off, are planned as if they were one segment long. */
  lemma NoLengthIsOneSegment(keyframes: seq<real>, duration: real, segment: real, startTime: real)
    requires segment > 0.0
    requires duration <= if startTime > 0.001 && duration > 0.0 then startTime else 0.0
    ensures Timed(duration, keyframes, segment, startTime)
         == Timed((if startTime > 0.001 then startTime else 0.0) + segment, keyframes, segment, startTime)
  {}

  /** Media no longer than the negligible remainder has no segment between keyframes, and the grid takes over. */
  lemma TinyTimeline()
    ensures Timed(0.005, [0.0], 4.0, 0.0) == FixedPlan(0.005, 4.0)
  {
    var kf: seq<real> := [0.0];
    assert FromZero(Normalized(kf, 0.0)) == kf;
    assert ReachAt(kf, 1, 4.0) == 1;
    assert From(kf, 0.005, 4.0, 1).starts == [];
  }
}
