/** Finding a segment by time, and the target duration a playlist announces. */
module Lookup {
  import opened Timeline
  import opened CopyPlan
  import CopyCuts

  const LOOKUP_SLACK: real := 0.0005
  const CEIL_SLACK: real := 0.000000001

  /** The answer the scan stops at: the end of the leading run of starts that `time` has reached, within the slack. */
  ghost predicate Located(starts: seq<real>, time: real, index: nat)
    requires starts != []
  {
    && index < |starts|
    && (time <= starts[0] ==> index == 0)
    && (time > starts[0] ==>
          && (forall j :: 1 <= j <= index ==> starts[j] <= time + LOOKUP_SLACK)
          && (index + 1 < |starts| ==> starts[index + 1] > time + LOOKUP_SLACK))
  }

  method SegmentIndexForTime(time: real, starts: seq<real>) returns (index: nat, start: real)
    ensures starts == [] ==> index == 0 && start == 0.0
    ensures starts != [] ==> Located(starts, time, index) && start == starts[index]
  {
    if starts == [] {
      return 0, 0.0;
    }
    if time <= starts[0] {
      return 0, starts[0];
    }
    index := 0;
    for i := 1 to |starts|
      invariant index == i - 1
      invariant forall j :: 1 <= j <= index ==> starts[j] <= time + LOOKUP_SLACK
    {
      if starts[i] > time + LOOKUP_SLACK {
        break;
      }
      index := i;
    }
    start := starts[index];
  }

  /** A time inside segment `i`, clear of the next start by the slack, is located there and nowhere else. */
  lemma LookupFindsSegment(starts: seq<real>, gap: real, i: nat, time: real, index: nat)
    requires GapsAtLeast(starts, gap) && gap > LOOKUP_SLACK && i < |starts|
    requires starts[i] <= time && (i + 1 < |starts| ==> time < starts[i + 1] - LOOKUP_SLACK)
    ensures Located(starts, time, index) <==> index == i
  {
    if index < i && index < |starts| {
      if index + 1 < i {
        CopyCuts.GapsAdd(starts, gap, index + 1, i);
      }
      CopyCuts.GapsAdd(starts, gap, 0, i);
    }
    if i > 0 {
      CopyCuts.GapsAdd(starts, gap, 0, i);
    }
    forall j | 1 <= j <= i
      ensures starts[j] <= time + LOOKUP_SLACK
    {
      if j < i {
        CopyCuts.GapsAdd(starts, gap, j, i);
      }
    }
    if i < index < |starts| && i + 1 < index {
      CopyCuts.GapsAdd(starts, gap, i + 1, index);
    }
  }

  /** A time in the last half millisecond of a segment belongs, for the scan, to the next one. */
  lemma LookupRoundsUp(starts: seq<real>, gap: real, i: nat, time: real)
    requires GapsAtLeast(starts, gap) && gap > LOOKUP_SLACK && i + 1 < |starts|
    requires starts[i] < time && starts[i + 1] - LOOKUP_SLACK <= time < starts[i + 1]
    ensures Located(starts, time, i + 1)
  {
    CopyCuts.GapsAdd(starts, gap, 0, i + 1);
    if i > 0 {
      CopyCuts.GapsAdd(starts, gap, 0, i);
    }
    forall j | 1 <= j <= i + 1
      ensures starts[j] <= time + LOOKUP_SLACK
    {
      if j < i + 1 {
        CopyCuts.GapsAdd(starts, gap, j, i + 1);
      }
    }
    if i + 2 < |starts| {
      assert starts[i + 1 + 1] >= starts[i + 1] + gap;
    }
  }

  /** Lookup inverts planning, for a grid and for a copy plan alike. */
  lemma LookupInvertsPlanning(mediaDuration: real, segmentSec: real, startTime: real, keyframes: seq<real>,
                              i: nat, time: real, index: nat)
    requires MediaDuration(mediaDuration, startTime) > 0.0 && Length(segmentSec) >= MIN_SEGMENT
    requires var starts := SegmentList(mediaDuration, segmentSec, startTime, keyframes).starts;
      && i < |starts|
      && starts[i] <= time
      && (i + 1 < |starts| ==> time < starts[i + 1] - LOOKUP_SLACK)
    ensures var starts := SegmentList(mediaDuration, segmentSec, startTime, keyframes).starts;
      Located(starts, time, index) <==> index == i
  {
    var duration := MediaDuration(mediaDuration, startTime);
    var kf := Sanitized(Normalized(keyframes, startTime), duration);
    var p := SegmentList(mediaDuration, segmentSec, startTime, keyframes);
    if kf == [] {
      FixedPlanStarts(duration, Length(segmentSec));
      LookupFindsSegment(p.starts, Length(segmentSec), i, time, index);
    } else {
      SanitizedIsSpaced(Normalized(keyframes, startTime), duration);
      PlanIsGreedyPartition(Normalized(keyframes, startTime), duration, Length(segmentSec));
      CopyCuts.PartitionGaps(kf, duration, Length(segmentSec), p);
      LookupFindsSegment(p.starts, MIN_SEGMENT - TARGET_SLACK, i, time, index);
    }
  }

  // ---- the announced target duration

  function Longest(durations: seq<real>): (m: real)
    ensures m >= 0.0
    ensures forall d <- durations :: d <= m
    ensures m == 0.0 || m in durations
  {
    if durations == [] then 0.0
    else
      var m := Longest(durations[..|durations| - 1]);
      var d := durations[|durations| - 1];
      assert durations == durations[..|durations| - 1] + [d];
      if d > m then d else m
  }

  method TargetDurationSec(durations: seq<real>) returns (target: int)
    ensures var m := Longest(durations); target == Ceil((if m <= 0.0 then 4.0 else m) - 0.000000001)
  {
    var max := 0.0;
    for i := 0 to |durations|
      invariant max == Longest(durations[..i])
    {
      assert durations[..i + 1][..i] == durations[..i];
      if durations[i] > max {
        max := durations[i];
      }
    }
    assert durations[..|durations|] == durations;
    if max <= 0.0 {
      max := DEFAULT_SEGMENT;
    }
    target := Ceil(max - CEIL_SLACK);
  }

  /** Rounded to the nearest integer, halves upward, for a time that is not negative. */
  function Nearest(x: real): (n: int)
    ensures -0.5 < n as real - x <= 0.5
  {
    (x + 0.5).Floor
  }

  /**
    * Section 4.3.3.1 of RFC 8216: the announced target is at least every segment length, printed to the
    * millisecond and then rounded to the nearest second; and it is the least integer that is, but for the slack.
    */
  lemma TargetBoundsEverySegment(durations: seq<real>, i: nat, printed: real)
    requires i < |durations| && durations[i] > 0.0
    requires durations[i] - 0.0005 <= printed <= durations[i] + 0.0005
    ensures var target := Ceil(Longest(durations) - 0.000000001);
      && Nearest(durations[i]) <= target
      && Nearest(printed) <= target
      && (target as real) - 1.0 < Longest(durations)
  {
    assert durations[i] in durations;
    CeilBrackets(Longest(durations) - CEIL_SLACK);
  }

  /** At or before the first start the answer is the first segment, however close the next start is. */
  lemma LookupStarts(starts: seq<real>, time: real, index: nat)
    requires starts != [] && time <= starts[0]
    ensures Located(starts, time, index) <==> index == 0
  {}

  /** Half a millisecond before a start is near enough to it, and any earlier time is not. */
  lemma LookupSlack(a: real, b: real, time: real, index: nat)
    requires a < time && a + 0.0005 < b
    ensures Located([a, b], time, index) <==> index == if time >= b - 0.0005 then 1 else 0
  {
    assert [a, b][0] == a && [a, b][1] == b;
  }
}
