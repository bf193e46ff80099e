/** Stream-copy segmentation: each segment ends at the first keyframe that meets its cumulative target. */
module CopyPlan {
  import opened Timeline

  const TARGET_SLACK: real := 0.0005
  const MIN_ADVANCE: real := 0.001
  const NEGLIGIBLE: real := 0.01

  /** Whether keyframe `k` may end the segment that opens at `start` and aims at `target`. */
  predicate Usable(k: real, start: real, target: real) {
    k >= start + MIN_ADVANCE && k >= target - TARGET_SLACK
  }

  /** A cut is a millisecond or more after the start, and half a millisecond before its target at the earliest. */
  lemma UsableIff(k: real, start: real, target: real)
    ensures Usable(k, start, target) <==> k - start >= 0.001 && target - k <= 0.0005
  {}

  function NextCut(kf: seq<real>, start: real, target: real, duration: real): real {
    if kf == [] then duration
    else if Usable(kf[0], start, target) then kf[0]
    else NextCut(kf[1..], start, target, duration)
  }

  /** The segments planned from `start` on, where `n` segments precede it. */
  function Segments(kf: seq<real>, duration: real, segment: real, start: real, n: nat): (p: Plan)
    ensures |p.starts| == |p.durations|
    decreases (duration - start) * 100.0
  {
    if start >= duration - 0.001 then Plan([], [])
    else
      var end := NextCut(kf, start, Mark(n + 1, segment), duration);
      if end <= start + NEGLIGIBLE then Plan([], [])
      else
        var rest := Segments(kf, duration, segment, end, n + 1);
        Plan([start] + rest.starts, [end - start] + rest.durations)
  }

  function Length(segmentSec: real): (s: real)
    ensures s > 0.0
  {
    if segmentSec <= 0.0 then DEFAULT_SEGMENT else segmentSec
  }

  function Planned(duration: real, keyframes: seq<real>, segmentSec: real): Plan {
    var segment := Length(segmentSec);
    if duration <= 0.0 then Plan([], [])
    else if keyframes == [] then FixedPlan(duration, segment)
    else
      var raw := Segments(FromZero(keyframes), duration, segment, 0.0, 0);
      if raw.starts == [] then FixedPlan(duration, segment) else MergeTinyTail(raw)
  }

  /** The segments planned so far followed by those still to come. */
  function Joined(starts: seq<real>, durations: seq<real>, rest: Plan): Plan {
    Plan(starts + rest.starts, durations + rest.durations)
  }

  lemma JoinedStep(kf: seq<real>, duration: real, segment: real, start: real, n: nat, starts: seq<real>, durations: seq<real>)
    requires start < duration - 0.001
    ensures var end := NextCut(kf, start, Mark(n + 1, segment), duration);
      var rest := Segments(kf, duration, segment, start, n);
      Joined(starts, durations, rest) ==
      if end <= start + NEGLIGIBLE then Plan(starts, durations)
      else Joined(starts + [start], durations + [end - start], Segments(kf, duration, segment, end, n + 1))
  {
    var end := NextCut(kf, start, Mark(n + 1, segment), duration);
    var rest := Segments(kf, duration, segment, start, n);
    if end > start + NEGLIGIBLE {
      var after := Segments(kf, duration, segment, end, n + 1);
      assert starts + rest.starts == starts + [start] + after.starts;
      assert durations + rest.durations == durations + [end - start] + after.durations;
    }
  }

  method FindCut(kf: seq<real>, start: real, target: real, duration: real) returns (end: real)
    ensures end == NextCut(kf, start, target, duration)
  {
    end := duration;
    for i := 0 to |kf|
      invariant end == duration
      invariant NextCut(kf[i..], start, target, duration) == NextCut(kf, start, target, duration)
    {
      var k := kf[i];
      assert kf[i..][1..] == kf[i + 1..];
      if k < start + MIN_ADVANCE {
        continue;
      }
      if k >= target - TARGET_SLACK {
        end := k;
        break;
      }
    }
  }

  method CopyModeTimeline(duration: real, keyframes: seq<real>, segmentSec: real)
    returns (starts: seq<real>, durations: seq<real>)
    ensures Plan(starts, durations) == Planned(duration, keyframes, segmentSec)
  {
    var segment := segmentSec;
    if segment <= 0.0 {
      segment := DEFAULT_SEGMENT;
    }
    if duration <= 0.0 {
      return [], [];
    }
    var kf := keyframes;
    if kf == [] {
      starts, durations := FixedTimeline(duration, segment);
      return;
    }
    if kf[0] > 0.001 {
      kf := [0.0] + kf;
    }
    starts, durations := [], [];
    var start, segNum := 0.0, 0;
    ghost var raw := Segments(kf, duration, segment, 0.0, 0);
    while start < duration - 0.001
      invariant |starts| == |durations|
      invariant Joined(starts, durations, Segments(kf, duration, segment, start, segNum)) == raw
      decreases (duration - start) * 100.0
    {
      JoinedStep(kf, duration, segment, start, segNum, starts, durations);
      var end := FindCut(kf, start, Mark(segNum + 1, segment), duration);
      if end <= start + NEGLIGIBLE {
        break;
      }
      starts, durations := starts + [start], durations + [end - start];
      start := end;
      segNum := segNum + 1;
      if end >= duration - 0.001 {
        break;
      }
    }
    assert Plan(starts, durations) == raw;
    if starts == [] {
      starts, durations := FixedTimeline(duration, segment);
      return;
    }
    starts, durations := MergeTinyTailSegment(starts, durations);
  }

  // ---- what the plan is

  /** `k` is the earliest listed keyframe that may end the segment opening at `start`. */
  ghost predicate FirstUsable(kf: seq<real>, start: real, target: real, k: real) {
    k in kf && Usable(k, start, target) && forall q <- kf :: Usable(q, start, target) ==> k <= q
  }

  ghost predicate NoneUsable(kf: seq<real>, start: real, target: real) {
    forall q <- kf :: !Usable(q, start, target)
  }

  /** The greedy rule for one segment: its first usable keyframe, or the end of the media when there is none. */
  ghost predicate GreedyEnd(kf: seq<real>, duration: real, start: real, target: real, end: real) {
    || FirstUsable(kf, start, target, end)
    || (NoneUsable(kf, start, target) && end == duration)
  }

  ghost predicate Greedy(kf: seq<real>, duration: real, segment: real, n: nat, p: Plan)
    requires p.Valid()
  {
    forall i: nat :: i < |p.starts| ==> GreedyEnd(kf, duration, p.starts[i], Mark(n + i + 1, segment), p.End(i))
  }

  /** No segment opens before its nominal place, but for the half millisecond of slack. */
  ghost predicate OnTime(segment: real, n: nat, starts: seq<real>) {
    forall i: nat :: i < |starts| ==> starts[i] >= Mark(n + i, segment) - 0.0005
  }

  lemma {:induction false} SpacedIncreases(kf: seq<real>, duration: real, i: nat, j: nat)
    requires Spaced(kf, duration) && i < j < |kf|
    ensures kf[i] < kf[j]
    ensures kf[i] > 0.001 ==> kf[i] + MIN_KEYFRAME_GAP <= kf[j]
    decreases j - i
  {
    if i + 1 < j {
      SpacedIncreases(kf, duration, i + 1, j);
    }
    if i == 0 {
      assert kf[0] in kf;
    } else {
      assert kf[i + 1] >= kf[i] + MIN_KEYFRAME_GAP;
    }
  }

  lemma SpacedIsSorted(kf: seq<real>, duration: real)
    requires Spaced(kf, duration)
    ensures Sorted(kf)
  {
    forall i, j | 0 <= i < j < |kf|
      ensures kf[i] <= kf[j]
    {
      SpacedIncreases(kf, duration, i, j);
    }
  }

  /** Past the opening millisecond, two listed keyframes are at least the minimum gap apart. */
  lemma SpacedApart(kf: seq<real>, duration: real, a: real, b: real)
    requires Spaced(kf, duration) && a in kf && b in kf && 0.001 < a < b
    ensures a + MIN_KEYFRAME_GAP <= b
  {
    var i: nat :| i < |kf| && kf[i] == a;
    var j: nat :| j < |kf| && kf[j] == b;
    if j < i {
      SpacedIncreases(kf, duration, j, i);
    } else {
      SpacedIncreases(kf, duration, i, j);
    }
  }

  lemma {:induction false} NextCutIsGreedy(kf: seq<real>, start: real, target: real, duration: real)
    requires Sorted(kf)
    ensures GreedyEnd(kf, duration, start, target, NextCut(kf, start, target, duration))
  {
    if kf != [] && !Usable(kf[0], start, target) {
      NextCutIsGreedy(kf[1..], start, target, duration);
      assert kf == [kf[0]] + kf[1..];
    }
  }

  /** Where a segment may open: at zero, or at a keyframe that met the target before it. */
  ghost predicate Opening(kf: seq<real>, segment: real, start: real, n: nat) {
    if n == 0 then start == 0.0 else start in kf && start >= Mark(n, segment) - TARGET_SLACK
  }

  lemma MarkAtLeast(n: nat, segment: real)
    requires n >= 1 && segment >= MIN_SEGMENT
    ensures Mark(n, segment) >= MIN_SEGMENT
  {
    Scales(1.0, n as real, segment);
  }

  lemma MarkZero(segment: real)
    ensures Mark(0, segment) == 0.0
  {}

  /** One turn of the planner: the cut is the media's end or a keyframe about half a second on. */
  lemma CutStep(kf: seq<real>, duration: real, segment: real, start: real, n: nat, end: real)
    requires Spaced(kf, duration) && segment >= MIN_SEGMENT && Opening(kf, segment, start, n)
    requires GreedyEnd(kf, duration, start, Mark(n + 1, segment), end)
    ensures end == duration || Opening(kf, segment, end, n + 1)
    ensures end <= duration
    ensures end != duration ==> end >= start + (if n == 0 then MIN_SEGMENT - TARGET_SLACK else MIN_SEGMENT)
  {
    MarkAtLeast(n + 1, segment);
    if n > 0 {
      MarkAtLeast(n, segment);
      if end != duration {
        SpacedApart(kf, duration, start, end);
      }
    }
  }

  lemma {:induction false} SegmentsGreedy(kf: seq<real>, duration: real, segment: real, start: real, n: nat)
    requires Sorted(kf)
    ensures Greedy(kf, duration, segment, n, Segments(kf, duration, segment, start, n))
    decreases (duration - start) * 100.0
  {
    var p := Segments(kf, duration, segment, start, n);
    if p.starts != [] {
      var end := NextCut(kf, start, Mark(n + 1, segment), duration);
      var rest := Segments(kf, duration, segment, end, n + 1);
      NextCutIsGreedy(kf, start, Mark(n + 1, segment), duration);
      SegmentsGreedy(kf, duration, segment, end, n + 1);
      forall i: nat | i < |p.starts|
        ensures GreedyEnd(kf, duration, p.starts[i], Mark(n + i + 1, segment), p.End(i))
      {
        if i > 0 {
          assert p.starts[i] == rest.starts[i - 1] && p.End(i) == rest.End(i - 1);
          assert GreedyEnd(kf, duration, rest.starts[i - 1], Mark(n + 1 + (i - 1) + 1, segment), rest.End(i - 1));
        }
      }
    }
  }

  lemma {:induction false} SegmentsContiguous(kf: seq<real>, duration: real, segment: real, start: real, n: nat)
    ensures Segments(kf, duration, segment, start, n).Contiguous(start)
    decreases (duration - start) * 100.0
  {
    var p := Segments(kf, duration, segment, start, n);
    if p.starts != [] {
      var end := NextCut(kf, start, Mark(n + 1, segment), duration);
      var rest := Segments(kf, duration, segment, end, n + 1);
      SegmentsContiguous(kf, duration, segment, end, n + 1);
      forall i: nat | i < |p.starts| - 1
        ensures p.starts[i + 1] == p.End(i)
      {
        if i > 0 {
          assert rest.starts[i - 1 + 1] == rest.End(i - 1);
        }
      }
    }
  }

  lemma {:induction false} SegmentsOnTime(kf: seq<real>, duration: real, segment: real, start: real, n: nat)
    requires Spaced(kf, duration) && segment >= MIN_SEGMENT && Opening(kf, segment, start, n)
    ensures OnTime(segment, n, Segments(kf, duration, segment, start, n).starts)
    decreases (duration - start) * 100.0
  {
    var p := Segments(kf, duration, segment, start, n);
    MarkZero(segment);
    if p.starts != [] {
      var end := NextCut(kf, start, Mark(n + 1, segment), duration);
      SpacedIsSorted(kf, duration);
      NextCutIsGreedy(kf, start, Mark(n + 1, segment), duration);
      CutStep(kf, duration, segment, start, n, end);
      if end != duration {
        SegmentsOnTime(kf, duration, segment, end, n + 1);
        var rest := Segments(kf, duration, segment, end, n + 1);
        forall i: nat | i < |p.starts|
          ensures p.starts[i] >= Mark(n + i, segment) - TARGET_SLACK
        {
          if i > 0 {
            assert rest.starts[i - 1] >= Mark(n + 1 + (i - 1), segment) - TARGET_SLACK;
          }
        }
      }
    }
  }

  /** The segment lengths: about the minimum for the first, at least the minimum for the others but the last. */
  ghost predicate LongEnough(n: nat, durations: seq<real>) {
    forall i: nat :: i < |durations| - 1 ==> durations[i] >= (if n + i == 0 then MIN_SEGMENT - TARGET_SLACK else MIN_SEGMENT)
  }

  lemma {:induction false} SegmentsLong(kf: seq<real>, duration: real, segment: real, start: real, n: nat)
    requires Spaced(kf, duration) && segment >= MIN_SEGMENT && Opening(kf, segment, start, n)
    ensures LongEnough(n, Segments(kf, duration, segment, start, n).durations)
    decreases (duration - start) * 100.0
  {
    var p := Segments(kf, duration, segment, start, n);
    if p.starts != [] {
      var end := NextCut(kf, start, Mark(n + 1, segment), duration);
      SpacedIsSorted(kf, duration);
      NextCutIsGreedy(kf, start, Mark(n + 1, segment), duration);
      CutStep(kf, duration, segment, start, n, end);
      if end != duration {
        SegmentsLong(kf, duration, segment, end, n + 1);
        var rest := Segments(kf, duration, segment, end, n + 1);
        forall i: nat | i < |p.durations| - 1
          ensures p.durations[i] >= (if n + i == 0 then MIN_SEGMENT - TARGET_SLACK else MIN_SEGMENT)
        {
          if i > 0 {
            assert p.durations[i] == rest.durations[i - 1];
          }
        }
      }
    }
  }

  /** The plan runs to within the negligible remainder of the media's end, and never past it. */
  lemma {:induction false} SegmentsReachEnd(kf: seq<real>, duration: real, segment: real, start: real, n: nat)
    requires Spaced(kf, duration) && segment >= MIN_SEGMENT && Opening(kf, segment, start, n)
    ensures var p := Segments(kf, duration, segment, start, n);
      && (p.starts == [] ==> start >= duration - NEGLIGIBLE)
      && (p.starts != [] ==> duration - NEGLIGIBLE <= p.End(|p.starts| - 1) <= duration)
      && (p.starts != [] ==> p.durations[|p.starts| - 1] > NEGLIGIBLE)
    decreases (duration - start) * 100.0
  {
    var p := Segments(kf, duration, segment, start, n);
    if start < duration - 0.001 {
      var end := NextCut(kf, start, Mark(n + 1, segment), duration);
      SpacedIsSorted(kf, duration);
      NextCutIsGreedy(kf, start, Mark(n + 1, segment), duration);
      CutStep(kf, duration, segment, start, n, end);
      if end != duration {
        SegmentsReachEnd(kf, duration, segment, end, n + 1);
        var rest := Segments(kf, duration, segment, end, n + 1);
        if rest.starts != [] {
          var last := |p.starts| - 1;
          assert p.starts[last] == rest.starts[last - 1] && p.durations[last] == rest.durations[last - 1];
        }
      }
    }
  }

  /** Everything a caller may rely on in a copy plan. */
  ghost predicate Partition(kf: seq<real>, duration: real, segment: real, p: Plan) {
    && p.starts != []
    && p.Contiguous(0.0)
    && duration - 0.01 <= p.End(|p.starts| - 1) <= duration
    && OnTime(segment, 0, p.starts)
    && (forall i: nat :: i < |p.starts| - 1 ==> FirstUsable(kf, p.starts[i], Mark(i + 1, segment), p.starts[i + 1]))
  }

  lemma RawIsPartition(kf: seq<real>, duration: real, segment: real)
    requires kf != [] && Spaced(kf, duration) && duration > NEGLIGIBLE && segment >= MIN_SEGMENT
    ensures Partition(kf, duration, segment, Segments(kf, duration, segment, 0.0, 0))
  {
    var p := Segments(kf, duration, segment, 0.0, 0);
    SpacedIsSorted(kf, duration);
    SegmentsContiguous(kf, duration, segment, 0.0, 0);
    SegmentsReachEnd(kf, duration, segment, 0.0, 0);
    SegmentsOnTime(kf, duration, segment, 0.0, 0);
    SegmentsGreedy(kf, duration, segment, 0.0, 0);
    forall i: nat | i < |p.starts| - 1
      ensures FirstUsable(kf, p.starts[i], Mark(i + 1, segment), p.starts[i + 1])
    {
      EndsBefore(p, kf, duration, segment, i);
    }
  }

  lemma EndsBefore(p: Plan, kf: seq<real>, duration: real, segment: real, i: nat)
    requires p == Segments(kf, duration, segment, 0.0, 0) && i < |p.starts| - 1
    requires p.Contiguous(0.0) && Greedy(kf, duration, segment, 0, p)
    ensures FirstUsable(kf, p.starts[i], Mark(i + 1, segment), p.starts[i + 1])
  {
    SegmentsStartInside(kf, duration, segment, 0.0, 0, i + 1);
    assert p.starts[i + 1] == p.End(i);
    assert GreedyEnd(kf, duration, p.starts[i], Mark(0 + i + 1, segment), p.End(i));
  }

  lemma {:induction false} SegmentsStartInside(kf: seq<real>, duration: real, segment: real, start: real, n: nat, i: nat)
    requires i < |Segments(kf, duration, segment, start, n).starts|
    ensures Segments(kf, duration, segment, start, n).starts[i] < duration - 0.001
    decreases i
  {
    if i > 0 {
      SegmentsStartInside(kf, duration, segment, NextCut(kf, start, Mark(n + 1, segment), duration), n + 1, i - 1);
    }
  }

  lemma MergeKeepsPartition(kf: seq<real>, duration: real, segment: real, p: Plan)
    requires Partition(kf, duration, segment, p)
    ensures Partition(kf, duration, segment, MergeTinyTail(p))
  {
    MergeKeepsContiguous(p, 0.0);
    var r := MergeTinyTail(p);
    assert r.starts <= p.starts;
    forall i: nat | i < |r.starts| - 1
      ensures FirstUsable(kf, r.starts[i], Mark(i + 1, segment), r.starts[i + 1])
    {
      assert r.starts[i] == p.starts[i] && r.starts[i + 1] == p.starts[i + 1];
    }
  }

  /** Main result on planning: a cleaned-up keyframe list yields the greedy partition of the media. */
  lemma PlanIsGreedyPartition(keyframes: seq<real>, duration: real, segment: real)
    requires Sanitized(keyframes, duration) != [] && segment >= MIN_SEGMENT
    ensures var kf := Sanitized(keyframes, duration);
      var p := Planned(duration, kf, segment);
      Partition(kf, duration, segment, p) && Sum(p.durations) == p.End(|p.starts| - 1)
  {
    var kf := Sanitized(keyframes, duration);
    SanitizedIsSpaced(keyframes, duration);
    RawIsPartition(kf, duration, segment);
    MergeKeepsPartition(kf, duration, segment, Segments(kf, duration, segment, 0.0, 0));
    ContiguousSum(Planned(duration, kf, segment), 0.0);
  }

  /**
    * Segment lengths after the tail merge, when two or more were planned before it: the last is never below the
    * minimum, and only the first can miss it, by the half millisecond of slack.
    */
  lemma PlanHasNoTinySegment(keyframes: seq<real>, duration: real, segment: real)
    requires Sanitized(keyframes, duration) != [] && segment >= MIN_SEGMENT
    requires |Segments(Sanitized(keyframes, duration), duration, segment, 0.0, 0).starts| >= 2
    ensures var d := Planned(duration, Sanitized(keyframes, duration), segment).durations;
      && d[|d| - 1] >= 0.5
      && forall i: nat :: i < |d| ==> d[i] >= (if i == 0 then 0.4995 else 0.5)
  {
    var kf := Sanitized(keyframes, duration);
    var raw := Segments(kf, duration, segment, 0.0, 0);
    SanitizedIsSpaced(keyframes, duration);
    SegmentsLong(kf, duration, segment, 0.0, 0);
    SegmentsReachEnd(kf, duration, segment, 0.0, 0);
    MergeLong(raw);
  }

  lemma MergeLong(p: Plan)
    requires p.Valid() && |p.starts| >= 2 && LongEnough(0, p.durations) && p.durations[|p.durations| - 1] > NEGLIGIBLE
    ensures var d := MergeTinyTail(p).durations;
      && d[|d| - 1] >= MIN_SEGMENT
      && forall i: nat :: i < |d| ==> d[i] >= (if i == 0 then MIN_SEGMENT - TARGET_SLACK else MIN_SEGMENT)
  {
    var n, d := |p.durations|, MergeTinyTail(p).durations;
    assert p.durations[n - 2] >= MIN_SEGMENT - TARGET_SLACK;
    forall i: nat | i < |d| - 1
      ensures d[i] >= (if i == 0 then MIN_SEGMENT - TARGET_SLACK else MIN_SEGMENT)
    {
      assert d[i] == p.durations[i];
    }
  }

  // ---- exactly when a segment misses the minimum

  /** A keyframe that meets the first target on its slack alone, with room for a second segment after it. */
  ghost predicate EarlyKeyframe(kf: seq<real>, duration: real, segment: real) {
    exists k <- kf :: segment - TARGET_SLACK <= k < MIN_SEGMENT && duration - k >= MIN_SEGMENT
  }

  /** The first cut of a raw plan with two or more segments is a keyframe, the least that meets the first target. */
  lemma FirstCut(kf: seq<real>, duration: real, segment: real, p: Plan)
    requires Spaced(kf, duration) && segment >= MIN_SEGMENT
    requires p == Segments(kf, duration, segment, 0.0, 0) && |p.starts| >= 2
    ensures FirstUsable(kf, 0.0, Mark(1, segment), p.starts[1])
    ensures p.durations[0] == p.starts[1] && Mark(1, segment) == segment
  {
    SpacedIsSorted(kf, duration);
    SegmentsContiguous(kf, duration, segment, 0.0, 0);
    SegmentsGreedy(kf, duration, segment, 0.0, 0);
    EndsBefore(p, kf, duration, segment, 0);
    assert p.starts[1] == p.End(0);
  }

  /** The second segment of such a plan, and whether it is the last and too short. */
  lemma SecondCut(kf: seq<real>, duration: real, segment: real, p: Plan)
    requires Spaced(kf, duration) && segment >= MIN_SEGMENT
    requires p == Segments(kf, duration, segment, 0.0, 0) && |p.starts| >= 2 && p.starts[1] in kf
    requires p.starts[1] >= segment - TARGET_SLACK
    ensures p.durations[1] < MIN_SEGMENT <==> duration - p.starts[1] < MIN_SEGMENT
    ensures p.durations[1] < MIN_SEGMENT ==> |p.starts| == 2
  {
    SpacedIsSorted(kf, duration);
    SegmentsGreedy(kf, duration, segment, 0.0, 0);
    SegmentsLong(kf, duration, segment, 0.0, 0);
    assert GreedyEnd(kf, duration, p.starts[1], Mark(0 + 1 + 1, segment), p.End(1));
    if p.End(1) != duration {
      SpacedApart(kf, duration, p.starts[1], p.End(1));
      assert p.End(1) in kf;
    }
  }

  /** The first cut misses the minimum, with room after it, exactly when there is an early keyframe. */
  lemma EarlyIsFirstCut(kf: seq<real>, duration: real, segment: real, first: real)
    requires Spaced(kf, duration) && segment >= MIN_SEGMENT && FirstUsable(kf, 0.0, segment, first)
    ensures EarlyKeyframe(kf, duration, segment) <==> first < MIN_SEGMENT && duration - first >= MIN_SEGMENT
  {
    if EarlyKeyframe(kf, duration, segment) {
      var k :| k in kf && segment - TARGET_SLACK <= k < MIN_SEGMENT && duration - k >= MIN_SEGMENT;
      assert Usable(k, 0.0, segment);
      if first < k {
        SpacedApart(kf, duration, first, k);
      }
    }
  }

  /**
    * When two or more segments are planned before the tail merge, the first segment is below the minimum if and only if
    * a keyframe meets its target on the slack alone, below the minimum, and leaves room for a second segment.
    */
  lemma FirstSegmentMissesIff(keyframes: seq<real>, duration: real, segment: real)
    requires Sanitized(keyframes, duration) != [] && segment >= MIN_SEGMENT
    requires |Segments(Sanitized(keyframes, duration), duration, segment, 0.0, 0).starts| >= 2
    ensures var kf := Sanitized(keyframes, duration);
      Planned(duration, kf, segment).durations[0] < MIN_SEGMENT <==> EarlyKeyframe(kf, duration, segment)
  {
    var kf := Sanitized(keyframes, duration);
    var p := Segments(kf, duration, segment, 0.0, 0);
    SanitizedIsSpaced(keyframes, duration);
    FirstCut(kf, duration, segment, p);
    SecondCut(kf, duration, segment, p);
    EarlyIsFirstCut(kf, duration, segment, p.starts[1]);
    SegmentsReachEnd(kf, duration, segment, 0.0, 0);
    MergedFirst(p);
  }

  lemma MergedFirst(p: Plan)
    requires p.Valid() && |p.starts| >= 2
    ensures MergeTinyTail(p).durations[0]
         == if |p.starts| == 2 && p.durations[1] < MIN_SEGMENT then p.durations[0] + p.durations[1] else p.durations[0]
  {}

  /**
    * Media too short for one segment, or a keyframe that meets the first target on the slack alone and leaves after it
    * either room for a second segment or next to nothing.
    */
  ghost predicate Short(kf: seq<real>, duration: real, segment: real) {
    || duration < MIN_SEGMENT
    || EarlyKeyframe(kf, duration, segment)
    || exists k <- kf :: segment - TARGET_SLACK <= k < MIN_SEGMENT && duration - k <= NEGLIGIBLE
  }

  /** A raw plan of one segment. */
  lemma OneSegmentMissesIff(kf: seq<real>, duration: real, segment: real, p: Plan)
    requires Spaced(kf, duration) && segment >= MIN_SEGMENT
    requires p == Segments(kf, duration, segment, 0.0, 0) && |p.starts| == 1
    ensures p.durations[0] < MIN_SEGMENT <==> Short(kf, duration, segment)
  {
    SpacedIsSorted(kf, duration);
    SegmentsContiguous(kf, duration, segment, 0.0, 0);
    SegmentsGreedy(kf, duration, segment, 0.0, 0);
    SegmentsReachEnd(kf, duration, segment, 0.0, 0);
    assert GreedyEnd(kf, duration, p.starts[0], Mark(0 + 0 + 1, segment), p.End(0));
    FirstOrNone(kf, duration, segment, p.End(0));
  }

  lemma FirstOrNone(kf: seq<real>, duration: real, segment: real, end: real)
    requires Spaced(kf, duration) && segment >= MIN_SEGMENT
    requires GreedyEnd(kf, duration, 0.0, segment, end) && duration - NEGLIGIBLE <= end <= duration
    ensures end < MIN_SEGMENT <==> Short(kf, duration, segment)
  {
    forall k <- kf | segment - TARGET_SLACK <= k < MIN_SEGMENT
      ensures k == end
    {
      assert Usable(k, 0.0, segment);
      if end < k {
        SpacedApart(kf, duration, end, k);
      }
    }
    if end < MIN_SEGMENT && end != duration {
      assert end in kf && segment - TARGET_SLACK <= end < MIN_SEGMENT && duration - end <= NEGLIGIBLE;
    }
  }

  /** With a second segment the media is long enough, and the first cut leaves more than next to nothing. */
  lemma TwoSegmentsLeaveRoom(kf: seq<real>, duration: real, segment: real, p: Plan)
    requires Spaced(kf, duration) && segment >= MIN_SEGMENT
    requires p == Segments(kf, duration, segment, 0.0, 0) && |p.starts| >= 2
    ensures Short(kf, duration, segment) <==> EarlyKeyframe(kf, duration, segment)
  {
    FirstCut(kf, duration, segment, p);
    SegmentsReachEnd(kf, duration, segment, p.starts[1], 1);
    var rest := Segments(kf, duration, segment, p.starts[1], 1);
    assert rest.starts == p.starts[1..] && rest.durations == p.durations[1..];
    SegmentsContiguous(kf, duration, segment, p.starts[1], 1);
    RestIsLong(kf, duration, segment, p.starts[1]);
    forall k <- kf | segment - TARGET_SLACK <= k < MIN_SEGMENT
      ensures k == p.starts[1]
    {
      assert Usable(k, 0.0, segment);
      if p.starts[1] < k {
        SpacedApart(kf, duration, p.starts[1], k);
      }
    }
  }

  /** A planned segment is longer than the negligible remainder, and ends within the media. */
  lemma RestIsLong(kf: seq<real>, duration: real, segment: real, start: real)
    requires Spaced(kf, duration) && Segments(kf, duration, segment, start, 1).starts != []
    ensures duration - start > NEGLIGIBLE
  {
    SpacedIsSorted(kf, duration);
    NextCutIsGreedy(kf, start, Mark(2, segment), duration);
  }

  /** The same for every plan: no segment is below the minimum if and only if the media is not short in this sense. */
  lemma PlanMeetsMinimumIff(keyframes: seq<real>, duration: real, segment: real)
    requires Sanitized(keyframes, duration) != [] && segment >= MIN_SEGMENT
    ensures var kf := Sanitized(keyframes, duration);
      (forall d <- Planned(duration, kf, segment).durations :: d >= MIN_SEGMENT) <==> !Short(kf, duration, segment)
  {
    var kf := Sanitized(keyframes, duration);
    var p := Segments(kf, duration, segment, 0.0, 0);
    var d := Planned(duration, kf, segment).durations;
    SanitizedIsSpaced(keyframes, duration);
    SegmentsReachEnd(kf, duration, segment, 0.0, 0);
    if |p.starts| >= 2 {
      PlanHasNoTinySegment(keyframes, duration, segment);
      FirstSegmentMissesIff(keyframes, duration, segment);
      TwoSegmentsLeaveRoom(kf, duration, segment, p);
      assert d[0] in d;
    } else {
      OneSegmentMissesIff(kf, duration, segment, p);
      assert d[0] in d && |d| == 1;
    }
  }

  lemma CleanedSample()
    ensures Sanitized([0.4997, 1.0], 1.5) == [0.0, 0.4997, 1.0]
  {
    var keyframes := [0.4997, 1.0];
    assert keyframes[..1] == [0.4997] && keyframes[..1][..0] == [];
    assert Kept([0.4997], 1.5) == [0.4997];
    assert Kept(keyframes, 1.5) == [0.4997, 1.0];
  }

  lemma NextCutSkips(k: real, kf: seq<real>, start: real, target: real, duration: real)
    ensures NextCut([k] + kf, start, target, duration)
         == if Usable(k, start, target) then k else NextCut(kf, start, target, duration)
  {
    assert ([k] + kf)[1..] == kf;
  }

  /** The slack shows: a keyframe at 0.4997 s, behind an inserted zero, ends a first segment shorter than the minimum. */
  lemma FirstSegmentCanMissMinimum()
    ensures Planned(1.5, Sanitized([0.4997, 1.0], 1.5), 0.5).durations[0] < MIN_SEGMENT
  {
    CleanedSample();
    var kf := [0.0, 0.4997, 1.0];
    NextCutSkips(0.0, [0.4997, 1.0], 0.0, 0.5, 1.5);
    NextCutSkips(0.4997, [1.0], 0.0, 0.5, 1.5);
    NextCutSkips(0.0, [0.4997, 1.0], 0.4997, 1.0, 1.5);
    NextCutSkips(0.4997, [1.0], 0.4997, 1.0, 1.5);
    NextCutSkips(1.0, [], 0.4997, 1.0, 1.5);
    assert kf == [0.0] + [0.4997, 1.0] && [0.4997, 1.0] == [0.4997] + [1.0] && [1.0] == [1.0] + [];
    assert NextCut(kf, 0.0, Mark(1, 0.5), 1.5) == 0.4997;
    assert NextCut(kf, 0.4997, Mark(2, 0.5), 1.5) == 1.0;
    assert Segments(kf, 1.5, 0.5, 0.4997, 1).starts != [];
  }

  // ---- the segment list of a video-on-demand playlist

  /** Keyframes and duration on a timeline from zero, then a copy plan, or the grid when no keyframe is usable. */
  function SegmentList(mediaDuration: real, segmentSec: real, startTime: real, keyframes: seq<real>): Plan {
    var duration := MediaDuration(mediaDuration, startTime);
    var kf := Sanitized(Normalized(keyframes, startTime), duration);
    if kf == [] then FixedPlan(duration, Length(segmentSec)) else Planned(duration, kf, segmentSec)
  }

  /** Every list built for media of positive length covers it: contiguous from zero, to within the negligible remainder. */
  lemma SegmentListCovers(mediaDuration: real, segmentSec: real, startTime: real, keyframes: seq<real>)
    requires MediaDuration(mediaDuration, startTime) > 0.0 && Length(segmentSec) >= MIN_SEGMENT
    ensures var p := SegmentList(mediaDuration, segmentSec, startTime, keyframes);
      var duration := MediaDuration(mediaDuration, startTime);
      && p.starts != []
      && p.Contiguous(0.0)
      && duration - NEGLIGIBLE <= Sum(p.durations) <= duration
  {
    var duration := MediaDuration(mediaDuration, startTime);
    var kf := Sanitized(Normalized(keyframes, startTime), duration);
    if kf == [] {
      FixedPlanPartitions(duration, Length(segmentSec));
    } else {
      PlanIsGreedyPartition(Normalized(keyframes, startTime), duration, Length(segmentSec));
    }
  }

  /**
    * What a list is made of. With a usable keyframe it is the greedy partition at the cleaned keyframes; with none it is the
    * grid of whole segments. A segment length that is not positive stands for 4 s.
    */
  lemma SegmentListIs(mediaDuration: real, segmentSec: real, startTime: real, keyframes: seq<real>)
    requires MediaDuration(mediaDuration, startTime) > 0.0 && (segmentSec <= 0.0 || segmentSec >= 0.5)
    ensures var p := SegmentList(mediaDuration, segmentSec, startTime, keyframes);
      var duration, segment := MediaDuration(mediaDuration, startTime), if segmentSec <= 0.0 then 4.0 else segmentSec;
      var times := Normalized(keyframes, startTime);
      if |times| as real <= duration * 15.0 && exists t <- times :: 0.0 <= t < duration then
        Sanitized(times, duration) != [] && Partition(Sanitized(times, duration), duration, segment, p)
      else
        && |p.durations| == |p.starts| >= 1
        && (forall i :: 0 <= i < |p.starts| ==> p.starts[i] == i as real * segment)
        && (forall i :: 0 <= i < |p.starts| - 1 ==> p.durations[i] == segment)
        && p.End(|p.starts| - 1) == duration
  {
    var duration, segment := MediaDuration(mediaDuration, startTime), if segmentSec <= 0.0 then 4.0 else segmentSec;
    var times := Normalized(keyframes, startTime);
    UnusableIff(times, duration);
    assert |times| as real <= duration * 15.0 && (exists t <- times :: 0.0 <= t < duration) <==> Sanitized(times, duration) != [];
    ListOf(mediaDuration, segmentSec, startTime, keyframes, duration, segment, Sanitized(times, duration));
    if Sanitized(times, duration) == [] {
      FixedPlanIsGrid(duration, segment);
      FixedPlanPartitions(duration, segment);
    } else {
      PlanIsGreedyPartition(times, duration, segment);
    }
  }

  lemma ListOf(mediaDuration: real, segmentSec: real, startTime: real, keyframes: seq<real>, duration: real, segment: real,
               kf: seq<real>)
    requires duration == MediaDuration(mediaDuration, startTime) && kf == Sanitized(Normalized(keyframes, startTime), duration)
    requires segment == if segmentSec <= 0.0 then 4.0 else segmentSec
    ensures SegmentList(mediaDuration, segmentSec, startTime, keyframes)
         == if kf == [] then FixedPlan(duration, segment) else Planned(duration, kf, segment)
  {
    PlannedLength(duration, kf, segmentSec);
  }

  /** Media without a length are listed as one segment of the usual length. */
  lemma NothingListed(mediaDuration: real, segmentSec: real, startTime: real, keyframes: seq<real>)
    requires MediaDuration(mediaDuration, startTime) <= 0.0
    ensures SegmentList(mediaDuration, segmentSec, startTime, keyframes)
         == Plan([0.0], [if segmentSec <= 0.0 then 4.0 else segmentSec])
  {
    UnusableIff(Normalized(keyframes, startTime), MediaDuration(mediaDuration, startTime));
    FixedPlanOfNothing(MediaDuration(mediaDuration, startTime), Length(segmentSec));
  }

  /** The copy plan itself plans nothing of such media, and the grid of media without keyframes or of a millisecond at most. */
  lemma PlannedOtherwise(duration: real, keyframes: seq<real>, segmentSec: real)
    ensures duration <= 0.0 ==> Planned(duration, keyframes, segmentSec) == Plan([], [])
    ensures duration > 0.0 && (keyframes == [] || duration <= 0.001) ==>
      Planned(duration, keyframes, segmentSec) == FixedPlan(duration, if segmentSec <= 0.0 then 4.0 else segmentSec)
  {}

  lemma PlannedLength(duration: real, kf: seq<real>, segmentSec: real)
    ensures Planned(duration, kf, segmentSec) == Planned(duration, kf, if segmentSec <= 0.0 then 4.0 else segmentSec)
  {}
}
