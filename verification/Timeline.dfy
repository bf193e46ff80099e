/** Planning of a media timeline in exact seconds: keyframe clean-up, the fixed grid and the tail merge. */
module Timeline {
  const MIN_KEYFRAME_GAP: real := 0.5
  const MIN_SEGMENT: real := 0.5
  const MAX_KEYFRAMES_PER_SEC: real := 15.0
  const START_EPSILON: real := 0.001
  const DEFAULT_SEGMENT: real := 4.0

  /** A planned partition: segment `i` covers `[starts[i], starts[i] + durations[i])`. */
  datatype Plan = Plan(starts: seq<real>, durations: seq<real>) {
    ghost predicate Valid() {
      |starts| == |durations|
    }

    function End(i: nat): real
      requires i < |starts| && i < |durations|
    {
      starts[i] + durations[i]
    }

    /** Each segment begins where the previous one ends, and the first begins at `from`. */
    ghost predicate Contiguous(from: real) {
      && Valid()
      && (starts != [] ==> starts[0] == from)
      && forall i :: 0 <= i < |starts| - 1 ==> starts[i + 1] == End(i)
    }
  }

  function Sum(xs: seq<real>): real {
    if xs == [] then 0.0 else xs[0] + Sum(xs[1..])
  }

  // ---- rebasing to a timeline that starts at zero

  /** The media length once the container's start time is taken off. */
  function MediaDuration(duration: real, startTime: real): real {
    if duration <= 0.0 || startTime <= START_EPSILON then duration
    else if duration - startTime < 0.0 then 0.0
    else duration - startTime
  }

  function Rebased(t: real, startTime: real): real {
    if t - startTime < 0.0 then 0.0 else t - startTime
  }

  function Normalized(keyframes: seq<real>, startTime: real): (r: seq<real>)
    ensures |r| == |keyframes|
  {
    if keyframes == [] || startTime <= START_EPSILON then keyframes
    else seq(|keyframes|, i requires 0 <= i < |keyframes| => Rebased(keyframes[i], startTime))
  }

  method NormalizeKeyframeTimes(keyframes: seq<real>, startTime: real) returns (out: seq<real>)
    ensures out == Normalized(keyframes, startTime)
  {
    if keyframes == [] || startTime <= START_EPSILON {
      return keyframes;
    }
    out := [];
    for i := 0 to |keyframes|
      invariant |out| == i
      invariant forall j :: 0 <= j < i ==> out[j] == Rebased(keyframes[j], startTime)
    {
      var t := keyframes[i] - startTime;
      if t < 0.0 {
        t := 0.0;
      }
      out := out + [t];
    }
  }

  /** Rebasing keeps what is inside the media inside: a container time from the start on is before the end exactly if it is. */
  lemma RebasedInside(t: real, duration: real, startTime: real)
    requires startTime > 0.001 && t >= startTime && duration > 0.0
    ensures t < duration <==> Rebased(t, startTime) < MediaDuration(duration, startTime)
    ensures Rebased(t, startTime) == t - startTime && MediaDuration(duration, startTime) >= 0.0
  {}

  /** A keyframe before the start counts as one at the start; a later one keeps its distance from it. */
  lemma RebasedTo(keyframes: seq<real>, startTime: real, i: nat)
    requires startTime > 0.001 && i < |keyframes|
    ensures var r := Normalized(keyframes, startTime)[i];
      r >= 0.0 && (keyframes[i] < startTime ==> r == 0.0) && (keyframes[i] >= startTime ==> startTime + r == keyframes[i])
  {}

  /** Without a start time worth the name, or without a duration, nothing is rebased. */
  lemma NothingRebased(keyframes: seq<real>, duration: real, startTime: real)
    requires startTime <= 0.001
    ensures MediaDuration(duration, startTime) == duration && Normalized(keyframes, startTime) == keyframes
  {}

  // ---- keyframe clean-up

  /** What one pass over the probed times keeps: in range, and no closer than the minimum gap to the last kept one. */
  function Kept(keyframes: seq<real>, duration: real): seq<real> {
    if keyframes == [] then []
    else
      var kept := Kept(keyframes[..|keyframes| - 1], duration);
      var t := keyframes[|keyframes| - 1];
      if t < 0.0 || t >= duration then kept
      else if kept == [] then [t]
      else if t - kept[|kept| - 1] < MIN_KEYFRAME_GAP then kept
      else kept + [t]
  }

  /** A list that does not begin at zero gets a leading zero. */
  function FromZero(keyframes: seq<real>): seq<real> {
    if keyframes != [] && keyframes[0] > 0.001 then [0.0] + keyframes else keyframes
  }

  /** The cleaned-up list; empty when the probe is unusable. */
  function Sanitized(keyframes: seq<real>, duration: real): seq<real> {
    if keyframes == [] || duration <= 0.0 then []
    else if |keyframes| as real > duration * MAX_KEYFRAMES_PER_SEC then []
    else FromZero(Kept(keyframes, duration))
  }

  method SanitizeKeyframes(keyframes: seq<real>, duration: real) returns (out: seq<real>)
    ensures out == Sanitized(keyframes, duration)
  {
    if keyframes == [] || duration <= 0.0 {
      return [];
    }
    if |keyframes| as real > duration * MAX_KEYFRAMES_PER_SEC {
      return [];
    }
    out := [];
    for i := 0 to |keyframes|
      invariant out == Kept(keyframes[..i], duration)
    {
      assert keyframes[..i + 1][..i] == keyframes[..i];
      var t := keyframes[i];
      if t < 0.0 || t >= duration {
        continue;
      }
      if out == [] {
        out := out + [t];
        continue;
      }
      if t - out[|out| - 1] < MIN_KEYFRAME_GAP {
        continue;
      }
      out := out + [t];
    }
    assert keyframes[..|keyframes|] == keyframes;
    if out == [] {
      return [];
    }
    if out[0] > 0.001 {
      out := [0.0] + out;
    }
  }

  /** The shape every planner below relies on: inside the timeline, opening at zero, spaced after the first gap. */
  ghost predicate Spaced(kf: seq<real>, duration: real) {
    && (forall k <- kf :: 0.0 <= k < duration)
    && (kf != [] ==> kf[0] <= 0.001)
    && (|kf| > 1 ==> kf[1] > 0.001)
    && (|kf| > 1 && kf[0] > 0.0 ==> kf[1] >= kf[0] + 0.5)
    && forall i :: 1 <= i < |kf| - 1 ==> kf[i + 1] >= kf[i] + 0.5
  }

  ghost predicate GapsAtLeast(kf: seq<real>, gap: real) {
    forall i :: 0 <= i < |kf| - 1 ==> kf[i + 1] >= kf[i] + gap
  }

  lemma {:induction false} KeptIsSpaced(keyframes: seq<real>, duration: real)
    ensures var kept := Kept(keyframes, duration);
      && (forall k <- kept :: k in keyframes && 0.0 <= k < duration)
      && GapsAtLeast(kept, MIN_KEYFRAME_GAP)
  {
    if keyframes != [] {
      KeptIsSpaced(keyframes[..|keyframes| - 1], duration);
    }
  }

  /** The cleaned-up list is spaced; with the usual minimum gap everywhere unless a zero was put in front. */
  lemma {:induction false} SanitizedIsSpaced(keyframes: seq<real>, duration: real)
    ensures var kf := Sanitized(keyframes, duration);
      && Spaced(kf, duration)
      && (forall k <- kf :: k == 0.0 || k in keyframes)
      && (kf != [] ==> duration * MAX_KEYFRAMES_PER_SEC >= 1.0)
  {
    KeptIsSpaced(keyframes, duration);
    var kept := Kept(keyframes, duration);
    var kf := FromZero(kept);
    assert |kept| > 1 ==> kept[0] in kept && kept[0 + 1] >= kept[0] + MIN_KEYFRAME_GAP;
    forall i | 1 <= i < |kf| - 1
      ensures kf[i + 1] >= kf[i] + MIN_KEYFRAME_GAP
    {
      var at := if kf == kept then i else i - 1;
      assert kept[at + 1] >= kept[at] + MIN_KEYFRAME_GAP;
    }
    assert forall k <- kf :: k == 0.0 || k in kept;
  }

  /** A list in range is kept as it is if and only if it has the gap everywhere. */
  lemma {:induction false} KeptWhole(kf: seq<real>, duration: real)
    requires forall k <- kf :: 0.0 <= k < duration
    ensures Kept(kf, duration) == kf <==> GapsAtLeast(kf, MIN_KEYFRAME_GAP)
    ensures |Kept(kf, duration)| <= |kf|
    decreases |kf|
  {
    if kf != [] {
      var n := |kf| - 1;
      var front, t := kf[..n], kf[n];
      assert kf == front + [t] && t in kf && forall k <- front :: k in kf;
      KeptWhole(front, duration);
      GapsStep(front, t);
      Appended(Kept(front, duration), front, t);
    }
  }

  lemma Appended(kept: seq<real>, front: seq<real>, t: real)
    requires |kept| <= |front|
    ensures kept != front + [t] && (kept + [t] == front + [t] <==> kept == front)
  {
    if kept + [t] == front + [t] {
      assert (kept + [t])[..|kept|] == kept && (front + [t])[..|front|] == front;
    }
  }

  /** A probe is of no use exactly when it is empty, over the rate limit, or without any time inside the media. */
  lemma UnusableIff(keyframes: seq<real>, duration: real)
    ensures Sanitized(keyframes, duration) == [] <==>
      || duration <= 0.0 || |keyframes| as real > duration * 15.0
      || forall t <- keyframes :: t < 0.0 || t >= duration
  {
    KeptNothingIff(keyframes, duration);
    var kept := Kept(keyframes, duration);
    assert kept != [] ==> |FromZero(kept)| >= 1;
  }

  lemma {:induction false} KeptNothingIff(keyframes: seq<real>, duration: real)
    ensures Kept(keyframes, duration) == [] <==> forall t <- keyframes :: t < 0.0 || t >= duration
    decreases |keyframes|
  {
    if keyframes != [] {
      var n := |keyframes| - 1;
      KeptNothingIff(keyframes[..n], duration);
      assert forall t <- keyframes :: t in keyframes[..n] || t == keyframes[n];
      assert keyframes[n] in keyframes && forall t <- keyframes[..n] :: t in keyframes;
    }
  }

  lemma GapsStep(kf: seq<real>, t: real)
    ensures GapsAtLeast(kf + [t], MIN_KEYFRAME_GAP) <==>
            GapsAtLeast(kf, MIN_KEYFRAME_GAP) && (kf != [] ==> t >= kf[|kf| - 1] + MIN_KEYFRAME_GAP)
  {
    var more := kf + [t];
    if GapsAtLeast(more, MIN_KEYFRAME_GAP) {
      forall i | 0 <= i < |kf| - 1
        ensures kf[i + 1] >= kf[i] + MIN_KEYFRAME_GAP
      {
        assert more[i + 1] >= more[i] + MIN_KEYFRAME_GAP;
      }
      if kf != [] {
        assert more[|kf| - 1 + 1] >= more[|kf| - 1] + MIN_KEYFRAME_GAP;
      }
    }
    if GapsAtLeast(kf, MIN_KEYFRAME_GAP) && (kf != [] ==> t >= kf[|kf| - 1] + MIN_KEYFRAME_GAP) {
      forall i | 0 <= i < |more| - 1
        ensures more[i + 1] >= more[i] + MIN_KEYFRAME_GAP
      {
        assert i < |kf| - 1 ==> kf[i + 1] >= kf[i] + MIN_KEYFRAME_GAP;
      }
    }
  }

  /**
    * Cleaning a cleaned list again changes nothing if and only if it has the gap after its first time too, which only a
    * zero put in front can lack, and is not over the rate limit for that zero.
    */
  lemma CleanTwice(keyframes: seq<real>, duration: real)
    ensures var kf := Sanitized(keyframes, duration);
      Sanitized(kf, duration) == kf <==>
      kf == [] || (|kf| as real <= duration * MAX_KEYFRAMES_PER_SEC && (|kf| > 1 ==> kf[1] >= kf[0] + MIN_KEYFRAME_GAP))
  {
    var kf := Sanitized(keyframes, duration);
    SanitizedIsSpaced(keyframes, duration);
    KeptWhole(kf, duration);
    assert |kf| > 1 && GapsAtLeast(kf, MIN_KEYFRAME_GAP) ==> kf[0 + 1] >= kf[0] + MIN_KEYFRAME_GAP;
    if kf != [] {
      assert kf[0] in kf;
      KeptOpens(kf, duration);
    }
  }

  lemma {:induction false} KeptOpens(kf: seq<real>, duration: real)
    requires kf != [] && 0.0 <= kf[0] < duration
    ensures Kept(kf, duration) != [] && Kept(kf, duration)[0] == kf[0]
    decreases |kf|
  {
    if |kf| > 1 {
      KeptOpens(kf[..|kf| - 1], duration);
    }
  }

  /** A probe of one time a third of a second in: the second cleaning drops the time for the zero put before it. */
  lemma CleaningCanGoOn()
    ensures Sanitized([0.3], 10.0) == [0.0, 0.3] && Sanitized([0.0, 0.3], 10.0) == [0.0]
  {
    assert [0.3][..0] == [] && [0.0, 0.3][..1] == [0.0] && [0.0][..0] == [];
    assert Kept([0.3], 10.0) == [0.3];
    assert Kept([0.0], 10.0) == [0.0];
  }

  ghost predicate Sorted(xs: seq<real>) {
    forall i, j :: 0 <= i <= j < |xs| ==> xs[i] <= xs[j]
  }

  ghost predicate Covers(kept: seq<real>, t: real) {
    exists k <- kept :: k <= t < k + MIN_KEYFRAME_GAP
  }

  lemma CoversMore(kept: seq<real>, more: seq<real>, t: real)
    requires kept <= more && Covers(kept, t)
    ensures Covers(more, t)
  {
    var k :| k in kept && k <= t < k + MIN_KEYFRAME_GAP;
    assert k in more;
  }

  lemma LastCovers(kept: seq<real>, t: real)
    requires kept != [] && kept[|kept| - 1] <= t < kept[|kept| - 1] + MIN_KEYFRAME_GAP
    ensures Covers(kept, t)
  {
    assert kept[|kept| - 1] in kept;
  }

  lemma KeptStep(keyframes: seq<real>, duration: real)
    requires keyframes != [] && Sorted(keyframes)
    ensures var n := |keyframes| - 1;
      && Kept(keyframes[..n], duration) <= Kept(keyframes, duration)
      && (0.0 <= keyframes[n] < duration ==> Covers(Kept(keyframes, duration), keyframes[n]))
  {
    var n := |keyframes| - 1;
    var kept := Kept(keyframes, duration);
    KeptIsSpaced(keyframes, duration);
    if 0.0 <= keyframes[n] < duration {
      assert kept[|kept| - 1] in keyframes;
      LastCovers(kept, keyframes[n]);
    }
  }

  /** Nothing is lost by the clean-up of a sorted probe: every usable time is within the gap after a kept one. */
  lemma {:induction false} KeptCovers(keyframes: seq<real>, duration: real)
    requires Sorted(keyframes)
    ensures forall t <- keyframes :: 0.0 <= t < duration ==> Covers(Kept(keyframes, duration), t)
  {
    if keyframes != [] {
      var n := |keyframes| - 1;
      KeptCovers(keyframes[..n], duration);
      KeptStep(keyframes, duration);
      forall t <- keyframes | 0.0 <= t < duration
        ensures Covers(Kept(keyframes, duration), t)
      {
        if t in keyframes[..n] {
          CoversMore(Kept(keyframes[..n], duration), Kept(keyframes, duration), t);
        }
      }
    }
  }

  // ---- the tail merge and the fixed grid

  /** A last segment below the minimum joins the one before it. */
  function MergeTinyTail(p: Plan): (r: Plan)
    requires |p.starts| == |p.durations|
  {
    var n := |p.durations|;
    if n < 2 || p.durations[n - 1] >= MIN_SEGMENT then p
    else Plan(p.starts[..n - 1], p.durations[..n - 2] + [p.durations[n - 2] + p.durations[n - 1]])
  }

  /** The nominal start of grid segment `i`. */
  function Mark(i: nat, segment: real): real {
    i as real * segment
  }

  function Grid(duration: real, segment: real, count: nat): Plan {
    Plan(seq(count, i requires 0 <= i => Mark(i, segment)),
         seq(count, i requires 0 <= i => GridLength(duration, segment, Mark(i, segment))))
  }

  function GridLength(duration: real, segment: real, start: real): real {
    var rem := duration - start;
    if 0.0 < rem < segment then rem else segment
  }

  function Ceil(x: real): int {
    -((-x).Floor)
  }

  function GridCount(duration: real, segment: real): (n: nat)
    requires segment > 0.0
    ensures n >= 1
  {
    var count := Ceil(duration / segment);
    if count < 1 then 1 else count
  }

  function FixedPlan(duration: real, segment: real): Plan
    requires segment > 0.0
  {
    MergeTinyTail(Grid(duration, segment, GridCount(duration, segment)))
  }

  method MergeTinyTailSegment(starts: seq<real>, durations: seq<real>) returns (s: seq<real>, d: seq<real>)
    requires |starts| == |durations|
    ensures Plan(s, d) == MergeTinyTail(Plan(starts, durations))
  {
    var n := |durations|;
    if n < 2 || durations[n - 1] >= MIN_SEGMENT {
      return starts, durations;
    }
    d := durations[n - 2 := durations[n - 2] + durations[n - 1]];
    s, d := starts[..n - 1], d[..n - 1];
  }

  method FixedTimeline(duration: real, segment: real) returns (starts: seq<real>, durations: seq<real>)
    requires segment > 0.0
    ensures Plan(starts, durations) == FixedPlan(duration, segment)
  {
    var count := Ceil(duration / segment);
    if count < 1 {
      count := 1;
    }
    starts, durations := [], [];
    for i := 0 to count
      invariant |starts| == |durations| == i
      invariant forall j :: 0 <= j < i ==> starts[j] == Mark(j, segment)
      invariant forall j :: 0 <= j < i ==> durations[j] == GridLength(duration, segment, Mark(j, segment))
    {
      var start := Mark(i, segment);
      var dur := segment;
      var rem := duration - start;
      if rem > 0.0 && rem < dur {
        dur := rem;
      }
      if dur <= 0.0 {
        break;
      }
      starts, durations := starts + [start], durations + [dur];
    }
    assert Plan(starts, durations) == Grid(duration, segment, GridCount(duration, segment));
    starts, durations := MergeTinyTailSegment(starts, durations);
  }

  /** Contiguous segments from zero add up to the end of the last one. */
  lemma {:induction false} ContiguousSum(p: Plan, from: real)
    requires p.Contiguous(from) && p.starts != []
    ensures from + Sum(p.durations) == p.End(|p.starts| - 1)
    decreases |p.starts|
  {
    var rest := Plan(p.starts[1..], p.durations[1..]);
    if |p.starts| == 1 {
      assert rest.durations == [];
    } else {
      forall i: nat | i < |rest.starts| - 1
        ensures rest.starts[i + 1] == rest.End(i)
      {
        assert p.starts[i + 1 + 1] == p.End(i + 1);
      }
      assert p.starts[0 + 1] == p.End(0);
      ContiguousSum(rest, p.starts[1]);
    }
  }

  lemma CeilBrackets(x: real)
    ensures (Ceil(x) as real) - 1.0 < x <= Ceil(x) as real
  {}

  lemma TimesDivides(duration: real, segment: real)
    requires segment > 0.0
    ensures duration / segment * segment == duration
  {}

  lemma Scales(a: real, b: real, segment: real)
    requires segment > 0.0
    ensures a < b ==> a * segment < b * segment
    ensures a <= b ==> a * segment <= b * segment
  {}

  /** The grid's count is the least one that reaches the duration. */
  lemma GridCountReaches(duration: real, segment: real)
    requires duration > 0.0 && segment > 0.0
    ensures var n := GridCount(duration, segment);
      Mark(n - 1, segment) < duration <= Mark(n, segment)
  {
    var x := duration / segment;
    TimesDivides(duration, segment);
    CeilBrackets(x);
    if x <= 0.0 {
      Scales(x, 0.0, segment);
    }
    var n := GridCount(duration, segment);
    Scales(n as real - 1.0, x, segment);
    Scales(x, n as real, segment);
  }

  lemma GridRow(i: nat, segment: real)
    ensures Mark(i + 1, segment) == Mark(i, segment) + segment
  {}

  lemma GridIsContiguous(duration: real, segment: real)
    requires duration > 0.0 && segment > 0.0
    ensures var g := Grid(duration, segment, GridCount(duration, segment));
      g.Contiguous(0.0) && g.End(|g.starts| - 1) == duration
  {
    var n := GridCount(duration, segment);
    var g := Grid(duration, segment, n);
    GridCountReaches(duration, segment);
    forall i: nat | i < n - 1
      ensures g.starts[i + 1] == g.End(i)
    {
      FullRow(duration, segment, n, i);
    }
    GridRow(n - 1, segment);
  }

  lemma MarksGrow(i: nat, j: nat, segment: real)
    requires i <= j && segment > 0.0
    ensures Mark(i, segment) <= Mark(j, segment)
  {
    Scales(i as real, j as real, segment);
  }

  lemma FullRow(duration: real, segment: real, n: nat, i: nat)
    requires segment > 0.0 && i + 1 < n && Mark(n - 1, segment) < duration
    ensures Mark(i, segment) + GridLength(duration, segment, Mark(i, segment)) == Mark(i + 1, segment)
  {
    GridRow(i, segment);
    MarksGrow(i + 1, n - 1, segment);
  }

  lemma MergeKeepsContiguous(p: Plan, from: real)
    requires p.Contiguous(from)
    ensures MergeTinyTail(p).Contiguous(from)
    ensures p.starts != [] ==>
              var r := MergeTinyTail(p); r.starts != [] && r.End(|r.starts| - 1) == p.End(|p.starts| - 1)
  {
    var n, r := |p.starts|, MergeTinyTail(p);
    if n >= 2 && p.durations[n - 1] < MIN_SEGMENT {
      assert p.starts[n - 1] == p.End(n - 2);
      assert forall i :: 0 <= i < n - 2 ==> r.starts[i] == p.starts[i] && r.durations[i] == p.durations[i];
      forall i: nat | i < |r.starts| - 1
        ensures r.starts[i + 1] == r.End(i)
      {
        assert p.starts[i + 1] == p.End(i);
      }
    }
  }

  /** The fixed grid partitions a positive duration exactly: its segments are contiguous from zero and add up to it. */
  lemma FixedPlanPartitions(duration: real, segment: real)
    requires duration > 0.0 && segment > 0.0
    ensures var p := FixedPlan(duration, segment);
      && p.starts != []
      && p.Contiguous(0.0)
      && p.End(|p.starts| - 1) == duration
      && Sum(p.durations) == duration
  {
    var g := Grid(duration, segment, GridCount(duration, segment));
    GridIsContiguous(duration, segment);
    MergeKeepsContiguous(g, 0.0);
    ContiguousSum(FixedPlan(duration, segment), 0.0);
  }

  /** Grid starts are the multiples of the segment length. */
  lemma FixedPlanStarts(duration: real, segment: real)
    requires segment > 0.0
    ensures GapsAtLeast(FixedPlan(duration, segment).starts, segment)
  {
    var p := FixedPlan(duration, segment);
    forall i: nat | i < |p.starts| - 1
      ensures p.starts[i + 1] >= p.starts[i] + segment
    {
      GridRow(i, segment);
    }
  }

  /** The raw grid, row by row: full segments, and a last one that ends with the media. */
  lemma GridRows(duration: real, segment: real)
    requires duration > 0.0 && segment > 0.0
    ensures var n := GridCount(duration, segment);
      var g := Grid(duration, segment, n);
      && |g.starts| == n && |g.durations| == n
      && (forall i :: 0 <= i < n ==> g.starts[i] == i as real * segment)
      && (forall i :: 0 <= i < n - 1 ==> g.durations[i] == segment)
      && 0.0 < g.durations[n - 1] <= segment
  {
    var n := GridCount(duration, segment);
    GridCountReaches(duration, segment);
    forall i: nat | i < n - 1
      ensures GridLength(duration, segment, Mark(i, segment)) == segment
    {
      FullRow(duration, segment, n, i);
      GridRow(i, segment);
    }
    GridRow(n - 1, segment);
  }

  /**
    * The grid is made of whole segments: it starts at the multiples of the segment length, every segment but the last has
    * exactly that length, and the last is under half a second longer. With two or more of them it is not tiny either.
    */
  lemma FixedPlanIsGrid(duration: real, segment: real)
    requires duration > 0.0 && segment > 0.0
    ensures var p := FixedPlan(duration, segment);
      var n := |p.starts|;
      && n >= 1 && |p.durations| == n
      && (forall i :: 0 <= i < n ==> p.starts[i] == i as real * segment)
      && (forall i :: 0 <= i < n - 1 ==> p.durations[i] == segment)
      && 0.0 < p.durations[n - 1] < segment + 0.5
      && (n >= 2 && segment >= 0.5 ==> p.durations[n - 1] >= 0.5)
  {
    GridRows(duration, segment);
  }

  /** Without a duration there is one segment. */
  lemma FixedPlanOfNothing(duration: real, segment: real)
    requires duration <= 0.0 && segment > 0.0
    ensures FixedPlan(duration, segment) == Plan([0.0], [segment])
  {
    TimesDivides(duration, segment);
    CeilBrackets(duration / segment);
    if duration / segment > 0.0 {
      Scales(0.0, duration / segment, segment);
    }
    assert GridCount(duration, segment) == 1;
    assert Mark(0, segment) == 0.0;
  }

  // ---- the seek keyframe

  /** The last of the leading keyframes that do not pass `sec` by more than a millisecond. */
  function SeekFrom(keyframes: seq<real>, sec: real, seek: real): real {
    if keyframes == [] || keyframes[0] > sec + 0.001 then seek
    else SeekFrom(keyframes[1..], sec, keyframes[0])
  }

  function SeekBefore(keyframes: seq<real>, sec: real): real {
    if keyframes == [] || sec <= 0.0 then 0.0 else SeekFrom(keyframes, sec, 0.0)
  }

  method KeyframeSeekBefore(keyframes: seq<real>, sec: real) returns (seek: real)
    ensures seek == SeekBefore(keyframes, sec)
  {
    if keyframes == [] || sec <= 0.0 {
      return 0.0;
    }
    seek := 0.0;
    for i := 0 to |keyframes|
      invariant SeekFrom(keyframes[i..], sec, seek) == SeekFrom(keyframes, sec, 0.0)
    {
      var kf := keyframes[i];
      assert keyframes[i..][1..] == keyframes[i + 1..];
      if kf > sec + 0.001 {
        break;
      }
      seek := kf;
    }
  }

  /** A listed keyframe that stands clear of the next one is its own seek point. */
  lemma {:induction false} SeekFromListed(keyframes: seq<real>, i: nat, seek: real)
    requires i < |keyframes|
    requires forall j :: 0 <= j < i ==> keyframes[j] <= keyframes[i] + 0.001
    requires i + 1 < |keyframes| ==> keyframes[i + 1] > keyframes[i] + 0.001
    ensures SeekFrom(keyframes, keyframes[i], seek) == keyframes[i]
  {
    if i > 0 {
      SeekFromListed(keyframes[1..], i - 1, keyframes[0]);
    }
  }
}
