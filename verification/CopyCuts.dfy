/** Explicit cut times of a restarted copy job, and the muxer that obeys them. */
module CopyCuts {
  import opened Timeline
  import opened CopyPlan

  const MIN_CUT: real := 0.0005

  // ---- the emitted times

  function CutsFrom(starts: seq<real>, seek: real, j: nat): seq<real>
    decreases |starts| - j
  {
    if j + 1 >= |starts| then []
    else
      var t := starts[j + 1] - seek;
      if t > MIN_CUT then [t] + CutsFrom(starts, seek, j + 1) else CutsFrom(starts, seek, j + 1)
  }

  /** The planned boundaries after `startIndex`, relative to the seek point. */
  function CutTimes(starts: seq<real>, seek: real, startIndex: int): seq<real> {
    if startIndex < 0 || startIndex >= |starts| then [] else CutsFrom(starts, seek, startIndex)
  }

  lemma {:induction false} CutsFromHas(starts: seq<real>, seek: real, j: nat, t: real)
    ensures t in CutsFrom(starts, seek, j) <==> t > MIN_CUT && exists i :: j < i < |starts| && starts[i] == seek + t
    decreases |starts| - j
  {
    if j + 1 < |starts| {
      CutsFromHas(starts, seek, j + 1, t);
      assert starts[j + 1] == seek + t <==> starts[j + 1] - seek == t;
    }
  }

  /** The listed times are the later boundaries more than half a millisecond past the seek, none of them left out. */
  lemma CutTimesHave(starts: seq<real>, seek: real, startIndex: nat, t: real)
    ensures t in CutTimes(starts, seek, startIndex) <==>
      t > 0.0005 && exists i :: startIndex < i < |starts| && starts[i] == seek + t
  {
    if startIndex < |starts| {
      CutsFromHas(starts, seek, startIndex, t);
    }
  }

  lemma {:induction false} CutsFromIncreasing(starts: seq<real>, seek: real, j: nat)
    requires Increasing(starts)
    ensures Increasing(CutsFrom(starts, seek, j))
    decreases |starts| - j
  {
    if j + 1 < |starts| {
      CutsFromIncreasing(starts, seek, j + 1);
      var rest := CutsFrom(starts, seek, j + 1);
      forall i | 0 <= i < |rest|
        ensures rest[i] > starts[j + 1] - seek
      {
        assert rest[i] in rest;
        CutsFromHas(starts, seek, j + 1, rest[i]);
      }
    }
  }

  method CopySegmentCutTimes(starts: seq<real>, seek: real, startIndex: int) returns (times: seq<real>)
    ensures times == CutTimes(starts, seek, startIndex)
  {
    if startIndex < 0 || startIndex >= |starts| {
      return [];
    }
    times := [];
    var j: nat := startIndex;
    while j < |starts| - 1
      invariant startIndex <= j <= |starts| - 1
      invariant times + CutsFrom(starts, seek, j) == CutsFrom(starts, seek, startIndex)
    {
      var t := starts[j + 1] - seek;
      if t > MIN_CUT {
        assert times + ([t] + CutsFrom(starts, seek, j + 1)) == (times + [t]) + CutsFrom(starts, seek, j + 1);
        times := times + [t];
      }
      j := j + 1;
    }
  }

  /** A time as it reaches the muxer: a millisecond early, and floored to whole milliseconds. */
  function Emitted(v: real): real {
    ((v - 0.001) * 1000.0).Floor as real / 1000.0
  }

  function EmittedTimes(vals: seq<real>): (r: seq<real>)
    ensures |r| == |vals|
  {
    seq(|vals|, i requires 0 <= i < |vals| => Emitted(vals[i]))
  }

  method FloatsToArgs(vals: seq<real>) returns (out: seq<real>)
    ensures out == EmittedTimes(vals)
  {
    out := [];
    for i := 0 to |vals|
      invariant |out| == i
      invariant forall j :: 0 <= j < i ==> out[j] == Emitted(vals[j])
    {
      out := out + [((vals[i] - 0.001) * 1000.0).Floor as real / 1000.0];
    }
  }

  /** The emitted time is before its boundary, by one to two milliseconds. */
  lemma EmittedBias(v: real)
    ensures v - 0.002 < Emitted(v) <= v - 0.001
  {}

  /** Where a copy job's input seek lands. */
  function SeekPoint(seekTimes: seq<real>, startSec: real): (s: real)
    ensures s >= 0.0
    ensures seekTimes == [] && startSec >= 0.0 ==> s == startSec
  {
    var s := if seekTimes != [] then SeekBefore(seekTimes, startSec) else startSec;
    if s < 0.0 then 0.0 else s
  }

  // ---- the muxer

  /** Cuts at the first keyframe that is not before the next listed time, one time per cut. */
  function MuxCuts(frames: seq<real>, times: seq<real>): seq<real> {
    if frames == [] || times == [] then []
    else if frames[0] >= times[0] then [frames[0]] + MuxCuts(frames[1..], times[1..])
    else MuxCuts(frames[1..], times)
  }

  ghost predicate Increasing(xs: seq<real>) {
    forall i, j :: 0 <= i < j < |xs| ==> xs[i] < xs[j]
  }

  /** Each time is at or before its boundary, and after every earlier boundary. */
  ghost predicate Brackets(times: seq<real>, bounds: seq<real>) {
    && |times| == |bounds|
    && (forall i :: 0 <= i < |times| ==> times[i] <= bounds[i])
    && forall i, j :: 0 <= i < j < |times| ==> bounds[i] < times[j]
  }

  ghost predicate NoneBetween(frames: seq<real>, time: real, bound: real) {
    forall k <- frames :: !(time <= k < bound)
  }

  /** No keyframe falls between a listed time and the boundary it stands for. */
  ghost predicate Clear(frames: seq<real>, times: seq<real>, bounds: seq<real>)
    requires |times| == |bounds|
  {
    forall i :: 0 <= i < |times| ==> NoneBetween(frames, times[i], bounds[i])
  }

  lemma BoundsLater(frames: seq<real>, bounds: seq<real>)
    requires frames != [] && (forall b <- bounds :: b in frames && b != frames[0])
    ensures forall b <- bounds :: b in frames[1..]
  {
    assert frames == [frames[0]] + frames[1..];
  }

  lemma ClearTail(frames: seq<real>, times: seq<real>, bounds: seq<real>)
    requires frames != [] && Brackets(times, bounds)
    requires forall i :: 0 <= i < |times| ==> !(times[i] <= frames[0] < bounds[i])
    ensures Clear(frames, times, bounds) <==> Clear(frames[1..], times, bounds)
  {
    assert frames == [frames[0]] + frames[1..];
    forall i | 0 <= i < |times|
      ensures NoneBetween(frames, times[i], bounds[i]) <==> NoneBetween(frames[1..], times[i], bounds[i])
    {
      assert forall k :: k in frames <==> k == frames[0] || k in frames[1..];
    }
  }

  lemma ClearDrop(frames: seq<real>, times: seq<real>, bounds: seq<real>)
    requires Brackets(times, bounds) && times != []
    requires forall k <- frames :: k >= bounds[0]
    ensures Brackets(times[1..], bounds[1..])
    ensures Clear(frames, times, bounds) <==> Clear(frames, times[1..], bounds[1..])
  {
    assert NoneBetween(frames, times[0], bounds[0]);
    if Clear(frames, times[1..], bounds[1..]) {
      forall i | 0 <= i < |times|
        ensures NoneBetween(frames, times[i], bounds[i])
      {
        if i > 0 {
          assert NoneBetween(frames, times[1..][i - 1], bounds[1..][i - 1]);
        }
      }
    }
  }

  lemma FirstIsLeast(frames: seq<real>)
    requires frames != [] && Increasing(frames)
    ensures Increasing(frames[1..])
    ensures forall k <- frames :: k >= frames[0]
    ensures forall k <- frames[1..] :: k > frames[0]
  {}

  /** The muxer cuts at exactly the listed boundaries if and only if no keyframe intrudes before one of them. */
  lemma {:induction false} CutsAtBounds(frames: seq<real>, times: seq<real>, bounds: seq<real>)
    requires Increasing(frames) && Brackets(times, bounds)
    requires forall b <- bounds :: b in frames
    ensures MuxCuts(frames, times) == bounds <==> Clear(frames, times, bounds)
    decreases |frames|, 1
  {
    if times == [] {
      assert bounds == [];
    } else {
      assert bounds[0] in frames;
      FirstIsLeast(frames);
      if frames[0] < times[0] {
        CutsAtBoundsSkip(frames, times, bounds);
      } else if frames[0] == bounds[0] {
        CutsAtBoundsCut(frames, times, bounds);
      } else {
        assert frames[0] in frames && times[0] <= frames[0] < bounds[0];
        assert !NoneBetween(frames, times[0], bounds[0]);
      }
    }
  }

  lemma {:induction false} CutsAtBoundsSkip(frames: seq<real>, times: seq<real>, bounds: seq<real>)
    requires Increasing(frames) && Brackets(times, bounds) && times != [] && frames != []
    requires forall b <- bounds :: b in frames
    requires frames[0] < times[0]
    ensures MuxCuts(frames, times) == bounds <==> Clear(frames, times, bounds)
    decreases |frames|, 0
  {
    FirstIsLeast(frames);
    forall i | 0 <= i < |times|
      ensures frames[0] < times[i] <= bounds[i]
    {
      if i > 0 {
        assert bounds[0] < times[i];
      }
    }
    BoundsLater(frames, bounds);
    ClearTail(frames, times, bounds);
    CutsAtBounds(frames[1..], times, bounds);
  }

  lemma {:induction false} CutsAtBoundsCut(frames: seq<real>, times: seq<real>, bounds: seq<real>)
    requires Increasing(frames) && Brackets(times, bounds) && times != [] && frames != []
    requires forall b <- bounds :: b in frames
    requires frames[0] == bounds[0]
    ensures MuxCuts(frames, times) == bounds <==> Clear(frames, times, bounds)
    decreases |frames|, 0
  {
    FirstIsLeast(frames);
    forall b <- bounds[1..]
      ensures b in frames && b != frames[0]
    {
      var i :| 0 <= i < |bounds[1..]| && bounds[1..][i] == b;
      assert bounds[0] < times[i + 1] <= bounds[i + 1];
    }
    BoundsLater(frames, bounds[1..]);
    ClearDrop(frames, times, bounds);
    ClearTail(frames, times[1..], bounds[1..]);
    CutsAtBounds(frames[1..], times[1..], bounds[1..]);
    assert bounds == [bounds[0]] + bounds[1..];
  }

  // ---- a job restarted at segment `m`

  /** The keyframes a job sees, on its own clock, when its input opens at `seek`. */
  function FramesFrom(stream: seq<real>, seek: real): seq<real> {
    if stream == [] then []
    else if stream[0] >= seek then [stream[0] - seek] + FramesFrom(stream[1..], seek)
    else FramesFrom(stream[1..], seek)
  }

  lemma {:induction false} FramesFromHas(stream: seq<real>, seek: real)
    ensures forall k <- FramesFrom(stream, seek) :: k >= 0.0 && k + seek in stream
    ensures forall s <- stream :: s >= seek ==> s - seek in FramesFrom(stream, seek)
  {
    if stream != [] {
      FramesFromHas(stream[1..], seek);
      assert stream == [stream[0]] + stream[1..];
    }
  }

  lemma {:induction false} FramesFromIncreasing(stream: seq<real>, seek: real)
    requires Increasing(stream)
    ensures Increasing(FramesFrom(stream, seek))
  {
    if stream != [] {
      FirstIsLeast(stream);
      FramesFromIncreasing(stream[1..], seek);
      FramesFromHas(stream[1..], seek);
      var rest := FramesFrom(stream[1..], seek);
      forall i | 0 <= i < |rest|
        ensures rest[i] > stream[0] - seek
      {
        assert rest[i] in rest;
        assert rest[i] + seek in stream[1..];
      }
    }
  }

  function Shift(xs: seq<real>, offset: real): (r: seq<real>)
    ensures |r| == |xs|
  {
    seq(|xs|, i requires 0 <= i < |xs| => xs[i] + offset)
  }

  /** Where a job that starts at segment `m`, with its input opened at `seek`, cuts the media. */
  function JobCuts(stream: seq<real>, starts: seq<real>, m: nat, seek: real): seq<real> {
    Shift(MuxCuts(FramesFrom(stream, seek), EmittedTimes(CutTimes(starts, seek, m))), seek)
  }

  /** The stretch of media in the job's file number `i`; numbering begins at `m`. */
  function JobFile(stream: seq<real>, starts: seq<real>, end: real, m: nat, seek: real, i: nat): (real, real)
    requires m <= i
  {
    var cuts := JobCuts(stream, starts, m, seek);
    (if i == m || i - m > |cuts| then seek else cuts[i - m - 1],
     if i - m < |cuts| then cuts[i - m] else end)
  }

  /** Planned starts far enough apart for the bias of the emitted times. */
  ghost predicate Apart(starts: seq<real>) {
    forall i, j :: 0 <= i < j < |starts| ==> starts[j] >= starts[i] + 0.002
  }

  lemma ShiftFirst(xs: seq<real>, offset: real)
    requires xs != []
    ensures Shift(xs, offset) == [xs[0] + offset] + Shift(xs[1..], offset)
  {}

  lemma {:induction false} CutsFromAll(starts: seq<real>, seek: real, j: nat)
    requires j < |starts| && forall i :: j < i < |starts| ==> starts[i] - seek > MIN_CUT
    ensures CutsFrom(starts, seek, j) == Shift(starts[j + 1..], -seek)
    decreases |starts| - j
  {
    if j + 1 < |starts| {
      CutsFromAll(starts, seek, j + 1);
      ShiftFirst(starts[j + 1..], -seek);
      assert starts[j + 1..][1..] == starts[j + 1 + 1..];
    }
  }

  /** The keyframes of the stream leave room before each boundary after `m` for the emitted time. */
  ghost predicate LeavesRoom(stream: seq<real>, starts: seq<real>, m: nat, seek: real) {
    forall i, k | m < i < |starts| && k in stream && k >= seek :: !(seek + Emitted(starts[i] - seek) <= k < starts[i])
  }

  lemma RoomAt(stream: seq<real>, starts: seq<real>, m: nat, seek: real, i: nat, frames: seq<real>)
    requires m < i < |starts| && LeavesRoom(stream, starts, m, seek)
    requires forall k <- frames :: k >= 0.0 && k + seek in stream
    ensures NoneBetween(frames, Emitted(starts[i] - seek), starts[i] - seek)
  {
    forall k <- frames
      ensures !(Emitted(starts[i] - seek) <= k < starts[i] - seek)
    {
      var s := k + seek;
      assert s in stream && s >= seek;
    }
  }

  lemma BoundAt(starts: seq<real>, m: nat, seek: real, times: seq<real>, bounds: seq<real>, i: nat)
    requires m < |starts| && bounds == Shift(starts[m + 1..], -seek) && times == EmittedTimes(bounds) && i < |bounds|
    ensures m + 1 + i < |starts| && bounds[i] == starts[m + 1 + i] - seek && times[i] == Emitted(starts[m + 1 + i] - seek)
  {}

  lemma FramesAreFromStream(stream: seq<real>, seek: real)
    ensures forall k <- FramesFrom(stream, seek) :: k >= 0.0 && k + seek in stream
  {
    FramesFromHas(stream, seek);
  }

  lemma RoomMakesClear(stream: seq<real>, starts: seq<real>, m: nat, seek: real, times: seq<real>, bounds: seq<real>)
    requires m < |starts| && bounds == Shift(starts[m + 1..], -seek) && times == EmittedTimes(bounds)
    requires LeavesRoom(stream, starts, m, seek)
    ensures Clear(FramesFrom(stream, seek), times, bounds)
  {
    var frames := FramesFrom(stream, seek);
    FramesAreFromStream(stream, seek);
    forall i | 0 <= i < |times|
      ensures NoneBetween(frames, times[i], bounds[i])
    {
      BoundAt(starts, m, seek, times, bounds, i);
      RoomAt(stream, starts, m, seek, m + 1 + i, frames);
    }
  }

  lemma ClearMakesRoom(stream: seq<real>, starts: seq<real>, m: nat, seek: real, times: seq<real>, bounds: seq<real>)
    requires m < |starts| && bounds == Shift(starts[m + 1..], -seek) && times == EmittedTimes(bounds)
    requires Clear(FramesFrom(stream, seek), times, bounds)
    ensures LeavesRoom(stream, starts, m, seek)
  {
    FramesFromHas(stream, seek);
    forall i, k | m < i < |starts| && k in stream && k >= seek
      ensures !(seek + Emitted(starts[i] - seek) <= k < starts[i])
    {
      var at := i - m - 1;
      assert bounds[at] == starts[i] - seek && times[at] == Emitted(bounds[at]);
      assert NoneBetween(FramesFrom(stream, seek), times[at], bounds[at]);
    }
  }

  lemma EmittedBrackets(starts: seq<real>, m: nat, seek: real, times: seq<real>, bounds: seq<real>)
    requires m < |starts| && bounds == Shift(starts[m + 1..], -seek) && times == EmittedTimes(bounds) && Apart(starts)
    ensures Brackets(times, bounds)
  {
    forall i | 0 <= i < |times|
      ensures bounds[i] - 0.002 < times[i] <= bounds[i]
    {
      EmittedBias(bounds[i]);
    }
    forall i, j | 0 <= i < j < |times|
      ensures bounds[i] < times[j]
    {
      assert bounds[i] == starts[m + 1 + i] - seek && bounds[j] == starts[m + 1 + j] - seek;
    }
  }

  lemma ShiftBack(xs: seq<real>, offset: real)
    ensures Shift(Shift(xs, -offset), offset) == xs
  {}

  lemma ShiftInjective(xs: seq<real>, ys: seq<real>, offset: real)
    ensures Shift(xs, offset) == Shift(ys, offset) <==> xs == ys
  {
    if Shift(xs, offset) == Shift(ys, offset) {
      assert forall i :: 0 <= i < |xs| ==> Shift(xs, offset)[i] == xs[i] + offset && Shift(ys, offset)[i] == ys[i] + offset;
    }
  }

  /** A restarted job cuts at exactly the planned starts if and only if the stream leaves room before each of them. */
  lemma RestartCutsExactly(stream: seq<real>, starts: seq<real>, m: nat)
    requires Increasing(stream) && Apart(starts) && m < |starts|
    requires forall i :: m < i < |starts| ==> starts[i] in stream
    ensures JobCuts(stream, starts, m, starts[m]) == starts[m + 1..] <==> LeavesRoom(stream, starts, m, starts[m])
  {
    var seek := starts[m];
    var bounds := Shift(starts[m + 1..], -seek);
    var times := EmittedTimes(bounds);
    CutsFromAll(starts, seek, m);
    MuxCutsExactly(stream, starts, m, seek, times, bounds);
    ShiftBack(starts[m + 1..], seek);
    ShiftInjective(MuxCuts(FramesFrom(stream, seek), times), bounds, seek);
  }

  lemma MuxCutsExactly(stream: seq<real>, starts: seq<real>, m: nat, seek: real, times: seq<real>, bounds: seq<real>)
    requires Increasing(stream) && Apart(starts) && m < |starts| && seek == starts[m]
    requires bounds == Shift(starts[m + 1..], -seek) && times == EmittedTimes(bounds)
    requires forall i :: m < i < |starts| ==> starts[i] in stream
    ensures MuxCuts(FramesFrom(stream, seek), times) == bounds <==> LeavesRoom(stream, starts, m, seek)
  {
    EmittedBrackets(starts, m, seek, times, bounds);
    FramesFromIncreasing(stream, seek);
    BoundsAreFrames(stream, starts, m, seek, bounds);
    CutsAtBounds(FramesFrom(stream, seek), times, bounds);
    if LeavesRoom(stream, starts, m, seek) {
      RoomMakesClear(stream, starts, m, seek, times, bounds);
    }
    if Clear(FramesFrom(stream, seek), times, bounds) {
      ClearMakesRoom(stream, starts, m, seek, times, bounds);
    }
  }

  lemma BoundsAreFrames(stream: seq<real>, starts: seq<real>, m: nat, seek: real, bounds: seq<real>)
    requires Apart(starts) && m < |starts| && seek == starts[m] && bounds == Shift(starts[m + 1..], -seek)
    requires forall i :: m < i < |starts| ==> starts[i] in stream
    ensures forall b <- bounds :: b in FramesFrom(stream, seek)
  {
    FramesFromHas(stream, seek);
    forall b <- bounds
      ensures b in FramesFrom(stream, seek)
    {
      var i :| 0 <= i < |bounds| && bounds[i] == b;
      assert starts[m + 1 + i] in stream && b == starts[m + 1 + i] - seek;
    }
  }

  /** Two milliseconds without a keyframe before each boundary are room enough, whichever segment the job starts at. */
  ghost predicate TwoMillisecondsClear(stream: seq<real>, starts: seq<real>) {
    forall i, k | 0 < i < |starts| && k in stream :: !(starts[i] - 0.002 < k < starts[i])
  }

  /** Main result: file `i` holds the same stretch of media, its planned one, whichever job wrote it. */
  lemma RestartIndependence(stream: seq<real>, starts: seq<real>, end: real, m: nat, i: nat)
    requires Increasing(stream) && Apart(starts) && m <= i < |starts|
    requires forall j :: 0 < j < |starts| ==> starts[j] in stream
    requires TwoMillisecondsClear(stream, starts)
    ensures JobFile(stream, starts, end, m, starts[m], i) == (starts[i], if i + 1 < |starts| then starts[i + 1] else end)
  {
    var seek := starts[m];
    forall j, k | m < j < |starts| && k in stream && k >= seek
      ensures !(seek + Emitted(starts[j] - seek) <= k < starts[j])
    {
      EmittedBias(starts[j] - seek);
    }
    RestartCutsExactly(stream, starts, m);
  }

  // ---- the plan of a cleaned-up probe meets those conditions

  lemma {:induction false} GapsAdd(starts: seq<real>, gap: real, i: nat, j: nat)
    requires GapsAtLeast(starts, gap) && gap >= 0.0 && i < j < |starts|
    ensures starts[j] >= starts[i] + gap
    decreases j - i
  {
    if i + 1 < j {
      GapsAdd(starts, gap, i + 1, j);
    }
    assert starts[i + 1] >= starts[i] + gap;
  }

  lemma PartitionGaps(kf: seq<real>, duration: real, segment: real, p: Plan)
    requires Spaced(kf, duration) && segment >= MIN_SEGMENT && Partition(kf, duration, segment, p)
    ensures GapsAtLeast(p.starts, MIN_SEGMENT - TARGET_SLACK)
  {
    forall i: nat | i < |p.starts| - 1
      ensures p.starts[i + 1] >= p.starts[i] + (MIN_SEGMENT - TARGET_SLACK)
    {
      MarkAtLeast(i + 1, segment);
      assert FirstUsable(kf, p.starts[i], Mark(i + 1, segment), p.starts[i + 1]);
      if i > 0 {
        assert FirstUsable(kf, p.starts[i - 1], Mark(i - 1 + 1, segment), p.starts[i - 1 + 1]);
        MarkAtLeast(i, segment);
        SpacedApart(kf, duration, p.starts[i], p.starts[i + 1]);
      }
    }
  }

  lemma PartitionStartsListed(kf: seq<real>, duration: real, segment: real, p: Plan, i: nat)
    requires Partition(kf, duration, segment, p) && 0 < i < |p.starts|
    ensures p.starts[i] in kf
  {
    assert FirstUsable(kf, p.starts[i - 1], Mark(i - 1 + 1, segment), p.starts[i - 1 + 1]);
  }

  lemma SpacedIncreasing(kf: seq<real>, duration: real)
    requires Spaced(kf, duration)
    ensures Increasing(kf)
  {
    forall i, j | 0 <= i < j < |kf|
      ensures kf[i] < kf[j]
    {
      SpacedIncreases(kf, duration, i, j);
    }
  }

  /** The job's seek lands on the planned start of its first segment. */
  lemma SeekLandsOnStart(kf: seq<real>, duration: real, segment: real, p: Plan, m: nat)
    requires Spaced(kf, duration) && segment >= MIN_SEGMENT && Partition(kf, duration, segment, p) && m < |p.starts|
    ensures SeekPoint(kf, p.starts[m]) == p.starts[m]
  {
    if m > 0 {
      PartitionStartsListed(kf, duration, segment, p, m);
      MarkAtLeast(m, segment);
      SpacedIncreasing(kf, duration);
      var i: nat :| i < |kf| && kf[i] == p.starts[m];
      if i + 1 < |kf| {
        SpacedIncreases(kf, duration, i, i + 1);
      }
      SeekFromListed(kf, i, 0.0);
    }
  }

  /** The starts of a planned list are well apart, and each is its own seek point. */
  lemma PlanIsSeekable(keyframes: seq<real>, duration: real, segment: real)
    requires Sanitized(keyframes, duration) != [] && segment >= MIN_SEGMENT
    ensures var kf := Sanitized(keyframes, duration);
      var starts := Planned(duration, kf, segment).starts;
      Apart(starts) && forall m: nat :: m < |starts| ==> SeekPoint(kf, starts[m]) == starts[m]
  {
    var kf := Sanitized(keyframes, duration);
    var p := Planned(duration, kf, segment);
    var starts := p.starts;
    SanitizedIsSpaced(keyframes, duration);
    PlanIsGreedyPartition(keyframes, duration, segment);
    PartitionGaps(kf, duration, segment, p);
    forall a: nat, b: nat | a < b < |starts|
      ensures starts[b] >= starts[a] + 0.002
    {
      GapsAdd(starts, MIN_SEGMENT - TARGET_SLACK, a, b);
    }
    forall m: nat | m < |starts|
      ensures SeekPoint(kf, starts[m]) == starts[m]
    {
      SeekLandsOnStart(kf, duration, segment, p, m);
    }
  }

  /** The keyframes of a stream stand in order, two milliseconds or more apart. */
  ghost predicate FramesApart(stream: seq<real>) {
    forall i, j :: 0 <= i < j < |stream| ==> stream[j] >= stream[i] + 0.002
  }

  /** The stream a plan was probed from has every keyframe of the probe, and may have more. */
  ghost predicate ProbedFrom(keyframes: seq<real>, stream: seq<real>) {
    FramesApart(stream) && forall k <- keyframes :: k in stream
  }

  lemma FramesApartIsClear(stream: seq<real>, starts: seq<real>)
    requires FramesApart(stream) && forall j :: 0 < j < |starts| ==> starts[j] in stream
    ensures Increasing(stream) && TwoMillisecondsClear(stream, starts)
  {
    forall j, k | 0 < j < |starts| && k in stream
      ensures !(starts[j] - 0.002 < k < starts[j])
    {
      var a: nat :| a < |stream| && stream[a] == starts[j];
      var b: nat :| b < |stream| && stream[b] == k;
      assert b < a ==> stream[a] >= stream[b] + 0.002;
      assert a < b ==> stream[b] >= stream[a] + 0.002;
    }
  }

  /** The stream leaves room for the plan: its boundaries are frames of it, and no frame comes just before one. */
  lemma StreamIsCuttable(stream: seq<real>, keyframes: seq<real>, duration: real, segment: real)
    requires ProbedFrom(keyframes, stream) && Sanitized(keyframes, duration) != [] && segment >= MIN_SEGMENT
    ensures var starts := Planned(duration, Sanitized(keyframes, duration), segment).starts;
      && Increasing(stream) && Apart(starts) && TwoMillisecondsClear(stream, starts)
      && (forall j :: 0 < j < |starts| ==> starts[j] in stream)
  {
    var kf := Sanitized(keyframes, duration);
    var p := Planned(duration, kf, segment);
    PlanIsSeekable(keyframes, duration, segment);
    SanitizedIsSpaced(keyframes, duration);
    PlanIsGreedyPartition(keyframes, duration, segment);
    forall j | 0 < j < |p.starts|
      ensures p.starts[j] in stream
    {
      LaterStartProbed(keyframes, duration, segment, p, j);
    }
    FramesApartIsClear(stream, p.starts);
  }

  /** A start after the first is a probed keyframe, never the zero put in front of them. */
  lemma LaterStartProbed(keyframes: seq<real>, duration: real, segment: real, p: Plan, j: nat)
    requires segment >= MIN_SEGMENT && Partition(Sanitized(keyframes, duration), duration, segment, p) && 0 < j < |p.starts|
    ensures p.starts[j] in keyframes
  {
    var kf := Sanitized(keyframes, duration);
    SanitizedIsSpaced(keyframes, duration);
    PartitionStartsListed(kf, duration, segment, p, j);
    MarkAtLeast(j, segment);
    assert FirstUsable(kf, p.starts[j - 1], Mark(j - 1 + 1, segment), p.starts[j - 1 + 1]);
  }

  /**
    * Restart independence for planned media: with the plan of a cleaned-up probe, on the stream it was probed from, every
    * job started at any segment `m` writes file `i` with the stretch `[starts[i], starts[i + 1])`, the last one up to the
    * media's end.
    */
  lemma PlannedRestartIndependence(stream: seq<real>, keyframes: seq<real>, duration: real, segment: real, end: real, m: nat,
                                   i: nat)
    requires ProbedFrom(keyframes, stream) && Sanitized(keyframes, duration) != [] && segment >= MIN_SEGMENT
    requires var starts := Planned(duration, Sanitized(keyframes, duration), segment).starts; m <= i < |starts|
    ensures var kf := Sanitized(keyframes, duration);
      var starts := Planned(duration, kf, segment).starts;
      && SeekPoint(kf, starts[m]) == starts[m]
      && JobFile(stream, starts, end, m, SeekPoint(kf, starts[m]), i)
         == (starts[i], if i + 1 < |starts| then starts[i + 1] else end)
  {
    var kf := Sanitized(keyframes, duration);
    PlanIsSeekable(keyframes, duration, segment);
    StreamIsCuttable(stream, keyframes, duration, segment);
    RestartIndependence(stream, Planned(duration, kf, segment).starts, end, m, i);
  }
}
