/**
 * AlignFragmentToMediaStartWithTimescales (mp4/tfdt.go) as a function of the fragment, and what
 * it promises: a shift that puts the primary track at the media start and keeps A/V offsets.
 */
module Align {
  import opened Wrappers
  import opened Bytes
  import opened BoxTree
  import opened Tfdt
  import opened FirstTimes

  const DEFAULT_VIDEO_TIMESCALE: nat := 90000
  const DEFAULT_AUDIO_TIMESCALE: nat := 48000

  /** timescaleForTrackID. */
  function Timescale(track: nat, timescales: map<nat, nat>): (ts: nat)
    ensures ts > 0
  {
    if track in timescales && timescales[track] > 0 then timescales[track]
    else if track == 2 then DEFAULT_AUDIO_TIMESCALE
    else DEFAULT_VIDEO_TIMESCALE
  }

  /** math.Round: to the nearest integer, halves away from zero. */
  function Round(x: real): (n: int)
    ensures -0.5 <= n as real - x <= 0.5
  {
    if x >= 0.0 then (x + 0.5).Floor else -(0.5 - x).Floor
  }

  /**
   * The track the alignment anchors: track 1 if it has a time, else the smallest track ID. Go's
   * map order decides when track 0 occurs beside others, so this is a relation.
   */
  ghost predicate IsPrimary(first: map<nat, nat>, p: nat) {
    && p in first
    && (1 in first ==> p == 1)
    && (1 !in first && 0 !in first ==> forall t <- first :: p <= t)
  }

  function DeltaSec(first: map<nat, nat>, p: nat, start: real, timescales: map<nat, nat>): real
    requires p in first
  {
    start - first[p] as real / Timescale(p, timescales) as real
  }

  /** The shift of track t by `seconds`, rounded to its ticks, before clamping. */
  function RawDelta(t: nat, seconds: real, timescales: map<nat, nat>): int {
    Round(seconds * Timescale(t, timescales) as real)
  }

  /** The shift of track t: a first time that would become negative is moved to 0 instead. */
  function Delta(first: map<nat, nat>, t: nat, seconds: real, timescales: map<nat, nat>): int
    requires t in first
  {
    var delta := RawDelta(t, seconds, timescales);
    if Wrap64(Wrap64(first[t]) + delta) < 0 then -Wrap64(first[t]) else delta
  }

  function Deltas(first: map<nat, nat>, seconds: real, timescales: map<nat, nat>): map<nat, int> {
    map t | t in first :: Delta(first, t, seconds, timescales)
  }

  /** The aligned fragment, None when the source returns an error. */
  function AlignWith(d: seq<byte>, start: real, timescales: map<nat, nat>, p: nat): Option<seq<byte>> {
    if FirstOf(d).None? then None
    else if p !in FirstOf(d).value then Some(d)
    else Patch(d, 0, |d|, TopLevel, Deltas(FirstOf(d).value, DeltaSec(FirstOf(d).value, p, start, timescales), timescales))
  }

  /** The results the source may return for d. */
  ghost predicate Aligned(d: seq<byte>, start: real, timescales: map<nat, nat>, r: Option<seq<byte>>) {
    if FirstOf(d).None? then r == None
    else if FirstOf(d).value == map[] then r == Some(d)
    else exists p :: IsPrimary(FirstOf(d).value, p) && r == AlignWith(d, start, timescales, p)
  }

  /** Bytes whose first times cannot be read are an error; bytes without any are returned as they are. */
  lemma NothingToAlign(d: seq<byte>, start: real, timescales: map<nat, nat>, p: nat, r: Option<seq<byte>>)
    requires FirstOf(d).Some? ==> |FirstOf(d).value| == 0
    ensures Aligned(d, start, timescales, r) <==> r == if FirstOf(d).Some? then Some(d) else None
    ensures AlignWith(d, start, timescales, p) == if FirstOf(d).Some? then Some(d) else None
  {}

  ghost predicate IsSmallest(ids: set<nat>, p: nat) {
    p in ids && forall t <- ids :: p <= t
  }

  lemma SmallestGrows(rest: set<nat>, least: nat, some: nat)
    requires IsSmallest(rest, least)
    ensures IsSmallest(rest + {some}, if least < some then least else some)
  {}

  lemma {:induction false} HasSmallest(ids: set<nat>)
    requires ids != {}
    ensures exists p: nat :: IsSmallest(ids, p)
    decreases |ids|
  {
    var some :| some in ids;
    var rest := ids - {some};
    assert ids == rest + {some};
    if rest == {} {
      assert IsSmallest(ids, some);
    } else {
      HasSmallest(rest);
      var least: nat :| IsSmallest(rest, least);
      SmallestGrows(rest, least, some);
    }
  }

  lemma HasPrimary(first: map<nat, nat>)
    requires |first| > 0
    ensures exists p :: IsPrimary(first, p)
  {
    HasSmallest(first.Keys);
    var p: nat :| IsSmallest(first.Keys, p);
    assert IsPrimary(first, if 1 in first then 1 else p);
  }

  /** Go's map order can change the primary track only when track 0 stands beside others and track 1 does not. */
  lemma OnePrimary(first: map<nat, nat>, p: nat, q: nat)
    requires 0 !in first || 1 in first || |first| == 1
    requires IsPrimary(first, p) && IsPrimary(first, q)
    ensures p == q
  {
    if |first| == 1 {
      OnlyOne(first.Keys, p, q);
    }
  }

  lemma OnlyOne(ids: set<nat>, p: nat, q: nat)
    requires |ids| == 1 && p in ids && q in ids
    ensures p == q
  {
    var rest := ids - {p};
    assert |rest| == 0;
    assert q in ids ==> q == p || q in rest;
  }

  /** Alignment always has an answer, and just one unless track 0 stands beside others and track 1 does not. */
  lemma AlignedIsDetermined(d: seq<byte>, start: real, timescales: map<nat, nat>)
    ensures exists r :: Aligned(d, start, timescales, r)
    ensures FirstOf(d).None? || 0 !in FirstOf(d).value || 1 in FirstOf(d).value || |FirstOf(d).value| == 1 ==>
      forall r, s :: Aligned(d, start, timescales, r) && Aligned(d, start, timescales, s) ==> r == s
  {
    if FirstOf(d).None? {
      assert Aligned(d, start, timescales, None);
    } else if |FirstOf(d).value| == 0 {
      assert Aligned(d, start, timescales, Some(d));
    } else {
      var first := FirstOf(d).value;
      HasPrimary(first);
      var p :| IsPrimary(first, p);
      assert Aligned(d, start, timescales, AlignWith(d, start, timescales, p));
      if 0 !in first || 1 in first || |first| == 1 {
        forall q | IsPrimary(first, q)
          ensures p == q
        {
          OnePrimary(first, p, q);
        }
      }
    }
  }

  /** The rounded shifts and the shifted first times fit int64, outside of which Go leaves the conversion open. */
  ghost predicate InRange(first: map<nat, nat>, seconds: real, timescales: map<nat, nat>) {
    forall t <- first :: Int64(RawDelta(t, seconds, timescales))
                         && first[t] < TWO_63 && first[t] + RawDelta(t, seconds, timescales) < TWO_63
  }

  predicate Clamped(first: map<nat, nat>, t: nat, seconds: real, timescales: map<nat, nat>)
    requires t in first
  {
    first[t] + RawDelta(t, seconds, timescales) < 0
  }

  lemma DeltaInRange(first: map<nat, nat>, t: nat, seconds: real, timescales: map<nat, nat>)
    requires t in first && InRange(first, seconds, timescales)
    ensures var delta := Delta(first, t, seconds, timescales);
      && Int64(delta) && 0 <= first[t] + delta < TWO_63
      && delta == if Clamped(first, t, seconds, timescales) then -first[t] else RawDelta(t, seconds, timescales)
  {
    var raw := RawDelta(t, seconds, timescales);
    assert Int64(raw);
  }

  // ---- A shift moves the first times and keeps the order of track 1. ----

  function DeltaFor(t: nat, deltas: map<nat, int>): int {
    if t in deltas then deltas[t] else 0
  }

  predicate MapShifted(first: map<nat, nat>, first': map<nat, nat>, deltas: map<nat, int>) {
    first'.Keys == first.Keys && forall t <- first :: first'[t] == first[t] + DeltaFor(t, deltas)
  }

  lemma {:induction false} FirstShifts(d: seq<byte>, r: seq<byte>, ns: seq<Node>, first: map<nat, nat>, first': map<nat, nat>,
                                       skip: bool, deltas: map<nat, int>)
    requires forall n <- ns :: TimeMoved(d, r, n, deltas)
    requires MapShifted(first, first', deltas)
    ensures First(d, ns, first, skip).Some? == First(r, ns, first', skip).Some?
    ensures First(d, ns, first, skip).Some? ==>
              MapShifted(First(d, ns, first, skip).value, First(r, ns, first', skip).value, deltas)
  {
    if ns != [] {
      var n := ns[0];
      assert TimeMoved(d, r, n, deltas);
      if !n.level.InTraf? {
        FirstShifts(d, r, ns[1..], first, first', IsTraf(n) && n.visit.level.track in first, deltas);
      } else if n.typ != TFDT || skip {
        FirstShifts(d, r, ns[1..], first, first', skip, deltas);
      } else if NodeTicks(d, n).Some? {
        var t := n.level.track;
        FirstShifts(d, r, ns[1..], first[t := NodeTicks(d, n).value], first'[t := NodeTicks(r, n).value], skip, deltas);
      }
    }
  }

  lemma {:induction false} LastTimeShifts(d: seq<byte>, r: seq<byte>, ns: seq<Node>, last: Option<nat>, last': Option<nat>,
                                          deltas: map<nat, int>)
    requires forall n <- ns :: TimeMoved(d, r, n, deltas)
    requires last'.Some? == last.Some? && (last.Some? ==> last'.value == last.value + DeltaFor(1, deltas))
    ensures LastTime(d, ns, last).Some? == LastTime(r, ns, last').Some?
  {
    if ns != [] {
      var n := ns[0];
      assert TimeMoved(d, r, n, deltas);
      if !IsTfdt(n) || n.level.track != 1 {
        LastTimeShifts(d, r, ns[1..], last, last', deltas);
      } else if NodeTicks(d, n).Some? {
        LastTimeShifts(d, r, ns[1..], NodeTicks(d, n), NodeTicks(r, n), deltas);
      }
    }
  }

  // ---- The main results. ----

  /**
   * Alignment is an abstract shift. On a well-nested fragment it succeeds exactly when every tfdt
   * fits its field after its track's delta. Then the box tree and all bytes outside tfdt times
   * are the old ones, every tfdt of a track moved by the one delta of that track, every tfdt's
   * track has a delta, and the result is well nested again with the first times moved alike.
   */
  lemma AlignShifts(d: seq<byte>, start: real, timescales: map<nat, nat>, p: nat, seconds: real)
    requires WellNested(d) && FirstOf(d).Some? && p in FirstOf(d).value
    requires seconds == DeltaSec(FirstOf(d).value, p, start, timescales) && InRange(FirstOf(d).value, seconds, timescales)
    ensures var first := FirstOf(d).value;
      var deltas := Deltas(first, seconds, timescales);
      var ns, r := FileTree(d).value, AlignWith(d, start, timescales, p);
      && (r.Some? <==> AllFit(d, ns, deltas))
      && (forall n <- ns :: IsTfdt(n) ==> n.level.track in deltas)
      && (r.Some? ==>
            && Shifted(d, r.value, ns, deltas) && FileTree(r.value) == Some(ns) && WellNested(r.value)
            && FirstOf(r.value).Some? && MapShifted(first, FirstOf(r.value).value, deltas))
  {
    var first := FirstOf(d).value;
    var deltas := Deltas(first, seconds, timescales);
    var ns := FileTree(d).value;
    forall t <- deltas ensures Int64(deltas[t]) { DeltaInRange(first, t, seconds, timescales); }
    PatchShifts(d, 0, |d|, TopLevel, deltas);
    TreeOrdered(d, 0, |d|, TopLevel, None);
    FirstCovers(d, ns, map[], false, None);
    var r := AlignWith(d, start, timescales, p);
    if r.Some? {
      ShiftKeepsSound(d, r.value, ns, deltas);
      FirstShifts(d, r.value, ns, map[], map[], false, deltas);
    }
  }

  /**
   * When no tfdt is earlier than its track's first time, alignment cannot underflow: it fails
   * exactly when a tfdt cannot be read or its time passes the capacity of its field.
   */
  lemma AlignNeverUnderflows(d: seq<byte>, start: real, timescales: map<nat, nat>, p: nat, seconds: real)
    requires WellNested(d) && FirstOf(d).Some? && p in FirstOf(d).value
    requires seconds == DeltaSec(FirstOf(d).value, p, start, timescales) && InRange(FirstOf(d).value, seconds, timescales)
    requires NoneEarlier(d, FileTree(d).value, FirstOf(d).value)
    ensures var deltas := Deltas(FirstOf(d).value, seconds, timescales);
      AlignWith(d, start, timescales, p).None? <==>
        exists n <- FileTree(d).value :: IsTfdt(n)
          && (NodeTicks(d, n).Some? ==> NodeTicks(d, n).value + DeltaOf(n, deltas) >= Capacity(d, n))
  {
    AlignShifts(d, start, timescales, p, seconds);
    var first, ns := FirstOf(d).value, FileTree(d).value;
    var deltas := Deltas(first, seconds, timescales);
    forall n <- ns | IsTfdt(n) && NodeTicks(d, n).Some?
      ensures NodeTicks(d, n).value + DeltaOf(n, deltas) >= 0
    {
      DeltaInRange(first, n.level.track, seconds, timescales);
    }
  }

  /**
   * Safety for fragments whose times never step back: at any media start from 0 on the primary track is not clamped,
   * and nothing underflows; a tfdt that cannot be read or that outgrows its field is the only way to fail.
   */
  lemma AlignIsSafe(d: seq<byte>, start: real, timescales: map<nat, nat>, p: nat, seconds: real)
    requires WellNested(d) && FirstOf(d).Some? && p in FirstOf(d).value && start >= 0.0
    requires seconds == DeltaSec(FirstOf(d).value, p, start, timescales) && InRange(FirstOf(d).value, seconds, timescales)
    requires OnePerTraf(FileTree(d).value, false) && NonDecreasing(d, FileTree(d).value)
    ensures !Clamped(FirstOf(d).value, p, seconds, timescales)
    ensures var deltas := Deltas(FirstOf(d).value, seconds, timescales);
      AlignWith(d, start, timescales, p).None? <==>
        exists n <- FileTree(d).value :: IsTfdt(n)
          && (NodeTicks(d, n).Some? ==> NodeTicks(d, n).value + DeltaOf(n, deltas) >= Capacity(d, n))
  {
    FirstOfIsEarliest(d);
    AlignNeverUnderflows(d, start, timescales, p, seconds);
    PrimaryLandsIn(FirstOf(d).value, p, start, timescales, seconds, Timescale(p, timescales) as real);
  }

  lemma DivMul(x: real, y: real)
    requires y != 0.0
    ensures x / y * y == x
  {
  }

  lemma Product(x: real, y: real)
    requires x >= 0.0 && y > 0.0
    ensures x * y >= 0.0 && (x > 0.0 ==> x * y > 0.0)
  {
  }

  lemma Cancel(x: real, y: real, ts: real)
    requires ts > 0.0 && x * ts <= y * ts
    ensures x <= y
  {
    assert (x - y) * ts == x * ts - y * ts;
    if x > y { Product(x - y, ts); }
  }

  lemma ShiftInTicks(start: real, x: real, ts: real)
    requires ts > 0.0
    ensures (start - x / ts) * ts == start * ts - x
  {
    DivMul(x, ts);
    assert (start - x / ts) * ts == start * ts - x / ts * ts;
  }

  /** The primary track's shift, seen in its own ticks. */
  lemma PrimaryDelta(first: map<nat, nat>, p: nat, start: real, timescales: map<nat, nat>, seconds: real, place: real)
    requires p in first && seconds == DeltaSec(first, p, start, timescales)
    requires place == start * Timescale(p, timescales) as real
    ensures -0.5 <= (first[p] + RawDelta(p, seconds, timescales)) as real - place <= 0.5
    ensures start >= 0.0 ==> place >= 0.0
  {
    ShiftInTicks(start, first[p] as real, Timescale(p, timescales) as real);
    if start >= 0.0 {
      Product(start, Timescale(p, timescales) as real);
    }
  }

  lemma PrimaryLandsIn(first: map<nat, nat>, p: nat, start: real, timescales: map<nat, nat>, seconds: real, pts: real)
    requires p in first && start >= 0.0 && pts == Timescale(p, timescales) as real
    requires seconds == DeltaSec(first, p, start, timescales) && InRange(first, seconds, timescales)
    ensures !Clamped(first, p, seconds, timescales)
    ensures -0.5 <= (first[p] + Delta(first, p, seconds, timescales)) as real - start * pts <= 0.5
  {
    PrimaryDelta(first, p, start, timescales, seconds, start * pts);
    LandsNear(first, p, seconds, timescales, start * pts);
  }

  lemma LandsNear(first: map<nat, nat>, p: nat, seconds: real, timescales: map<nat, nat>, place: real)
    requires p in first && InRange(first, seconds, timescales) && place >= 0.0
    requires -0.5 <= (first[p] + RawDelta(p, seconds, timescales)) as real - place <= 0.5
    ensures !Clamped(first, p, seconds, timescales)
    ensures -0.5 <= (first[p] + Delta(first, p, seconds, timescales)) as real - place <= 0.5
  {
    NotBelowZero(first[p] + RawDelta(p, seconds, timescales), place);
    DeltaInRange(first, p, seconds, timescales);
  }

  lemma NotBelowZero(landed: int, place: real)
    requires place >= 0.0 && -0.5 <= landed as real - place
    ensures landed >= 0
  {}

  /**
   * For a media start at or after 0 the primary track is never clamped and lands within half a tick of it, in ticks of
   * the timescale the caller supplies for it or else of the usual 48000 for track 2 and 90000 for the others.
   */
  lemma PrimaryLands(first: map<nat, nat>, p: nat, start: real, timescales: map<nat, nat>, seconds: real, pts: real)
    requires p in first && start >= 0.0
    requires seconds == DeltaSec(first, p, start, timescales) && InRange(first, seconds, timescales)
    requires pts == if p in timescales && timescales[p] > 0 then timescales[p] as real else if p == 2 then 48000.0 else 90000.0
    ensures !Clamped(first, p, seconds, timescales)
    ensures -0.5 <= (first[p] + Delta(first, p, seconds, timescales)) as real - start * pts <= 0.5
  {
    PrimaryLandsIn(first, p, start, timescales, seconds, pts);
  }

  lemma HalfTick(a: real, b: real, ts: real)
    requires ts > 0.0 && a * ts - b * ts <= 0.5
    ensures a - b <= 0.5 / ts
  {
    var h := 0.5 / ts;
    DivMul(0.5, ts);
    assert (b + h) * ts == b * ts + h * ts;
    Cancel(a, b + h, ts);
  }

  /** A shift of x ticks that rounds `seconds` seconds is within half a tick of it, in seconds. */
  lemma RoundedSeconds(seconds: real, x: real, ts: real)
    requires ts > 0.0 && -0.5 <= x - seconds * ts <= 0.5
    ensures -(0.5 / ts) <= x / ts - seconds <= 0.5 / ts
  {
    DivMul(x, ts);
    HalfTick(x / ts, seconds, ts);
    HalfTick(seconds, x / ts, ts);
  }

  lemma DivAdd(x: real, y: real, z: real)
    requires z != 0.0
    ensures (x + y) / z == x / z + y / z
  {
  }

  lemma TicksMove(ticks: int, delta: int, seconds: real, ts: real)
    requires ts > 0.0 && delta == Round(seconds * ts)
    ensures -(0.5 / ts) <= (ticks + delta) as real / ts - ticks as real / ts - seconds <= 0.5 / ts
  {
    RoundedSeconds(seconds, delta as real, ts);
    assert (ticks + delta) as real == ticks as real + delta as real;
    DivAdd(ticks as real, delta as real, ts);
  }

  /** The offset, in seconds, of a track at `ticks` from the primary track at `primary`. */
  function Offset(ticks: int, ts: real, primary: int, pts: real): real
    requires ts > 0.0 && pts > 0.0
  {
    ticks as real / ts - primary as real / pts
  }

  predicate WithinHalfTicks(before: real, after: real, ts: real, pts: real)
    requires ts > 0.0 && pts > 0.0
  {
    -(0.5 / ts + 0.5 / pts) <= after - before <= 0.5 / ts + 0.5 / pts
  }

  lemma BothMove(ticks: int, delta: int, primary: int, primaryDelta: int, seconds: real, ts: real, pts: real)
    requires ts > 0.0 && pts > 0.0
    requires delta == Round(seconds * ts) && primaryDelta == Round(seconds * pts)
    ensures WithinHalfTicks(Offset(ticks, ts, primary, pts), Offset(ticks + delta, ts, primary + primaryDelta, pts), ts, pts)
  {
    TicksMove(ticks, delta, seconds, ts);
    TicksMove(primary, primaryDelta, seconds, pts);
  }

  lemma RawDeltaIs(t: nat, seconds: real, timescales: map<nat, nat>, ts: real)
    requires ts == Timescale(t, timescales) as real
    ensures RawDelta(t, seconds, timescales) == Round(seconds * ts)
  {
  }

  lemma RawOffsetKept(x: nat, t: nat, y: nat, p: nat, seconds: real, timescales: map<nat, nat>, ts: real, pts: real, a: int, b: int)
    requires ts == Timescale(t, timescales) as real && pts == Timescale(p, timescales) as real
    requires a == RawDelta(t, seconds, timescales) && b == RawDelta(p, seconds, timescales)
    ensures WithinHalfTicks(Offset(x, ts, y, pts), Offset(x + a, ts, y + b, pts), ts, pts)
  {
    RawDeltaIs(t, seconds, timescales, ts);
    RawDeltaIs(p, seconds, timescales, pts);
    BothMove(x, a, y, b, seconds, ts, pts);
  }

  lemma UnclampedDelta(first: map<nat, nat>, t: nat, seconds: real, timescales: map<nat, nat>)
    requires t in first && InRange(first, seconds, timescales) && !Clamped(first, t, seconds, timescales)
    ensures Delta(first, t, seconds, timescales) == RawDelta(t, seconds, timescales)
  {
    DeltaInRange(first, t, seconds, timescales);
  }

  /**
   * A track that is not clamped keeps its offset from an unclamped primary to within half a tick of each, every track in
   * the timescale the caller supplies for it or else in its usual one.
   */
  lemma OffsetKept(first: map<nat, nat>, p: nat, t: nat, seconds: real, timescales: map<nat, nat>, ts: real, pts: real)
    requires p in first && t in first && InRange(first, seconds, timescales)
    requires !Clamped(first, t, seconds, timescales) && !Clamped(first, p, seconds, timescales)
    requires ts == if t in timescales && timescales[t] > 0 then timescales[t] as real else if t == 2 then 48000.0 else 90000.0
    requires pts == if p in timescales && timescales[p] > 0 then timescales[p] as real else if p == 2 then 48000.0 else 90000.0
    ensures WithinHalfTicks(
              Offset(first[t], ts, first[p], pts),
              Offset(first[t] + Delta(first, t, seconds, timescales), ts, first[p] + Delta(first, p, seconds, timescales), pts),
              ts, pts)
  {
    UnclampedDelta(first, t, seconds, timescales);
    UnclampedDelta(first, p, seconds, timescales);
    RawOffsetKept(first[t], t, first[p], p, seconds, timescales, ts, pts,
                  Delta(first, t, seconds, timescales), Delta(first, p, seconds, timescales));
  }

  /** A track is clamped only when its place on the media timeline is before the media's beginning. */
  lemma ClampedIsBefore(x: nat, delta: int, seconds: real, ts: real)
    requires ts > 0.0 && delta == Round(seconds * ts) && x + delta < 0
    ensures x as real / ts + seconds < 0.0
  {
    DivMul(x as real, ts);
    assert seconds * ts <= -(x as real) - 0.5;
    assert (x as real / ts + seconds) * ts == x as real / ts * ts + seconds * ts;
    if x as real / ts + seconds >= 0.0 {
      Product(x as real / ts + seconds, ts);
    }
  }

  /** Where one track stands after an alignment, seen from the primary track. */
  ghost predicate Keeps(before: nat, after: nat, primary: nat, landed: nat, seconds: real, ts: real, pts: real)
    requires ts > 0.0 && pts > 0.0
  {
    || WithinHalfTicks(Offset(before, ts, primary, pts), Offset(after, ts, landed, pts), ts, pts)
    || (after == 0 && before as real / ts + seconds < 0.0)
  }

  lemma TrackKeeps(first: map<nat, nat>, p: nat, t: nat, start: real, timescales: map<nat, nat>, seconds: real, ts: real,
                   pts: real)
    requires p in first && t in first && start >= 0.0
    requires seconds == DeltaSec(first, p, start, timescales) && InRange(first, seconds, timescales)
    requires ts == if t in timescales && timescales[t] > 0 then timescales[t] as real else if t == 2 then 48000.0 else 90000.0
    requires pts == if p in timescales && timescales[p] > 0 then timescales[p] as real else if p == 2 then 48000.0 else 90000.0
    ensures 0 <= first[t] + Delta(first, t, seconds, timescales) && 0 <= first[p] + Delta(first, p, seconds, timescales)
    ensures Keeps(first[t], first[t] + Delta(first, t, seconds, timescales), first[p],
                  first[p] + Delta(first, p, seconds, timescales), seconds, ts, pts)
  {
    PrimaryLands(first, p, start, timescales, seconds, pts);
    DeltaInRange(first, p, seconds, timescales);
    DeltaInRange(first, t, seconds, timescales);
    if Clamped(first, t, seconds, timescales) {
      RawDeltaIs(t, seconds, timescales, ts);
      ClampedIsBefore(first[t], RawDelta(t, seconds, timescales), seconds, ts);
    } else {
      OffsetKept(first, p, t, seconds, timescales, ts, pts);
    }
  }

  lemma FirstTimesMove(d: seq<byte>, start: real, timescales: map<nat, nat>, p: nat, t: nat, seconds: real)
    requires WellNested(d) && FirstOf(d).Some? && p in FirstOf(d).value && t in FirstOf(d).value
    requires seconds == DeltaSec(FirstOf(d).value, p, start, timescales) && InRange(FirstOf(d).value, seconds, timescales)
    requires AlignWith(d, start, timescales, p).Some?
    ensures var first, after := FirstOf(d).value, FirstOf(AlignWith(d, start, timescales, p).value);
      after.Some? && t in after.value && after.value[t] == first[t] + Delta(first, t, seconds, timescales)
  {
    AlignShifts(d, start, timescales, p, seconds);
  }

  /**
   * What alignment does to the times of a fragment, from its bytes to those of the result: the primary track begins within
   * half a tick of the media start, and every track keeps its offset from it to within half a tick of each, or begins at 0
   * because its place would be before the beginning of the media.
   */
  lemma FragmentLands(d: seq<byte>, start: real, timescales: map<nat, nat>, p: nat, t: nat, seconds: real, ts: real, pts: real)
    requires WellNested(d) && FirstOf(d).Some? && p in FirstOf(d).value && t in FirstOf(d).value && start >= 0.0
    requires seconds == DeltaSec(FirstOf(d).value, p, start, timescales) && InRange(FirstOf(d).value, seconds, timescales)
    requires AlignWith(d, start, timescales, p).Some?
    requires ts == if t in timescales && timescales[t] > 0 then timescales[t] as real else if t == 2 then 48000.0 else 90000.0
    requires pts == if p in timescales && timescales[p] > 0 then timescales[p] as real else if p == 2 then 48000.0 else 90000.0
    ensures seconds == start - FirstOf(d).value[p] as real / pts
    ensures FirstOf(AlignWith(d, start, timescales, p).value).Some?
    ensures var first, after := FirstOf(d).value, FirstOf(AlignWith(d, start, timescales, p).value).value;
      && p in after && t in after
      && -0.5 <= after[p] as real - start * pts <= 0.5
      && Keeps(first[t], after[t], first[p], after[p], seconds, ts, pts)
  {
    FirstTimesMove(d, start, timescales, p, p, seconds);
    FirstTimesMove(d, start, timescales, p, t, seconds);
    PrimaryLands(FirstOf(d).value, p, start, timescales, seconds, pts);
    TrackKeeps(FirstOf(d).value, p, t, start, timescales, seconds, ts, pts);
  }

  /** Whenever alignment succeeds, its result is publishable exactly when the fragment was. */
  lemma AlignKeepsPublishable(d: seq<byte>, start: real, timescales: map<nat, nat>, p: nat, seconds: real)
    requires WellNested(d) && FirstOf(d).Some? && p in FirstOf(d).value
    requires seconds == DeltaSec(FirstOf(d).value, p, start, timescales) && InRange(FirstOf(d).value, seconds, timescales)
    requires AlignWith(d, start, timescales, p).Some?
    ensures Publishable(AlignWith(d, start, timescales, p).value) <==> Publishable(d)
  {
    AlignShifts(d, start, timescales, p, seconds);
    var r := AlignWith(d, start, timescales, p).value;
    LastTimeShifts(d, r, FileTree(d).value, None, None, Deltas(FirstOf(d).value, seconds, timescales));
    assert |FirstOf(r).value| == |FirstOf(r).value.Keys| && |FirstOf(d).value| == |FirstOf(d).value.Keys|;
  }

  // ---- A media start on a whole tick: aligning twice is aligning once. ----

  lemma SameTimeSameBytes(d: seq<byte>, r: seq<byte>, o: nat)
    requires |r| == |d| && o + 4 <= |d| && U32(r, o) == U32(d, o)
    ensures r[o] == d[o] && r[o + 1] == d[o + 1] && r[o + 2] == d[o + 2] && r[o + 3] == d[o + 3]
  {
  }

  lemma ZeroShiftKeepsByte(d: seq<byte>, r: seq<byte>, n: Node, deltas: map<nat, int>, i: nat)
    requires |r| == |d| && i < |d| && IsTfdt(n) && Sound(d, n) && Fits(d, n, deltas) && TimeMoved(d, r, n, deltas)
    requires n.level.track in deltas && deltas[n.level.track] == 0
    requires TimeStart(n) <= i < TimeEnd(d, n)
    ensures r[i] == d[i]
  {
    if d[n.off + 8] == 1 {
      assert U64(r, n.off + 12) == U64(d, n.off + 12);
      assert U32(r, n.off + 12) == U32(d, n.off + 12);
      SameTimeSameBytes(d, r, n.off + 16);
    }
    SameTimeSameBytes(d, r, n.off + 12);
  }

  lemma ZeroShiftIsIdentity(d: seq<byte>, r: seq<byte>, ns: seq<Node>, deltas: map<nat, int>)
    requires AllSound(d, ns) && AllFit(d, ns, deltas) && Shifted(d, r, ns, deltas)
    requires forall n <- ns :: IsTfdt(n) ==> n.level.track in deltas && deltas[n.level.track] == 0
    ensures r == d
  {
    forall i: nat | i < |d| ensures r[i] == d[i] {
      if TimeByte(d, ns, i) {
        var n :| n in ns && IsTfdt(n) && TimeStart(n) <= i < TimeEnd(d, n);
        ZeroShiftKeepsByte(d, r, n, deltas, i);
      }
    }
  }

  lemma WholeTickDelta(start: real, tick: nat, ts: real)
    requires ts > 0.0 && start * ts == tick as real
    ensures start - tick as real / ts == 0.0
  {
    ShiftInTicks(start, tick as real, ts);
    var e := start - tick as real / ts;
    Cancel(e, 0.0, ts);
    Cancel(0.0, e, ts);
  }

  lemma WholeTickLands(first: map<nat, nat>, p: nat, start: real, timescales: map<nat, nat>, seconds: real, tick: nat)
    requires p in first && seconds == DeltaSec(first, p, start, timescales) && InRange(first, seconds, timescales)
    requires start * Timescale(p, timescales) as real == tick as real
    ensures first[p] + Delta(first, p, seconds, timescales) == tick
  {
    PrimaryDelta(first, p, start, timescales, seconds, tick as real);
    assert first[p] + RawDelta(p, seconds, timescales) == tick;
    DeltaInRange(first, p, seconds, timescales);
  }

  /** A shift by no time moves no track. */
  lemma NoDeltaLeft(first: map<nat, nat>, timescales: map<nat, nat>)
    requires forall t <- first :: first[t] < TWO_63
    ensures InRange(first, 0.0, timescales)
    ensures forall t <- first :: Delta(first, t, 0.0, timescales) == 0
  {
    forall t <- first ensures RawDelta(t, 0.0, timescales) == 0 {
      assert 0.0 * Timescale(t, timescales) as real == 0.0;
    }
  }

  /** The primary track's first time lands on the tick itself. */
  lemma LandsOnTick(first: map<nat, nat>, first': map<nat, nat>, start: real, timescales: map<nat, nat>, p: nat, seconds: real,
                    tick: nat)
    requires p in first && seconds == DeltaSec(first, p, start, timescales) && InRange(first, seconds, timescales)
    requires start * Timescale(p, timescales) as real == tick as real
    requires MapShifted(first, first', Deltas(first, seconds, timescales))
    ensures first'[p] == tick
  {
    WholeTickLands(first, p, start, timescales, seconds, tick);
  }

  /** A first time on the wanted tick needs no further shift. */
  lemma NoShiftLeft(first: map<nat, nat>, start: real, timescales: map<nat, nat>, p: nat, tick: nat)
    requires p in first && first[p] == tick && start * Timescale(p, timescales) as real == tick as real
    ensures DeltaSec(first, p, start, timescales) == 0.0
  {
    WholeTickDelta(start, tick, Timescale(p, timescales) as real);
  }

  lemma ShiftedInRange(first: map<nat, nat>, first': map<nat, nat>, timescales: map<nat, nat>, seconds: real)
    requires InRange(first, seconds, timescales) && MapShifted(first, first', Deltas(first, seconds, timescales))
    ensures forall t <- first' :: first'[t] < TWO_63
  {
    forall t <- first' ensures first'[t] < TWO_63 { DeltaInRange(first, t, seconds, timescales); }
  }

  /** Aligned once to a whole tick of the primary track, a fragment is a fixed point of the alignment. */
  lemma AlignTwice(d: seq<byte>, start: real, timescales: map<nat, nat>, p: nat, seconds: real, tick: nat)
    requires WellNested(d) && FirstOf(d).Some? && p in FirstOf(d).value
    requires seconds == DeltaSec(FirstOf(d).value, p, start, timescales) && InRange(FirstOf(d).value, seconds, timescales)
    requires start * Timescale(p, timescales) as real == tick as real
    requires AlignWith(d, start, timescales, p).Some?
    ensures var r := AlignWith(d, start, timescales, p).value;
      FirstOf(r).Some? && p in FirstOf(r).value && FirstOf(r).value[p] == tick
      && AlignWith(r, start, timescales, p) == Some(r)
  {
    AlignShifts(d, start, timescales, p, seconds);
    var r := AlignWith(d, start, timescales, p).value;
    LandsOnTick(FirstOf(d).value, FirstOf(r).value, start, timescales, p, seconds, tick);
    NoShiftLeft(FirstOf(r).value, start, timescales, p, tick);
    ShiftedInRange(FirstOf(d).value, FirstOf(r).value, timescales, seconds);
    var zero := Deltas(FirstOf(r).value, 0.0, timescales);
    NoDeltaLeft(FirstOf(r).value, timescales);
    FitsAfterShift(d, r, FileTree(d).value, Deltas(FirstOf(d).value, seconds, timescales), zero);
    AlignShifts(r, start, timescales, p, 0.0);
    ZeroShiftIsIdentity(r, AlignWith(r, start, timescales, p).value, FileTree(r).value, zero);
  }

  lemma FitsAfterShift(d: seq<byte>, r: seq<byte>, ns: seq<Node>, deltas: map<nat, int>, zero: map<nat, int>)
    requires AllFit(d, ns, deltas) && Shifted(d, r, ns, deltas)
    requires zero.Keys == deltas.Keys && forall t <- zero :: zero[t] == 0
    ensures AllFit(r, ns, zero)
  {
    forall n <- ns ensures Fits(r, n, zero) {
      assert Fits(d, n, deltas) && TimeMoved(d, r, n, deltas);
    }
  }

  // ---- Exactly when a fragment is a fixed point. ----

  /** Less than half a tick off its place, or asked to go below 0 from 0. */
  predicate WithinTick(first: map<nat, nat>, t: nat, seconds: real, timescales: map<nat, nat>)
    requires t in first
  {
    var ticks := seconds * Timescale(t, timescales) as real;
    ticks < 0.5 && (first[t] > 0 ==> ticks > -0.5)
  }

  lemma StaysIff(first: map<nat, nat>, t: nat, seconds: real, timescales: map<nat, nat>)
    requires t in first && InRange(first, seconds, timescales)
    ensures Delta(first, t, seconds, timescales) == 0 <==> WithinTick(first, t, seconds, timescales)
  {
    DeltaInRange(first, t, seconds, timescales);
    RoundsToZero(seconds * Timescale(t, timescales) as real);
  }

  lemma RoundsToZero(x: real)
    ensures Round(x) == 0 <==> -0.5 < x < 0.5
    ensures Round(x) < 0 <==> x <= -0.5
  {}

  /** A recorded time has a tfdt behind it. */
  lemma {:induction false} TimeHasTfdt(d: seq<byte>, ns: seq<Node>, first: map<nat, nat>, skip: bool, t: nat) returns (n: Node)
    requires First(d, ns, first, skip).Some? && t in First(d, ns, first, skip).value && t !in first
    ensures n in ns && IsTfdt(n) && n.level.track == t && NodeTicks(d, n).Some?
    decreases |ns|
  {
    var m := ns[0];
    if !m.level.InTraf? {
      n := TimeHasTfdt(d, ns[1..], first, IsTraf(m) && m.visit.level.track in first, t);
    } else if m.typ != TFDT || skip {
      n := TimeHasTfdt(d, ns[1..], first, skip, t);
    } else if m.level.track == t {
      n := m;
    } else {
      n := TimeHasTfdt(d, ns[1..], first[m.level.track := NodeTicks(d, m).value], skip, t);
    }
  }

  /** Alignment leaves a fragment as it is if and only if it succeeds with a shift of 0 for every track. */
  lemma AlignFixesIff(d: seq<byte>, start: real, timescales: map<nat, nat>, p: nat, seconds: real)
    requires WellNested(d) && FirstOf(d).Some? && p in FirstOf(d).value
    requires seconds == DeltaSec(FirstOf(d).value, p, start, timescales) && InRange(FirstOf(d).value, seconds, timescales)
    ensures var first := FirstOf(d).value;
      AlignWith(d, start, timescales, p) == Some(d) <==>
      && AllFit(d, FileTree(d).value, Deltas(first, seconds, timescales))
      && forall t <- first :: Delta(first, t, seconds, timescales) == 0
  {
    var first, ns := FirstOf(d).value, FileTree(d).value;
    var deltas := Deltas(first, seconds, timescales);
    AlignShifts(d, start, timescales, p, seconds);
    if AlignWith(d, start, timescales, p) == Some(d) {
      forall t <- first ensures deltas[t] == 0 {
        var n := TimeHasTfdt(d, ns, map[], false, t);
        assert TimeMoved(d, d, n, deltas);
      }
    }
    if AllFit(d, ns, deltas) && forall t <- first :: Delta(first, t, seconds, timescales) == 0 {
      ZeroShiftIsIdentity(d, AlignWith(d, start, timescales, p).value, ns, deltas);
    }
  }

  /** The first times an alignment leaves, by the first times it meets. */
  ghost function After(first: map<nat, nat>, seconds: real, timescales: map<nat, nat>): map<nat, nat>
    requires InRange(first, seconds, timescales)
  {
    map t | t in first :: (DeltaInRange(first, t, seconds, timescales); first[t] + Delta(first, t, seconds, timescales))
  }

  /**
   * A second alignment to the same start changes nothing if and only if the first one leaves every track within its tick,
   * which the first times of the fragment and the start decide beforehand.
   */
  lemma AlignTwiceIff(d: seq<byte>, start: real, timescales: map<nat, nat>, p: nat, seconds: real)
    requires WellNested(d) && FirstOf(d).Some? && p in FirstOf(d).value
    requires seconds == DeltaSec(FirstOf(d).value, p, start, timescales) && InRange(FirstOf(d).value, seconds, timescales)
    requires AlignWith(d, start, timescales, p).Some?
    ensures var r, after := AlignWith(d, start, timescales, p).value, After(FirstOf(d).value, seconds, timescales);
      var left := DeltaSec(after, p, start, timescales);
      && FirstOf(r) == Some(after)
      && (InRange(after, left, timescales) ==>
            (AlignWith(r, start, timescales, p) == Some(r)
             <==> forall t <- after :: WithinTick(after, t, left, timescales)))
  {
    AlignShifts(d, start, timescales, p, seconds);
    var r, first := AlignWith(d, start, timescales, p).value, After(FirstOf(d).value, seconds, timescales);
    var left := DeltaSec(first, p, start, timescales);
    assert FirstOf(r).value == first;
    if InRange(first, left, timescales) {
      AlignFixesIff(r, start, timescales, p, left);
      forall t <- first ensures Delta(first, t, left, timescales) == 0 <==> WithinTick(first, t, left, timescales) {
        StaysIff(first, t, left, timescales);
      }
      if forall t <- first :: Delta(first, t, left, timescales) == 0 {
        FitsAfterShift(d, r, FileTree(d).value, Deltas(FirstOf(d).value, seconds, timescales), Deltas(first, left, timescales));
      }
    }
  }
}
