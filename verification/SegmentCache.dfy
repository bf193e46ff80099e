/** The segment directory, and the clean-up before a job is repositioned in it. */
module SegmentCache {
  import opened Wrappers

  /**
    * The directory: `files` maps the index of each segment file to whether its content is publishable; `tmps` are the
    * indices with a leftover temporary file.
    */
  datatype Dir = Dir(files: map<nat, bool>, tmps: set<nat>)

  /** A segment is ready when its file is publishable and no temporary file stands beside it. */
  predicate Ready(d: Dir, i: nat) {
    i in d.files && d.files[i] && i !in d.tmps
  }

  /** One directory entry. Anything that does not parse as a segment name is `Other`. */
  datatype Entry = Segment(index: nat) | Temp(index: nat) | Other

  /** Names sort by index, and a segment before its temporary file. */
  predicate Before(a: Entry, b: Entry) {
    || a.Other? || b.Other?
    || a.index < b.index
    || (a.index == b.index && a.Segment? && b.Temp?)
  }

  /** A sorted listing of the whole directory, each name once. */
  ghost predicate Listing(entries: seq<Entry>, d: Dir) {
    && (forall i, j :: 0 <= i < j < |entries| ==> Before(entries[i], entries[j]))
    && (forall i :: Segment(i) in entries <==> i in d.files)
    && (forall i :: Temp(i) in entries <==> i in d.tmps)
  }

  /** The indices a rewrite of `[start, stop)` looks at; without a bound above `start`, all from `start` on. */
  predicate InRewrite(start: nat, stop: int, i: nat) {
    start <= i && (stop > start ==> i < stop)
  }

  /** `i` is the first ready index of the rewrite; index 0 cannot serve as a bound, since 0 stands for none. */
  ghost predicate FirstReady(d: Dir, start: nat, stop: int, i: nat) {
    && InRewrite(start, stop, i) && Ready(d, i) && i > 0
    && forall j: nat :: InRewrite(start, stop, j) && Ready(d, j) && j > 0 ==> i <= j
  }

  ghost predicate NoneReady(d: Dir, start: nat, stop: int) {
    forall j: nat :: InRewrite(start, stop, j) && Ready(d, j) ==> j == 0
  }

  /** What a bound says about the directory: 0 for none, otherwise the first ready index of the rewrite. */
  ghost predicate IsBound(d: Dir, start: nat, stop: int, bound: nat) {
    if bound == 0 then NoneReady(d, start, stop) else FirstReady(d, start, stop, bound)
  }

  /** The files a clean-up removes: those of the rewrite before the bound that are not ready. */
  predicate Cleared(d: Dir, start: nat, stop: int, bound: nat, i: nat) {
    InRewrite(start, stop, i) && (bound == 0 || i < bound) && !Ready(d, i)
  }

  ghost predicate CleanedFrom(d: Dir, after: Dir, start: nat, stop: int, bound: nat) {
    && after.tmps == {}
    && (forall i :: i in after.files <==> i in d.files && !Cleared(d, start, stop, bound, i))
    && (forall i <- after.files :: after.files[i] == d.files[i])
  }

  // ---- how far a pass over the listing has got

  ghost predicate FilesSoFar(d: Dir, now: Dir, start: nat, stop: int, bound: nat, done: seq<Entry>) {
    && (forall i :: i in now.files <==> i in d.files && !(Segment(i) in done && Cleared(d, start, stop, bound, i)))
    && (forall i <- now.files :: now.files[i] == d.files[i])
  }

  ghost predicate TmpsSoFar(d: Dir, now: Dir, done: seq<Entry>) {
    && now.tmps <= d.tmps
    && (forall i <- d.tmps :: Temp(i) in done ==> i !in now.tmps)
    && (forall i <- d.tmps :: Segment(i) !in done && Temp(i) !in done ==> i in now.tmps)
  }

  ghost predicate BoundSoFar(d: Dir, start: nat, stop: int, bound: nat, done: seq<Entry>) {
    && (bound > 0 ==> Segment(bound) in done && InRewrite(start, stop, bound) && Ready(d, bound))
    && (forall i: nat :: Segment(i) in done && InRewrite(start, stop, i) && i > 0 && Ready(d, i) ==> 0 < bound <= i)
  }

  ghost predicate Progress(d: Dir, now: Dir, start: nat, stop: int, bound: nat, done: seq<Entry>) {
    && FilesSoFar(d, now, start, stop, bound, done)
    && TmpsSoFar(d, now, done)
    && BoundSoFar(d, start, stop, bound, done)
  }

  class Cache {
    var files: map<nat, bool>
    var tmps: set<nat>

    constructor (files: map<nat, bool>, tmps: set<nat>)
      ensures State() == Dir(files, tmps)
    {
      this.files, this.tmps := files, tmps;
    }

    function State(): Dir
      reads this
    {
      Dir(files, tmps)
    }

    method Remove(i: nat)
      modifies this
      ensures State() == old(Dir(files - {i}, tmps - {i}))
    {
      files := files - {i};
      tmps := tmps - {i};
    }

    /**
      * Removes leftovers and every segment of the rewrite that is not ready, up to the first ready one. `entries` is
      * what reading the directory returned.
      */
    method ClearStale(entries: seq<Entry>, start: nat, stop: int) returns (bound: nat)
      requires Listing(entries, State())
      modifies this
      ensures IsBound(old(State()), start, stop, bound)
      ensures CleanedFrom(old(State()), State(), start, stop, bound)
    {
      bound := 0;
      ghost var d := State();
      for n := 0 to |entries|
        invariant Progress(d, State(), start, stop, bound, entries[..n])
      {
        bound := ClearEntry(d, entries, n, start, stop, bound);
      }
      assert entries[..|entries|] == entries;
      BoundIsFirst(d, entries, start, stop, bound);
      AllCleaned(d, State(), entries, start, stop, bound);
    }

    /** One turn of the clean-up. */
    method ClearEntry(ghost d: Dir, entries: seq<Entry>, n: nat, start: nat, stop: int, bound: nat) returns (next: nat)
      requires n < |entries| && Listing(entries, d)
      requires Progress(d, State(), start, stop, bound, entries[..n])
      modifies this
      ensures Progress(d, State(), start, stop, next, entries[..n + 1])
    {
      var e := entries[n];
      ghost var done, was := entries[..n], State();
      assert entries[..n + 1] == done + [e];
      if e.Other? {
        OtherPasses(d, was, start, stop, bound, done);
        return bound;
      }
      var idx := e.index;
      if e.Temp? {
        tmps := tmps - {idx};
        TempGoes(d, was, start, stop, bound, done, idx);
        return bound;
      }
      SegmentUntouched(d, was, entries, n, start, stop, bound);
      if idx < start || bound > 0 {
        SegmentPasses(d, was, entries, n, start, stop, bound);
        return bound;
      }
      if stop > start && idx >= stop {
        SegmentPasses(d, was, entries, n, start, stop, bound);
        return bound;
      }
      var ready := files[idx] && idx !in tmps;
      if ready {
        if idx > 0 {
          BoundBegins(d, was, entries, n, start, stop);
        } else {
          ReadyZeroStays(d, was, start, stop, done);
        }
        return idx;
      }
      SegmentGoes(d, was, start, stop, done, idx);
      Remove(idx);
      return bound;
    }

    /** Lays the directory out for a job; the job's stop becomes the hand-off bound when that is nearer. */
    method PrepareLayout(clear: bool, entries: seq<Entry>, start: nat, stop: int) returns (newStop: int)
      requires clear ==> Listing(entries, State())
      modifies this
      ensures !clear ==> State() == old(State()) && newStop == stop
      ensures clear ==> Repositioned(old(State()), State(), start, stop, newStop)
    {
      newStop := stop;
      if clear {
        var bound := ClearStale(entries, start, stop);
        if bound > start && (stop <= start || bound < stop) {
          newStop := bound;
        }
        CleanUpConserves(old(State()), State(), start, stop, bound);
      }
    }
  }

  lemma NameOnce(entries: seq<Entry>, n: nat)
    requires n < |entries| && !entries[n].Other?
    requires forall i, j :: 0 <= i < j < |entries| ==> Before(entries[i], entries[j])
    ensures entries[n] !in entries[..n]
  {}

  lemma LaterIsHigher(entries: seq<Entry>, n: nat, i: nat)
    requires n < |entries| && entries[n].Segment? && Segment(i) in entries[..n]
    requires forall a, b :: 0 <= a < b < |entries| ==> Before(entries[a], entries[b])
    ensures i < entries[n].index
  {}

  lemma OtherPasses(d: Dir, now: Dir, start: nat, stop: int, bound: nat, done: seq<Entry>)
    requires Progress(d, now, start, stop, bound, done)
    ensures Progress(d, now, start, stop, bound, done + [Other])
  {
    assert forall e: Entry :: e in done + [Other] <==> e in done || e == Other;
  }

  lemma TempGoes(d: Dir, now: Dir, start: nat, stop: int, bound: nat, done: seq<Entry>, i: nat)
    requires Progress(d, now, start, stop, bound, done)
    ensures Progress(d, now.(tmps := now.tmps - {i}), start, stop, bound, done + [Temp(i)])
  {
    assert forall e: Entry :: e in done + [Temp(i)] <==> e in done || e == Temp(i);
  }

  lemma TempComesAfter(entries: seq<Entry>, n: nat)
    requires n < |entries| && entries[n].Segment?
    requires forall i, j :: 0 <= i < j < |entries| ==> Before(entries[i], entries[j])
    ensures Temp(entries[n].index) !in entries[..n]
  {}

  /** When its turn comes a segment is as it was at the start, so its readiness is judged on the original directory. */
  lemma SegmentUntouched(d: Dir, now: Dir, entries: seq<Entry>, n: nat, start: nat, stop: int, bound: nat)
    requires n < |entries| && entries[n].Segment? && Listing(entries, d)
    requires Progress(d, now, start, stop, bound, entries[..n])
    ensures var i := entries[n].index;
      i in d.files && i in now.files && now.files[i] == d.files[i] && (i in now.tmps <==> i in d.tmps)
  {
    assert Segment(entries[n].index) in entries;
    NameOnce(entries, n);
    TempComesAfter(entries, n);
  }

  lemma SegmentPasses(d: Dir, now: Dir, entries: seq<Entry>, n: nat, start: nat, stop: int, bound: nat)
    requires n < |entries| && entries[n].Segment? && Listing(entries, d)
    requires Progress(d, now, start, stop, bound, entries[..n])
    requires !InRewrite(start, stop, entries[n].index) || bound > 0
    requires entries[n].index in now.tmps <==> entries[n].index in d.tmps
    ensures Progress(d, now, start, stop, bound, entries[..n] + [entries[n]])
  {
    var done, e := entries[..n], entries[n];
    if bound > 0 {
      LaterIsHigher(entries, n, bound);
    }
    assert forall x: Entry :: x in done + [e] <==> x in done || x == e;
  }

  lemma BoundBegins(d: Dir, now: Dir, entries: seq<Entry>, n: nat, start: nat, stop: int)
    requires n < |entries| && entries[n].Segment? && Listing(entries, d)
    requires Progress(d, now, start, stop, 0, entries[..n])
    requires InRewrite(start, stop, entries[n].index) && Ready(d, entries[n].index) && entries[n].index > 0
    ensures Progress(d, now, start, stop, entries[n].index, entries[..n] + [entries[n]])
  {
    var done, e := entries[..n], entries[n];
    forall i: nat | Segment(i) in done
      ensures i < e.index
    {
      LaterIsHigher(entries, n, i);
    }
    assert forall x: Entry :: x in done + [e] <==> x in done || x == e;
  }

  lemma SegmentGoes(d: Dir, now: Dir, start: nat, stop: int, done: seq<Entry>, i: nat)
    requires Progress(d, now, start, stop, 0, done) && InRewrite(start, stop, i) && !Ready(d, i)
    ensures Progress(d, Dir(now.files - {i}, now.tmps - {i}), start, stop, 0, done + [Segment(i)])
  {
    assert forall x: Entry :: x in done + [Segment(i)] <==> x in done || x == Segment(i);
  }

  lemma AllCleaned(d: Dir, now: Dir, entries: seq<Entry>, start: nat, stop: int, bound: nat)
    requires Listing(entries, d) && Progress(d, now, start, stop, bound, entries)
    ensures CleanedFrom(d, now, start, stop, bound)
  {}

  lemma ReadyZeroStays(d: Dir, now: Dir, start: nat, stop: int, done: seq<Entry>)
    requires Progress(d, now, start, stop, 0, done) && Ready(d, 0) && 0 in now.files
    requires 0 in now.tmps <==> 0 in d.tmps
    ensures Progress(d, now, start, stop, 0, done + [Segment(0)])
  {
    assert forall x: Entry :: x in done + [Segment(0)] <==> x in done || x == Segment(0);
  }

  lemma BoundIsFirst(d: Dir, entries: seq<Entry>, start: nat, stop: int, bound: nat)
    requires Listing(entries, d) && BoundSoFar(d, start, stop, bound, entries)
    ensures IsBound(d, start, stop, bound)
  {
    forall j: nat | InRewrite(start, stop, j) && Ready(d, j) && j > 0
      ensures bound > 0 && bound <= j
    {
      assert Segment(j) in entries;
    }
  }

  /** The stop a repositioned job gets: the least ready index above its start within any preset bound, if there is one. */
  ghost predicate HandsOff(d: Dir, start: nat, stop: int, newStop: int) {
    if exists j: nat :: j > start && InRewrite(start, stop, j) && Ready(d, j) then
      && newStop > start && InRewrite(start, stop, newStop) && Ready(d, newStop)
      && forall j: nat :: j > start && InRewrite(start, stop, j) && Ready(d, j) ==> newStop <= j
    else newStop == stop
  }

  /**
    * What a clear-and-restart promises: every ready segment is kept and no temporary file is left. When the start is
    * not ready, as on every restart for a segment somebody waits for, the stop is the hand-off segment and the job's
    * own range is left without any file.
    */
  ghost predicate Repositioned(d: Dir, after: Dir, start: nat, stop: int, newStop: int) {
    && (forall i: nat :: Ready(d, i) ==> Ready(after, i) && after.files[i] == d.files[i])
    && after.tmps == {}
    && (!Ready(d, start) ==>
          && HandsOff(d, start, stop, newStop)
          && forall i: nat :: InRewrite(start, newStop, i) ==> i !in after.files)
    && (Ready(d, start) && start > 0 ==> newStop == stop)
    && (Ready(d, start) && start == 0 ==> HandsOff(d, start, stop, newStop))
  }

  ghost predicate RangeHasNoneReady(d: Dir, start: nat, newStop: int) {
    forall i: nat :: InRewrite(start, newStop, i) ==> !Ready(d, i)
  }

  lemma CleanUpKeepsReady(d: Dir, after: Dir, start: nat, stop: int, bound: nat)
    requires CleanedFrom(d, after, start, stop, bound)
    ensures forall i: nat :: Ready(d, i) ==> Ready(after, i) && after.files[i] == d.files[i]
  {
    forall i: nat | Ready(d, i)
      ensures Ready(after, i) && after.files[i] == d.files[i]
    {
      assert !Cleared(d, start, stop, bound, i);
      assert i in after.files;
    }
  }

  /** Cache conservation. */
  lemma CleanUpConserves(d: Dir, after: Dir, start: nat, stop: int, bound: nat)
    requires IsBound(d, start, stop, bound) && CleanedFrom(d, after, start, stop, bound)
    ensures var newStop := if bound > start && (stop <= start || bound < stop) then bound as int else stop;
      Repositioned(d, after, start, stop, newStop)
  {
    var newStop := if bound > start && (stop <= start || bound < stop) then bound as int else stop;
    CleanUpKeepsReady(d, after, start, stop, bound);
    if bound > 0 {
      assert Ready(d, bound) && InRewrite(start, stop, bound);
    }
    if !Ready(d, start) {
      forall i: nat | InRewrite(start, newStop, i)
        ensures i !in after.files
      {
        assert Ready(d, i) ==> i == 0 || 0 < bound <= i;
        assert Cleared(d, start, stop, bound, i);
      }
    }
  }

  /** The range given to a repositioned job holds no ready segment if and only if the segment it starts at is not ready. */
  lemma RangeFreeIffStartNotReady(d: Dir, after: Dir, start: nat, stop: int, newStop: int)
    requires Repositioned(d, after, start, stop, newStop)
    ensures RangeHasNoneReady(d, start, newStop) <==> !Ready(d, start)
  {
    assert InRewrite(start, newStop, start);
    if !Ready(d, start) {
      forall i: nat | InRewrite(start, newStop, i)
        ensures !Ready(d, i)
      {
        assert i !in after.files;
      }
    }
  }

  /**
    * The clean-up also turns some segments ready: exactly the publishable files outside the cleared stretch that only
    * a leftover temporary file had been hiding.
    */
  lemma ReadyAfterCleanUp(d: Dir, after: Dir, start: nat, stop: int, bound: nat, i: nat)
    requires CleanedFrom(d, after, start, stop, bound)
    ensures Ready(after, i) <==>
            Ready(d, i) || (i in d.files && d.files[i] && i in d.tmps && !Cleared(d, start, stop, bound, i))
  {
    assert i in after.files <==> i in d.files && !Cleared(d, start, stop, bound, i);
  }

  /** Killing the repositioned job at any index it may be writing leaves its hand-off segment in place. */
  lemma KillKeepsHandOff(d: Dir, after: Dir, start: nat, stop: int, newStop: int, handOff: nat, written: nat)
    requires Repositioned(d, after, start, stop, newStop) && !Ready(d, start)
    requires handOff > start && InRewrite(start, stop, handOff) && Ready(d, handOff)
    requires InRewrite(start, newStop, written)
    ensures start < newStop <= handOff
    ensures Ready(Dir(after.files - {written}, after.tmps - {written}), newStop)
  {}

  /** A publishable file with a temporary file beside it is not ready; a clean-up from elsewhere makes it so. */
  lemma HiddenBecomesReady(d: Dir, after: Dir)
    requires d == Dir(map[3 := true], {3}) && CleanedFrom(d, after, 5, 0, 0)
    ensures !Ready(d, 3) && Ready(after, 3) && IsBound(d, 5, 0, 0)
  {
    assert !Cleared(d, 5, 0, 0, 3);
    assert 3 in after.files;
  }
}
