/** Runs of the session protocol that show where its results end: a reader and a job losing their segment, a head going back. */
module Races {
  import opened Wrappers
  import opened Decision
  import opened Session
  import opened Protocol
  import Cache = SegmentCache
  import H = HandOff

  // ---- a reader that loses its segment

  ghost predicate Reachable(c: Config, s: State) {
    exists states: seq<State>, steps: seq<Step> :: Run(c, states, steps) && states[|states| - 1] == s
  }

  lemma Extend(c: Config, s: State, e: Step)
    requires Reachable(c, s) && Enabled(c, s, e)
    ensures Reachable(c, Next(c, s, e))
  {
    var states: seq<State>, steps: seq<Step> :| Run(c, states, steps) && states[|states| - 1] == s;
    var more, taken := states + [Next(c, s, e)], steps + [e];
    forall i | 0 <= i < |taken|
      ensures Enabled(c, more[i], taken[i]) && more[i + 1] == Next(c, more[i], taken[i])
    {
      if i < |steps| {
        assert more[i] == states[i] && more[i + 1] == states[i + 1] && taken[i] == steps[i];
      }
    }
    assert Run(c, more, taken) && more[|more| - 1] == Next(c, s, e);
  }

  /** An explicit-cut session, nothing running, whose last job left segment 1 publishable but not listed. */
  function Leftover(phase: Phase, readers: map<nat, nat>): State {
    State(Shared(None, 1, 1, true, Some(1), readers, {}, false), map[1 := Job(1, 0, false)], phase, map[], {1}, {},
          map[], Some(1), multiset{})
  }

  function Opening(phase: Phase): State {
    State(Fresh(true), map[], phase, map[], {}, {}, map[], None, multiset{})
  }

  lemma FirstStart(c: Config)
    ensures Reachable(c, Opening(Starting(1)))
  {
    var s0 := Opening(Free);
    assert Run(c, [s0], []) && [s0][|[s0]| - 1] == s0;
    Extend(c, s0, LockRestart(1));
    Extend(c, Opening(Locked(1)), Redecide);
    Extend(c, Opening(Decided(1)), Snapshot);
    Extend(c, Opening(Draining(1, None, None)), Drained);
    var s1 := Opening(Cleaning(1, None, None)).(shared := Fresh(true).(restarting := true));
    Extend(c, s1, Spare);
  }

  lemma FirstJobInstalled(c: Config) returns (s: State)
    ensures Reachable(c, s) && s.phase == Free
    ensures s == Leftover(Free, map[]).(shared := s.shared, jobs := map[1 := Job(1, 0, true)], ready := {})
    ensures s.shared == Shared(Some(1), 1, 1, true, Some(1), map[], {}, false)
  {
    FirstStart(c);
    Extend(c, Opening(Starting(1)), StartJob(1, 1, 0));
    var s1 := Opening(Started(1)).(jobs := map[1 := Job(1, 0, true)]);
    Extend(c, s1, CheckInstall);
    var s2 := s1.(phase := Installing(1, true));
    Extend(c, s2, Install);
    s := Next(c, s2, Install);
  }

  lemma SegmentLeftOver(c: Config)
    ensures Reachable(c, Leftover(Free, map[]))
  {
    var s := FirstJobInstalled(c);
    Extend(c, s, Disk({1}, {}));
    var s1 := s.(ready := {1});
    Extend(c, s1, Finish(1));
    var s2 := s1.(jobs := map[1 := Job(1, 0, false)]);
    Extend(c, s2, ViewClear);
    assert Next(c, s2, ViewClear) == Leftover(Free, map[]);
  }

  /** A restart on its way past the leftover, with or without a reader of it. */
  lemma LeftoverCondemned(c: Config, readers: map<nat, nat>)
    requires Reachable(c, Leftover(Free, readers))
    ensures Reachable(c, Leftover(Condemned(5, 1), readers).(shared := Leftover(Free, readers).shared.(restarting := true)))
  {
    var s0 := Leftover(Free, readers);
    Extend(c, s0, LockRestart(5));
    var s1 := s0.(phase := Locked(5));
    Extend(c, s1, Redecide);
    var s2 := s0.(phase := Decided(5));
    Extend(c, s2, Snapshot);
    var s3 := s0.(phase := Draining(5, None, Some(1)));
    Extend(c, s3, Drained);
    var s4 := s0.(shared := s0.shared.(restarting := true), phase := Cleaning(5, None, Some(1)));
    Extend(c, s4, Condemn);
  }

  /** The removal of a ready segment that has a reader. */
  ghost predicate TakesFromReader(c: Config, s: State, e: Step, index: nat) {
    && Enabled(c, s, e) && index in s.ready && Readers(s.shared, index) > 0
    && index !in Next(c, s, e).ready
  }

  /**
    * A restart decides the unlink while nobody reads, a reader comes after the lock is let go, and the removal takes the
    * ready segment from under it.
    */
  lemma RestartCanTakeFromReader(c: Config)
    ensures exists s :: Reachable(c, s) && TakesFromReader(c, s, Unlink, 1)
  {
    SegmentLeftOver(c);
    LeftoverCondemned(c, map[]);
    var s0 := Leftover(Condemned(5, 1), map[]).(shared := Leftover(Free, map[]).shared.(restarting := true));
    Extend(c, s0, Judge);
    var s1 := s0.(phase := Unlinking(5, 1));
    Extend(c, s1, Acquire(1));
    var s2 := Next(c, s1, Acquire(1));
    assert TakesFromReader(c, s2, Unlink, 1);
  }

  /** The leftover with its unlink deferred to its one reader. */
  function Deferred(): State {
    Leftover(Starting(5), map[1 := 1]).(shared := Shared(None, 1, 1, true, Some(1), map[1 := 1], {1}, false))
  }

  lemma UnlinkDeferred(c: Config)
    ensures Reachable(c, Deferred())
  {
    SegmentLeftOver(c);
    Extend(c, Leftover(Free, map[]), Acquire(1));
    var readers: map<nat, nat> := map[1 := 1];
    assert Next(c, Leftover(Free, map[]), Acquire(1)) == Leftover(Free, readers);
    LeftoverCondemned(c, readers);
    var s := Leftover(Condemned(5, 1), readers).(shared := Leftover(Free, readers).shared.(restarting := true));
    Extend(c, s, Judge);
    assert Next(c, s, Judge) == Deferred();
  }

  lemma ReaderComesBack(c: Config, s: State)
    requires Reachable(c, s) && 1 in s.ready && 1 in s.leaving
    ensures exists t :: Reachable(c, t) && TakesFromReader(c, t, UnlinkLeft(1), 1)
  {
    Extend(c, s, Acquire(1));
    assert TakesFromReader(c, Next(c, s, Acquire(1)), UnlinkLeft(1), 1);
  }

  /** The same after the last reader of a deferred unlink has left and another has come. */
  lemma ReleaseCanTakeFromReader(c: Config)
    ensures exists s :: Reachable(c, s) && TakesFromReader(c, s, UnlinkLeft(1), 1)
  {
    UnlinkDeferred(c);
    Extend(c, Deferred(), Release(1));
    ReaderComesBack(c, Next(c, Deferred(), Release(1)));
  }

  // ---- a hand-off segment that is lost

  /** The removal of the segment a job was given to hand off to, put off since before the job was started. */
  ghost predicate LosesHandOff(c: Config, s: State, start: Step, d: Cache.Dir) {
    && Enabled(c, s, start) && H.Repositions(s, start, d, d, 0)
    && 1 in s.ready && 0 !in s.ready && start == StartJob(2, 0, 1)
    && GoesWithReader(c, Next(c, s, start), 1)
  }

  /** The last reader leaves, and with it goes the segment. */
  ghost predicate GoesWithReader(c: Config, s: State, index: nat) {
    && Enabled(c, s, Release(index)) && Enabled(c, Next(c, s, Release(index)), UnlinkLeft(index))
    && index !in Next(c, Next(c, s, Release(index)), UnlinkLeft(index)).ready
  }

  lemma LastReaderTakesIt(c: Config, s: State, index: nat)
    requires Readers(s.shared, index) == 1 && index in s.shared.pending
    ensures GoesWithReader(c, s, index)
  {}

  /**
    * A restart puts off the unlink of segment 1 for a reader; the job it then starts at 0 hands off to that segment, which
    * is ready; the reader leaves, and the segment goes.
    */
  lemma HandOffCanBeLost(c: Config)
    ensures exists s, d :: Reachable(c, s) && LosesHandOff(c, s, StartJob(2, 0, 1), d)
  {
    UnlinkDeferred(c);
    var d := Cache.Dir(map[1 := true], {});
    CleanAlready(d);
    LastReaderTakesIt(c, Next(c, Deferred(), StartJob(2, 0, 1)), 1);
    assert LosesHandOff(c, Deferred(), StartJob(2, 0, 1), d);
  }

  /** A directory with nothing but segment 1, ready, is left as it is by a clean-up from 0, which hands off there. */
  lemma CleanAlready(d: Cache.Dir)
    requires d == Cache.Dir(map[1 := true], {})
    ensures Cache.Repositioned(d, d, 0, 0, 1)
    ensures forall i: nat :: Cache.Ready(d, i) <==> i == 1
  {
    assert Cache.IsBound(d, 0, 0, 1) && Cache.CleanedFrom(d, d, 0, 0, 1);
    Cache.CleanUpConserves(d, d, 0, 0, 1);
  }

  // ---- a head that goes back

  /** The job stays and its head moves back. */
  ghost predicate HeadGoesBack(c: Config, s: State, e: Step) {
    && Enabled(c, s, e) && !Attaches(e)
    && s.shared.job.Some? && Next(c, s, e).shared.job == s.shared.job
    && Next(c, s, e).shared.head < s.shared.head
  }

  lemma ListHeads(job: Job)
    requires job.start == 1 && job.stop == 0
    ensures ExplicitHead(job, {1}) == 2 && ExplicitHead(job, {1, 2}) == 3
  {}

  /** Two refreshes of one job: the first reads the list, the second reads a longer one and writes, the first writes. */
  lemma HeadCanGoBack(c: Config)
    ensures exists t :: Reachable(c, t) && HeadGoesBack(c, t, WriteList(1))
  {
    var s := FirstJobInstalled(c);
    Extend(c, s, Disk({}, {1}));
    FirstReads(c, s.(listed := {1}));
  }

  lemma FirstReads(c: Config, s: State)
    requires Reachable(c, s) && s.shared == Shared(Some(1), 1, 1, true, Some(1), map[], {}, false)
    requires s.threads == map[] && s.listed == {1} && s.jobs == map[1 := Job(1, 0, true)]
    ensures exists t :: Reachable(c, t) && HeadGoesBack(c, t, WriteList(1))
  {
    ListHeads(Job(1, 0, true));
    Extend(c, s, Begin(1));
    var s1 := s.(threads := map[1 := Begun(1, 1, true)]);
    assert Next(c, s, Begin(1)) == s1;
    Extend(c, s1, ReadList(1));
    var s2 := Next(c, s1, ReadList(1));
    Extend(c, s2, Disk({}, {1, 2}));
    SecondRefresh(c, s2.(ready := {}, listed := {1, 2}));
  }

  /** The session with its first refresh about to write 2, and the second at `r`. */
  function TwoRefreshes(s: State, r: Refresh): State {
    s.(threads := map[1 := SawList(1, 2), 2 := r])
  }

  ghost predicate FirstAboutToWrite(c: Config, s: State) {
    && s.shared == Shared(Some(1), 1, 1, true, Some(1), map[], {}, false)
    && s.threads == map[1 := SawList(1, 2)] && s.listed == {1, 2} && s.jobs == map[1 := Job(1, 0, true)]
  }

  lemma SecondReads(c: Config, s: State)
    requires Reachable(c, s) && FirstAboutToWrite(c, s)
    ensures exists seen :: Reachable(c, TwoRefreshes(s, SawList(1, 3)).(seen := seen))
  {
    ListHeads(Job(1, 0, true));
    Extend(c, s, Begin(2));
    var s1 := TwoRefreshes(s, Begun(1, 1, true));
    assert Next(c, s, Begin(2)) == s1;
    Extend(c, s1, ReadList(2));
    var s2 := Next(c, s1, ReadList(2));
    assert s2 == TwoRefreshes(s, SawList(1, 3)).(seen := s2.seen);
  }

  lemma SecondRefresh(c: Config, s: State)
    requires Reachable(c, s) && FirstAboutToWrite(c, s)
    ensures exists t :: Reachable(c, t) && HeadGoesBack(c, t, WriteList(1))
  {
    SecondReads(c, s);
    var seen :| Reachable(c, TwoRefreshes(s, SawList(1, 3)).(seen := seen));
    var s2 := TwoRefreshes(s, SawList(1, 3)).(seen := seen);
    Extend(c, s2, WriteList(2));
    FirstWritesBack(c, Next(c, s2, WriteList(2)));
  }

  lemma FirstWritesBack(c: Config, t: State)
    requires Reachable(c, t) && t.shared.job == Some(1) && t.shared.head == 3
    requires 1 in t.threads && t.threads[1] == SawList(1, 2)
    ensures exists t :: Reachable(c, t) && HeadGoesBack(c, t, WriteList(1))
  {
    assert HeadGoesBack(c, t, WriteList(1));
  }
}
