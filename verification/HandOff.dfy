/** The clean-up and the session together: what becomes of the segment a repositioned job hands off to. */
module HandOff {
  import opened Wrappers
  import opened Decision
  import opened Session
  import opened Protocol
  import Cache = SegmentCache

  /** The directory holds exactly the ready segments of the state. */
  ghost predicate Shows(d: Cache.Dir, s: State) {
    forall i: nat :: i in s.ready <==> Cache.Ready(d, i)
  }

  /** A job is started behind a clean-up of the directory, which gives it its stop. */
  ghost predicate Repositions(s: State, e: Step, d: Cache.Dir, after: Cache.Dir, preset: int) {
    && e.StartJob? && Shows(d, s)
    && Cache.Repositioned(d, after, e.start, preset, e.stop)
  }

  /** The clean-up hands off at the least ready segment above a start that is not ready itself. */
  lemma StopIsHandOff(s: State, e: Step, d: Cache.Dir, after: Cache.Dir, preset: int, found: nat)
    requires Repositions(s, e, d, after, preset) && e.start !in s.ready
    requires found in s.ready && found > e.start && Cache.InRewrite(e.start, preset, found)
    ensures e.start < e.stop <= found && e.stop in s.ready
    ensures forall i: nat :: e.start <= i < e.stop ==> i !in s.ready
  {
    assert Cache.Ready(d, found);
    Cache.RangeFreeIffStartNotReady(d, after, e.start, preset, e.stop);
  }

  /** The job a restart has started and not yet let go of. */
  function InHand(s: State): Option<nat> {
    if s.phase.Started? || s.phase.Installing? then Some(s.phase.id) else None
  }

  /** The job restarts have in hand, or had in hand last. */
  ghost predicate Owner(s: State, id: nat, start: nat, stop: int) {
    && id in s.jobs && s.jobs[id].start == start && s.jobs[id].stop == stop
    && (if InHand(s).Some? then InHand(s) else s.last) == Some(id)
  }

  lemma StartOwns(c: Config, s: State, e: Step)
    requires Enabled(c, s, e) && e.StartJob?
    ensures Owner(Next(c, s, e), e.id, e.start, e.stop)
  {}

  lemma StepKeepsOwner(c: Config, s: State, e: Step, id: nat, start: nat, stop: int)
    requires Invariant(c, s) && Enabled(c, s, e) && Owner(s, id, start, stop) && !e.StartJob?
    ensures Owner(Next(c, s, e), id, start, stop)
  {
    JobsKeepRange(c, s, e);
    HandMoves(c, s, e);
  }

  /** Which job restarts have in hand changes by a start alone, and the last one attached only to the one in hand. */
  lemma HandMoves(c: Config, s: State, e: Step)
    requires Invariant(c, s) && Enabled(c, s, e) && !e.StartJob?
    ensures var t := Next(c, s, e);
      && (InHand(t).Some? ==> InHand(t) == InHand(s))
      && (InHand(t).None? ==> t.last == if InHand(s).Some? then InHand(s) else s.last)
  {}

  /** What a restart condemns is in its job's range, so it is not the hand-off segment. */
  lemma CondemnedInRange(c: Config, s: State, id: nat, start: nat, stop: int)
    requires Invariant(c, s) && Owner(s, id, start, stop) && start < stop && (s.phase.Condemned? || s.phase.Unlinking?)
    ensures start <= s.phase.index < stop
  {}

  /** An unlink of the index has been put off, or decided as its last reader left. */
  predicate PutOff(s: State, index: nat) {
    index in s.shared.pending || index in s.leaving
  }

  /** One step of a session whose job hands off at `stop`: what it does to that segment. */
  ghost predicate HandOffStep(s: State, e: Step, t: State, stop: nat) {
    && (PutOff(t, stop) ==> PutOff(s, stop))
    && (e == UnlinkLeft(stop) ==> PutOff(s, stop))
    && (!e.Disk? ==> (stop in t.ready <==> stop in s.ready && e != UnlinkLeft(stop)))
    && (e.Disk? ==> t.ready == e.ready)
  }

  lemma StepIsHandOffStep(c: Config, s: State, e: Step, id: nat, start: nat, stop: nat)
    requires Invariant(c, s) && Enabled(c, s, e) && Owner(s, id, start, stop) && start < stop
    ensures HandOffStep(s, e, Next(c, s, e), stop)
  {
    if s.phase.Condemned? || s.phase.Unlinking? {
      CondemnedInRange(c, s, id, start, stop);
    }
    PutOffBefore(c, s, e, stop);
    if !e.Disk? {
      RemovedByUnlink(c, s, e, stop);
    }
  }

  lemma PutOffBefore(c: Config, s: State, e: Step, stop: nat)
    requires Enabled(c, s, e) && (s.phase.Condemned? ==> s.phase.index != stop)
    ensures PutOff(Next(c, s, e), stop) ==> PutOff(s, stop)
  {}

  lemma {:induction false} OwnerKept(c: Config, states: seq<State>, steps: seq<Step>, j: nat, i: nat)
    requires Run(c, states, steps) && j < i <= |steps| && steps[j].StartJob?
    requires forall m: nat :: j < m < i ==> !steps[m].StartJob?
    ensures Owner(states[i], steps[j].id, steps[j].start, steps[j].stop)
    decreases i
  {
    if i == j + 1 {
      StartOwns(c, states[j], steps[j]);
    } else {
      OwnerKept(c, states, steps, j, i - 1);
      RunHolds(c, states, steps, i - 1);
      StepKeepsOwner(c, states[i - 1], steps[i - 1], steps[j].id, steps[j].start, steps[j].stop);
    }
  }

  /** From a start on there is no other start, and the disk on its own neither makes nor breaks the segment. */
  ghost predicate Undisturbed(states: seq<State>, steps: seq<Step>, j: nat, i: nat, stop: nat)
    requires j < i <= |steps| && |states| == |steps| + 1
  {
    forall m: nat :: j < m < i ==>
      && !steps[m].StartJob?
      && (steps[m].Disk? ==> (stop in steps[m].ready <==> stop in states[m].ready))
  }

  /** An unlink put off is carried out between two positions. */
  ghost predicate LeftUnlinked(steps: seq<Step>, j: nat, i: nat, index: nat)
    requires i <= |steps|
  {
    exists m: nat :: j < m < i && steps[m] == UnlinkLeft(index)
  }

  ghost predicate HandOffSteps(states: seq<State>, steps: seq<Step>, j: nat, i: nat, stop: nat)
    requires j < i <= |steps| && |states| == |steps| + 1
  {
    && (stop in states[j].ready ==> stop in states[j + 1].ready) && (PutOff(states[j + 1], stop) ==> PutOff(states[j], stop))
    && forall m: nat :: j < m < i ==> HandOffStep(states[m], steps[m], states[m + 1], stop)
  }

  lemma RunHandOffSteps(c: Config, states: seq<State>, steps: seq<Step>, j: nat, i: nat, stop: nat)
    requires Run(c, states, steps) && j < i <= |steps| && steps[j].StartJob?
    requires Undisturbed(states, steps, j, i, stop) && steps[j].start < steps[j].stop == stop
    ensures HandOffSteps(states, steps, j, i, stop)
  {
    assert states[j + 1] == Next(c, states[j], steps[j]);
    forall m: nat | j < m < i
      ensures HandOffStep(states[m], steps[m], states[m + 1], stop)
    {
      OwnerKept(c, states, steps, j, m);
      RunHolds(c, states, steps, m);
      StepIsHandOffStep(c, states[m], steps[m], steps[j].id, steps[j].start, stop);
    }
  }

  lemma {:induction false} HandOffStays(states: seq<State>, steps: seq<Step>, j: nat, i: nat, stop: nat)
    requires j < i <= |steps| && |states| == |steps| + 1 && stop in states[j].ready
    requires HandOffSteps(states, steps, j, i, stop) && Undisturbed(states, steps, j, i, stop)
    ensures stop in states[i].ready <==> !LeftUnlinked(steps, j, i, stop)
    ensures PutOff(states[i], stop) || LeftUnlinked(steps, j, i, stop) ==> PutOff(states[j], stop)
    decreases i
  {
    if j + 1 < i {
      HandOffStays(states, steps, j, i - 1, stop);
      assert HandOffStep(states[i - 1], steps[i - 1], states[i - 1 + 1], stop);
      if LeftUnlinked(steps, j, i - 1, stop) {
        var m: nat :| j < m < i - 1 && steps[m] == UnlinkLeft(stop);
        assert m < i;
      }
    }
  }

  /**
    * Cache conservation over whole runs. A job is started behind a clean-up for a segment that is not ready, while a later
    * one is. Its stop is then the least ready segment above its start, and until the next job is started, whatever
    * restart kills it, the session takes that segment away if and only if it carries out an unlink put off before the
    * job was started; with none put off the segment is still ready.
    */
  lemma HandOffSurvives(c: Config, states: seq<State>, steps: seq<Step>, j: nat, i: nat, d: Cache.Dir, after: Cache.Dir,
                        preset: int, found: nat)
    requires Run(c, states, steps) && j < i <= |steps|
    requires Repositions(states[j], steps[j], d, after, preset) && steps[j].start !in states[j].ready
    requires found in states[j].ready && found > steps[j].start && Cache.InRewrite(steps[j].start, preset, found)
    requires steps[j].stop >= 0 ==> Undisturbed(states, steps, j, i, steps[j].stop)
    ensures steps[j].start < steps[j].stop <= found && steps[j].stop in states[j].ready
    ensures steps[j].stop in states[i].ready <==> !LeftUnlinked(steps, j, i, steps[j].stop)
    ensures LeftUnlinked(steps, j, i, steps[j].stop) ==> PutOff(states[j], steps[j].stop)
  {
    StopIsHandOff(states[j], steps[j], d, after, preset, found);
    RunHandOffSteps(c, states, steps, j, i, steps[j].stop);
    HandOffStays(states, steps, j, i, steps[j].stop);
  }
}
