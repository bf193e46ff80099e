/**
  * The session protocol: any number of waiters, watchers and refreshers, one restart at a time, and a disk that
  * changes on its own. Each step is one critical section, one observation of the disk, or one act of the environment.
  */
module Protocol {
  import opened Wrappers
  import opened Decision
  import opened Session

  /** Where the holder of the restart lock is; `Free` when nobody holds it. */
  datatype Phase =
    | Free
    | Locked(k: int)
    | Decided(k: int)
    | Draining(k: int, prior: Option<nat>, partial: Option<nat>)
    | Cleaning(k: int, prior: Option<nat>, partial: Option<nat>)
    | Condemned(k: int, index: nat)
    | Unlinking(k: int, index: nat)
    | Starting(k: int)
    | Started(id: nat)
    | Installing(id: nat, explicit: bool)

  /** Where a head refresh is between its critical sections, with what it captured. */
  datatype Refresh =
    | Begun(id: nat, start: nat, explicit: bool)
    | Peeked(id: nat, head: nat)
    | SawReady(id: nat, head: nat)
    | SawList(id: nat, head: nat)

  datatype State = State(
    shared: Shared,
    jobs: map<nat, Job>,
    phase: Phase,
    threads: map<nat, Refresh>,
    ready: set<nat>,
    listed: set<nat>,
    seen: map<nat, set<nat>>,
    last: Option<nat>,
    leaving: multiset<nat>)

  datatype Step =
    // the restart thread
    | LockRestart(k: int)
    | Redecide
    | Snapshot
    | Drained
    | Spare
    | Condemn
    | Judge
    | Unlink
    | StartJob(id: nat, start: nat, stop: int)
    | StartFails
    | HostInstall(explicit: bool)
    | CheckInstall
    | Install
    // watchers and views
    | Finish(id: nat)
    | WatchClear(id: nat)
    | WatchPartial(id: nat)
    | ViewClear
    // refreshers
    | Begin(t: nat)
    | Peek(t: nat)
    | Check(t: nat)
    | Write(t: nat)
    | ReadList(t: nat)
    | WriteList(t: nat)
    | GiveUp(t: nat)
    // serving and the disk
    | Acquire(index: nat)
    | Release(index: nat)
    | UnlinkLeft(index: nat)
    | Disk(ready: set<nat>, listed: set<nat>)

  ghost predicate Start(s: State) {
    && s.shared == Fresh(s.shared.explicit)
    && s.jobs == map[] && s.phase == Free && s.threads == map[] && s.seen == map[] && s.last == None
    && s.leaving == multiset{}
  }

  predicate Running(s: State, id: nat) {
    id in s.jobs && s.jobs[id].running
  }

  predicate CurrentRuns(s: State) {
    s.shared.job.Some? && Running(s, s.shared.job.value)
  }

  function Seen(s: State, id: nat): set<nat> {
    if id in s.seen then s.seen[id] else {}
  }

  function Noted(s: State, id: nat, found: set<nat>): map<nat, set<nat>> {
    s.seen[id := Seen(s, id) + found]
  }

  function Span(lo: nat, hi: nat): (r: set<nat>)
    ensures forall i :: i in r <==> lo <= i < hi
    decreases hi
  {
    if lo >= hi then {} else Span(lo, hi - 1) + {hi - 1}
  }

  predicate OnDisk(s: State, index: nat) {
    index in s.ready || index in s.listed
  }

  /** How an index counts as finished: listed for explicit cuts, ready for the others, either when the mode is open. */
  predicate Finished(s: State, mode: Option<bool>, index: nat) {
    match mode
    case None => OnDisk(s, index)
    case Some(explicit) => if explicit then index in s.listed else index in s.ready
  }

  /** The index was finished at some moment before position `i` of the run at which the job was there. */
  ghost predicate SeenBefore(states: seq<State>, i: nat, id: nat, mode: Option<bool>, index: nat)
    requires i <= |states|
  {
    exists m: nat :: m < i && id in states[m].jobs && Finished(states[m], mode, index)
  }

  function Known(s: State, id: Option<nat>): Option<Job> {
    if id.Some? && id.value in s.jobs then Some(s.jobs[id.value]) else None
  }

  predicate At(s: State, t: nat, id: nat) {
    t in s.threads && s.threads[t].id == id && id in s.jobs
  }

  ghost predicate Enabled(c: Config, s: State, e: Step) {
    match e
    case LockRestart(_) => s.phase.Free?
    case Redecide => s.phase.Locked?
    case Snapshot => s.phase.Decided?
    case Drained => s.phase.Draining? && (s.phase.prior.Some? ==> !Running(s, s.phase.prior.value))
    case Spare =>
      && s.phase.Cleaning?
      && (s.phase.partial.Some? ==>
            !Doomed(s.shared.explicit, Known(s, s.phase.prior), s.phase.partial.value, s.ready, s.listed))
    case Condemn =>
      && s.phase.Cleaning? && s.phase.partial.Some?
      && Doomed(s.shared.explicit, Known(s, s.phase.prior), s.phase.partial.value, s.ready, s.listed)
    case Judge => s.phase.Condemned?
    case Unlink => s.phase.Unlinking?
    case StartJob(id, _, _) => s.phase.Starting? && id !in s.jobs
    case StartFails => s.phase.Starting?
    case HostInstall(_) => s.phase.Started? && s.phase.id in s.jobs
    case CheckInstall => s.phase.Started?
    case Install => s.phase.Installing? && s.phase.id in s.jobs
    case Finish(id) => id in s.jobs
    case WatchClear(id) => id in s.jobs && !s.jobs[id].running
    case WatchPartial(id) => id in s.jobs
    case ViewClear => true
    case Begin(t) => t !in s.threads && s.shared.job.Some? && s.shared.job.value in s.jobs
    case Peek(t) => t in s.threads && s.threads[t].Begun? && !s.threads[t].explicit && s.shared.job == Some(s.threads[t].id)
    case Check(t) => t in s.threads && s.threads[t].Peeked? && s.threads[t].head in s.ready
    case Write(t) => t in s.threads && s.threads[t].SawReady? && s.threads[t].id in s.jobs
    case ReadList(t) => t in s.threads && s.threads[t].Begun? && s.threads[t].explicit && s.threads[t].id in s.jobs
    case WriteList(t) => t in s.threads && s.threads[t].SawList?
    case GiveUp(t) => t in s.threads
    case Acquire(_) => true
    case Release(_) => true
    case UnlinkLeft(index) => index in s.leaving
    case Disk(_, _) => true
  }

  /** What a step adds to the observations: a check the index it found ready, a reading of the list all it found listed. */
  ghost function SeenAfter(s: State, e: Step): map<nat, set<nat>> {
    match e
    case Check(t) => if t in s.threads && s.threads[t].Peeked? then Noted(s, s.threads[t].id, {s.threads[t].head}) else s.seen
    case ReadList(t) =>
      if t in s.threads && s.threads[t].Begun? && s.threads[t].id in s.jobs then
        var job := s.jobs[s.threads[t].id];
        Noted(s, s.threads[t].id, Span(job.start, ExplicitHead(job, s.listed)))
      else s.seen
    case _ => s.seen
  }

  ghost function Next(c: Config, s: State, e: Step): State
    requires Enabled(c, s, e)
  {
    Moved(c, s, e).(seen := SeenAfter(s, e))
  }

  /** The step but for the observations. */
  ghost function Moved(c: Config, s: State, e: Step): State
    requires Enabled(c, s, e)
  {
    match e
    case LockRestart(k) => s.(phase := Locked(k))
    case Redecide =>
      s.(shared := Viewed(s.shared, CurrentRuns(s)),
         phase := if Decide(c, View(s.shared, CurrentRuns(s)), s.phase.k, false) == Restart then Decided(s.phase.k) else Free)
    case Snapshot => s.(shared := JobTaken(s.shared), phase := Draining(s.phase.k, s.shared.job, s.shared.partial))
    case Drained => s.(shared := s.shared.(restarting := true), phase := Cleaning(s.phase.k, s.phase.prior, s.phase.partial))
    case Spare => s.(shared := s.shared.(restarting := false), phase := Starting(s.phase.k))
    case Condemn => s.(phase := Condemned(s.phase.k, s.phase.partial.value))
    case Judge =>
      if Readers(s.shared, s.phase.index) > 0 then
        s.(shared := s.shared.(restarting := false, pending := s.shared.pending + {s.phase.index}), phase := Starting(s.phase.k))
      else
        s.(phase := Unlinking(s.phase.k, s.phase.index))
    case Unlink =>
      s.(shared := s.shared.(restarting := false), ready := s.ready - {s.phase.index}, phase := Starting(s.phase.k))
    case StartJob(id, start, stop) => s.(jobs := s.jobs[id := Job(start, stop, true)], phase := Started(id))
    case StartFails => s.(phase := Free)
    case HostInstall(explicit) => Attach(s, s.phase.id, explicit)
    case CheckInstall =>
      s.(phase := if s.shared.job == Some(s.phase.id) then Free else Installing(s.phase.id, s.shared.explicit))
    case Install => Attach(s, s.phase.id, s.phase.explicit).(phase := Free)
    case Finish(id) => s.(jobs := s.jobs[id := s.jobs[id].(running := false)])
    case WatchClear(id) => s.(shared := ClearedIf(s.shared, id))
    case WatchPartial(id) => s.(shared := PartialTracked(s.shared, id, s.jobs[id]))
    case ViewClear => s.(shared := Viewed(s.shared, CurrentRuns(s)))
    case Begin(t) => s.(threads := s.threads[t := Begun(s.shared.job.value, s.shared.jobStart, s.shared.explicit)])
    case Peek(t) => s.(threads := s.threads[t := Peeked(s.threads[t].id, s.shared.head)])
    case Check(t) =>
      s.(threads := s.threads[t := SawReady(s.threads[t].id, s.threads[t].head)])
    case Write(t) =>
      s.(shared := HeadWritten(s.shared, s.threads[t].id, s.threads[t].head + 1),
         threads := s.threads[t := Begun(s.threads[t].id, s.jobs[s.threads[t].id].start, false)])
    case ReadList(t) =>
      var head := ExplicitHead(s.jobs[s.threads[t].id], s.listed);
      s.(threads := s.threads[t := SawList(s.threads[t].id, head)])
    case WriteList(t) =>
      s.(shared := HeadWritten(s.shared, s.threads[t].id, s.threads[t].head), threads := s.threads - {t})
    case GiveUp(t) => s.(threads := s.threads - {t})
    case Acquire(index) => s.(shared := ReaderAdded(s.shared, index))
    case Release(index) =>
      s.(shared := ReaderGone(s.shared, index),
         leaving := if UnlinksOnRelease(s.shared, index) then s.leaving + multiset{index} else s.leaving)
    case UnlinkLeft(index) => s.(ready := s.ready - {index}, leaving := s.leaving - multiset{index})
    case Disk(ready, listed) => s.(ready := ready, listed := listed)
  }

  function Attach(s: State, id: nat, explicit: bool): State
    requires id in s.jobs
  {
    s.(shared := Attached(s.shared, id, s.jobs[id], explicit), last := Some(id))
  }

  ghost predicate Run(c: Config, states: seq<State>, steps: seq<Step>) {
    && |states| == |steps| + 1
    && Start(states[0])
    && forall i :: 0 <= i < |steps| ==> Enabled(c, states[i], steps[i]) && states[i + 1] == Next(c, states[i], steps[i])
  }

  // ---- one writer at a time

  /** The only job that may still be running: the current one, or the one the restart thread has in hand. */
  function Writer(s: State): Option<nat> {
    match s.phase
    case Draining(_, prior, _) => prior
    case Cleaning(_, _, _) => None
    case Condemned(_, _) => None
    case Unlinking(_, _) => None
    case Starting(_) => None
    case Started(id) => Some(id)
    case Installing(id, _) => Some(id)
    case _ => s.shared.job
  }

  predicate Between(p: Phase) {
    p.Draining? || p.Cleaning? || p.Condemned? || p.Unlinking? || p.Starting?
  }

  ghost predicate SingleWriter(s: State) {
    && (forall id: nat :: Running(s, id) ==> Writer(s) == Some(id))
    && (s.shared.job.Some? ==> s.shared.job.value in s.jobs)
    && (Between(s.phase) ==> s.shared.job == None)
    && (s.phase.Started? ==> s.phase.id in s.jobs && (s.shared.job.Some? ==> s.shared.job == Some(s.phase.id)))
    && (s.phase.Installing? ==> s.phase.id in s.jobs && s.shared.job == None)
  }

  // ---- an honest head

  /** Every index of the job below `head` has been seen ready or listed for that job. */
  ghost predicate Observed(s: State, id: nat, head: nat) {
    && id in s.jobs
    && s.jobs[id].start <= head
    && forall i :: s.jobs[id].start <= i < head ==> i in Seen(s, id)
  }

  ghost predicate HonestHead(s: State) {
    s.shared.job.Some? ==>
      var id := s.shared.job.value;
      Observed(s, id, s.shared.head) && s.shared.jobStart == s.jobs[id].start
  }

  ghost predicate HonestThread(s: State, r: Refresh) {
    match r
    case Begun(id, start, _) => id in s.jobs && start == s.jobs[id].start
    case Peeked(id, head) => Observed(s, id, head)
    case SawReady(id, head) => Observed(s, id, head + 1)
    case SawList(id, head) => Observed(s, id, head)
  }

  ghost predicate HonestThreads(s: State) {
    forall t <- s.threads :: HonestThread(s, s.threads[t])
  }

  ghost predicate Honest(s: State) {
    HonestHead(s) && HonestThreads(s)
  }

  // ---- the partial segment stays inside the job's range

  ghost predicate Within(s: State, path: Option<nat>) {
    path.Some? ==> s.last.Some? && s.last.value in s.jobs && InRange(s.jobs[s.last.value], path.value)
  }

  ghost predicate PartialOfLast(s: State) {
    Within(s, s.shared.partial) && (s.shared.job.Some? ==> s.shared.job == s.last)
  }

  ghost predicate CapturedPartial(s: State) {
    && (s.phase.Draining? || s.phase.Cleaning? ==>
          Within(s, s.phase.partial) && (s.phase.prior.Some? ==> s.phase.prior == s.last))
    && (s.phase.Condemned? || s.phase.Unlinking? ==> Within(s, Some(s.phase.index)))
  }

  ghost predicate PartialInside(s: State) {
    PartialOfLast(s) && CapturedPartial(s)
  }

  // ---- deferred unlinks

  ghost predicate PendingIsRead(s: State) {
    forall index <- s.shared.pending :: Readers(s.shared, index) > 0
  }

  // ---- coalescing

  /** The requests a job that started at `start` will get to without a restart. */
  predicate Reaches(c: Config, start: nat, k: int) {
    start <= Clamped(c, k) <= start + Gap(c)
  }

  /** The job about to be killed for request `k`, or being killed, is not one that reaches it. */
  ghost predicate KillIsNeeded(c: Config, s: State) {
    && (s.phase.Decided? ==> forall id: nat :: Running(s, id) ==> !Reaches(c, s.jobs[id].start, s.phase.k))
    && (s.phase.Draining? ==> forall id: nat :: Running(s, id) ==> !Reaches(c, s.jobs[id].start, s.phase.k))
  }

  // ---- steps keep the invariants

  lemma StepKeepsSingleWriter(c: Config, s: State, e: Step)
    requires SingleWriter(s) && Enabled(c, s, e)
    ensures SingleWriter(Next(c, s, e))
  {
    var t := Next(c, s, e);
    forall other: nat | Running(t, other) && !(e.StartJob? && e.id == other)
      ensures Running(s, other)
    {}
  }

  lemma ObservedKept(s: State, t: State, id: nat, head: nat)
    requires Observed(s, id, head)
    requires id in t.jobs && t.jobs[id].start == s.jobs[id].start && Seen(s, id) <= Seen(t, id)
    ensures Observed(t, id, head)
  {}

  /** Jobs keep their start and observations accumulate. */
  ghost predicate Grows(s: State, t: State) {
    forall id <- s.jobs :: id in t.jobs && t.jobs[id].start == s.jobs[id].start && Seen(s, id) <= Seen(t, id)
  }

  lemma JobsKeepRange(c: Config, s: State, e: Step)
    requires Enabled(c, s, e)
    ensures var t := Next(c, s, e);
      forall id <- s.jobs :: id in t.jobs && t.jobs[id].start == s.jobs[id].start && t.jobs[id].stop == s.jobs[id].stop
  {}

  lemma SeenGrows(c: Config, s: State, e: Step, id: nat)
    requires Enabled(c, s, e)
    ensures Seen(s, id) <= Seen(Next(c, s, e), id)
  {
    assert Next(c, s, e).seen == SeenAfter(s, e);
  }

  lemma StepGrows(c: Config, s: State, e: Step)
    requires Enabled(c, s, e)
    ensures Grows(s, Next(c, s, e))
  {
    var t := Next(c, s, e);
    JobsKeepRange(c, s, e);
    forall id <- s.jobs
      ensures Seen(s, id) <= Seen(t, id)
    {
      SeenGrows(c, s, e, id);
    }
  }

  lemma ThreadKept(s: State, t: State, r: Refresh)
    requires HonestThread(s, r) && Grows(s, t)
    ensures HonestThread(t, r)
  {}

  /** A head read or written by a refresh is one the refresh, or the state it read, had observed. */
  lemma StepKeepsHonestHead(c: Config, s: State, e: Step)
    requires Honest(s) && SingleWriter(s) && Enabled(c, s, e)
    ensures HonestHead(Next(c, s, e))
  {
    var t := Next(c, s, e);
    StepGrows(c, s, e);
    if s.shared.job.Some? {
      ObservedKept(s, t, s.shared.job.value, s.shared.head);
    }
    match e
    case Write(n) =>
      ThreadKept(s, t, s.threads[n]);
    case WriteList(n) =>
      ThreadKept(s, t, s.threads[n]);
    case _ =>
  }

  /** The refresh a step moves, if any. */
  function Mover(e: Step): Option<nat> {
    match e
    case Begin(t) => Some(t)
    case Peek(t) => Some(t)
    case Check(t) => Some(t)
    case Write(t) => Some(t)
    case ReadList(t) => Some(t)
    case _ => None
  }

  lemma OthersUnmoved(c: Config, s: State, e: Step, n: nat)
    requires Enabled(c, s, e) && n in Next(c, s, e).threads && Mover(e) != Some(n)
    ensures n in s.threads && Next(c, s, e).threads[n] == s.threads[n]
  {}

  lemma MoverIsHonest(c: Config, s: State, e: Step)
    requires Honest(s) && SingleWriter(s) && Enabled(c, s, e) && Mover(e).Some?
    ensures var t := Next(c, s, e);
      Mover(e).value in t.threads && HonestThread(t, t.threads[Mover(e).value])
  {
    var t := Next(c, s, e);
    StepGrows(c, s, e);
    match e
    case Peek(n) => ObservedKept(s, t, s.threads[n].id, s.shared.head);
    case Check(n) => ObservedKept(s, t, s.threads[n].id, s.threads[n].head);
    case _ =>
  }

  lemma StepKeepsHonestThreads(c: Config, s: State, e: Step)
    requires Honest(s) && SingleWriter(s) && Enabled(c, s, e)
    ensures HonestThreads(Next(c, s, e))
  {
    var t := Next(c, s, e);
    StepGrows(c, s, e);
    forall n <- t.threads
      ensures HonestThread(t, t.threads[n])
    {
      if Mover(e) == Some(n) {
        MoverIsHonest(c, s, e);
      } else {
        OthersUnmoved(c, s, e, n);
        ThreadKept(s, t, s.threads[n]);
      }
    }
  }

  lemma WithinKept(s: State, t: State, path: Option<nat>)
    requires Within(s, path) && t.last == s.last
    requires forall id <- s.jobs :: id in t.jobs && t.jobs[id].start == s.jobs[id].start && t.jobs[id].stop == s.jobs[id].stop
    ensures Within(t, path)
  {}

  predicate Attaches(e: Step) {
    e.HostInstall? || e.Install?
  }

  lemma StepKeepsPartialOfLast(c: Config, s: State, e: Step)
    requires PartialOfLast(s) && HonestHead(s) && SingleWriter(s) && Enabled(c, s, e)
    ensures PartialOfLast(Next(c, s, e))
  {
    if !Attaches(e) && !e.WatchPartial? {
      JobsKeepRange(c, s, e);
      PartialUnmoved(c, s, e);
      WithinKept(s, Next(c, s, e), s.shared.partial);
    }
  }

  lemma PartialUnmoved(c: Config, s: State, e: Step)
    requires Enabled(c, s, e) && !Attaches(e) && !e.WatchPartial?
    ensures var t := Next(c, s, e);
      t.shared.partial == s.shared.partial && t.last == s.last && (t.shared.job.Some? ==> t.shared.job == s.shared.job)
  {}

  lemma StepKeepsCapturedPartial(c: Config, s: State, e: Step)
    requires PartialInside(s) && Enabled(c, s, e)
    ensures CapturedPartial(Next(c, s, e))
  {
    JobsKeepRange(c, s, e);
    CapturedMoves(c, s, e);
    CondemnedMoves(c, s, e);
  }

  /** What a phase carries it was handed by the phase before, or took from the shared state; and no job is attached. */
  lemma CapturedMoves(c: Config, s: State, e: Step)
    requires Enabled(c, s, e)
    ensures var t := Next(c, s, e);
      && (t.phase.Draining? || t.phase.Cleaning? ==> t.last == s.last)
      && (t.phase.Draining? || t.phase.Cleaning? ==>
            || (e.Snapshot? && t.phase.partial == s.shared.partial && t.phase.prior == s.shared.job)
            || ((s.phase.Draining? || s.phase.Cleaning?)
                && t.phase.partial == s.phase.partial && t.phase.prior == s.phase.prior))
  {}

  lemma CondemnedMoves(c: Config, s: State, e: Step)
    requires Enabled(c, s, e)
    ensures var t := Next(c, s, e);
      && (t.phase.Condemned? || t.phase.Unlinking? ==> t.last == s.last)
      && (t.phase.Condemned? || t.phase.Unlinking? ==>
            || (s.phase.Cleaning? && s.phase.partial == Some(t.phase.index))
            || ((s.phase.Condemned? || s.phase.Unlinking?) && t.phase.index == s.phase.index))
  {}

  lemma StepKeepsPendingRead(c: Config, s: State, e: Step)
    requires PendingIsRead(s) && Enabled(c, s, e)
    ensures PendingIsRead(Next(c, s, e))
  {}

  /** A fresh decision to restart means the current job does not reach the request. */
  lemma RestartMeansOutOfReach(c: Config, s: State)
    requires SingleWriter(s) && HonestHead(s) && s.phase.Locked?
    requires Decide(c, View(s.shared, CurrentRuns(s)), s.phase.k, false) == Restart
    ensures forall id: nat :: Running(s, id) ==> !Reaches(c, s.jobs[id].start, s.phase.k)
  {
    forall id: nat | Running(s, id)
      ensures !Reaches(c, s.jobs[id].start, s.phase.k)
    {
      assert s.shared.job == Some(id);
      if Reaches(c, s.jobs[id].start, s.phase.k) {
        NearStartWaits(c, View(s.shared, CurrentRuns(s)), s.phase.k);
      }
    }
  }

  /**
    * A request that holds the restart lock goes on to restart exactly when no current job runs, the request is before its
    * start or beyond the window ahead of its head; otherwise it lets go of the lock and waits.
    */
  lemma RedecideRestartsIff(c: Config, s: State)
    requires Enabled(c, s, Redecide)
    ensures var k, head := s.phase.k, s.shared.head;
      var target := if c.count > 0 && k >= c.count then c.count - 1 else k;
      Next(c, s, Redecide).phase ==
      if CurrentRuns(s) && s.shared.jobStart <= target && InWindow(c.segmentSec, c.gapSec, target - head) then Free else Decided(k)
  {
    DecideIff(c, View(s.shared, CurrentRuns(s)), s.phase.k, false);
  }

  /** The step a restart takes next, when it waits for nothing but itself. */
  ghost predicate Proceeds(c: Config, s: State, e: Step) {
    Enabled(c, s, e) && Next(c, s, e).phase != s.phase
    && (e.Redecide? || e.Snapshot? || e.Drained? || e.Spare? || e.Condemn? || e.Judge? || e.Unlink? || e.StartFails?
        || e.CheckInstall? || e.Install?)
  }

  /**
    * A restart is never stuck: in every state of every run whoever holds the restart lock has a step to take, unless it
    * waits for the job it has cancelled, which can end.
    */
  lemma RestartGoesOn(c: Config, states: seq<State>, steps: seq<Step>, i: nat)
    requires Run(c, states, steps) && i < |states| && !states[i].phase.Free?
    ensures var s := states[i];
      if s.phase.Draining? && s.phase.prior.Some? && Running(s, s.phase.prior.value) then Enabled(c, s, Finish(s.phase.prior.value))
      else exists e :: Proceeds(c, s, e)
  {
    var s := states[i];
    RunHolds(c, states, steps, i);
    if !(s.phase.Draining? && s.phase.prior.Some? && Running(s, s.phase.prior.value)) {
      RestartStep(c, s);
    }
  }

  lemma RestartStep(c: Config, s: State)
    requires SingleWriter(s) && !s.phase.Free?
    requires !(s.phase.Draining? && s.phase.prior.Some? && Running(s, s.phase.prior.value))
    ensures exists e :: Proceeds(c, s, e)
  {
    match s.phase
    case Locked(_) => assert Proceeds(c, s, Redecide);
    case Decided(_) => assert Proceeds(c, s, Snapshot);
    case Draining(_, _, _) => assert Proceeds(c, s, Drained);
    case Cleaning(_, prior, partial) =>
      if partial.Some? && Doomed(s.shared.explicit, Known(s, prior), partial.value, s.ready, s.listed) {
        assert Proceeds(c, s, Condemn);
      } else {
        assert Proceeds(c, s, Spare);
      }
    case Condemned(_, _) => assert Proceeds(c, s, Judge);
    case Unlinking(_, _) => assert Proceeds(c, s, Unlink);
    case Starting(_) => assert Proceeds(c, s, StartFails);
    case Started(_) => assert Proceeds(c, s, CheckInstall);
    case Installing(_, _) => assert Proceeds(c, s, Install);
  }

  lemma StepKeepsKillNeeded(c: Config, s: State, e: Step)
    requires KillIsNeeded(c, s) && HonestHead(s) && SingleWriter(s) && Enabled(c, s, e)
    ensures KillIsNeeded(c, Next(c, s, e))
  {
    var t := Next(c, s, e);
    if e.Redecide? && t.phase.Decided? {
      RestartMeansOutOfReach(c, s);
    }
    forall id: nat | Running(t, id) && !e.StartJob?
      ensures Running(s, id) && t.jobs[id] == s.jobs[id]
    {}
  }

  // ---- whole runs

  ghost predicate Invariant(c: Config, s: State) {
    SingleWriter(s) && Honest(s) && PartialInside(s) && PendingIsRead(s) && KillIsNeeded(c, s)
  }

  lemma StartHolds(c: Config, s: State)
    requires Start(s)
    ensures Invariant(c, s)
  {}

  lemma StepHolds(c: Config, s: State, e: Step)
    requires Invariant(c, s) && Enabled(c, s, e)
    ensures Invariant(c, Next(c, s, e))
  {
    StepKeepsSingleWriter(c, s, e);
    StepKeepsHonestHead(c, s, e);
    StepKeepsHonestThreads(c, s, e);
    StepKeepsPartialOfLast(c, s, e);
    StepKeepsCapturedPartial(c, s, e);
    StepKeepsPendingRead(c, s, e);
    StepKeepsKillNeeded(c, s, e);
  }

  lemma {:induction false} RunHolds(c: Config, states: seq<State>, steps: seq<Step>, i: nat)
    requires Run(c, states, steps) && i < |states|
    ensures Invariant(c, states[i])
    decreases i
  {
    if i == 0 {
      StartHolds(c, states[0]);
    } else {
      RunHolds(c, states, steps, i - 1);
      StepHolds(c, states[i - 1], steps[i - 1]);
    }
  }

  /**
    * Single writer: in every interleaving at most one job runs, and whenever a job is started every job started before
    * it has ended.
    */
  lemma AtMostOneJobRuns(c: Config, states: seq<State>, steps: seq<Step>, i: nat)
    requires Run(c, states, steps) && i < |states|
    ensures forall a: nat, b: nat :: Running(states[i], a) && Running(states[i], b) ==> a == b
    ensures i < |steps| && steps[i].StartJob? ==> forall id: nat :: !Running(states[i], id)
  {
    RunHolds(c, states, steps, i);
  }

  /** The session cut explicitly, or not, in every state up to position `i`. */
  ghost predicate InMode(states: seq<State>, i: nat, mode: Option<bool>) {
    mode.Some? ==> forall j: nat :: j <= i && j < |states| ==> states[j].shared.explicit == mode.value
  }

  /** Every refresh under way looks at what its mode looks at. */
  ghost predicate ThreadsInMode(s: State, mode: Option<bool>) {
    mode.Some? ==> forall t <- s.threads :: ThreadInMode(s.threads[t], mode.value)
  }

  ghost predicate ThreadInMode(r: Refresh, explicit: bool) {
    match r
    case Begun(_, _, e) => e == explicit
    case SawList(_, _) => explicit
    case _ => !explicit
  }

  lemma MoverInMode(c: Config, s: State, e: Step, explicit: bool)
    requires ThreadsInMode(s, Some(explicit)) && Enabled(c, s, e) && s.shared.explicit == explicit && Mover(e).Some?
    ensures var t := Next(c, s, e);
      Mover(e).value in t.threads && ThreadInMode(t.threads[Mover(e).value], explicit)
  {}

  lemma StepKeepsMode(c: Config, s: State, e: Step, mode: Option<bool>)
    requires ThreadsInMode(s, mode) && Enabled(c, s, e) && (mode.Some? ==> s.shared.explicit == mode.value)
    ensures ThreadsInMode(Next(c, s, e), mode)
  {
    if mode.Some? {
      forall n <- Next(c, s, e).threads
        ensures ThreadInMode(Next(c, s, e).threads[n], mode.value)
      {
        if Mover(e) == Some(n) {
          MoverInMode(c, s, e, mode.value);
        } else {
          OthersUnmoved(c, s, e, n);
        }
      }
    }
  }

  lemma {:induction false} RunKeepsMode(c: Config, states: seq<State>, steps: seq<Step>, i: nat, mode: Option<bool>)
    requires Run(c, states, steps) && i < |states| && InMode(states, i, mode)
    ensures ThreadsInMode(states[i], mode)
    decreases i
  {
    if i > 0 {
      RunKeepsMode(c, states, steps, i - 1, mode);
      StepKeepsMode(c, states[i - 1], steps[i - 1], mode);
    }
  }

  /** What a step adds to a job's observations is finished as the step is taken, and the job is there. */
  lemma SeenIsFresh(c: Config, s: State, e: Step, id: nat, mode: Option<bool>, index: nat)
    requires Enabled(c, s, e) && HonestThreads(s) && ThreadsInMode(s, mode)
    requires index in Seen(Next(c, s, e), id) && index !in Seen(s, id)
    ensures id in s.jobs && Finished(s, mode, index)
  {
    if !e.Check? && !e.ReadList? {
      SeenKept(c, s, e);
    }
  }

  lemma SeenKept(c: Config, s: State, e: Step)
    requires Enabled(c, s, e) && !e.Check? && !e.ReadList?
    ensures Next(c, s, e).seen == s.seen
  {}

  lemma {:induction false} SeenWasThere(c: Config, states: seq<State>, steps: seq<Step>, i: nat, id: nat,
                                        mode: Option<bool>, index: nat)
    requires Run(c, states, steps) && i < |states| && InMode(states, i, mode) && index in Seen(states[i], id)
    ensures SeenBefore(states, i, id, mode, index)
    decreases i
  {
    if i > 0 {
      var s := states[i - 1];
      if index in Seen(s, id) {
        SeenWasThere(c, states, steps, i - 1, id, mode, index);
        var m: nat :| m < i - 1 && id in states[m].jobs && Finished(states[m], mode, index);
        assert m < i;
      } else {
        RunHolds(c, states, steps, i - 1);
        RunKeepsMode(c, states, steps, i - 1, mode);
        SeenIsFresh(c, s, steps[i - 1], id, mode, index);
      }
    }
  }

  /**
    * Honest head: while a job is current the head is never before its start, and every index from its start up to the
    * head was finished at an earlier moment at which this very job was there. In a session that always cuts explicitly
    * finished means listed, in one that never does it means ready; otherwise one of the two.
    */
  lemma HeadIsHonest(c: Config, states: seq<State>, steps: seq<Step>, i: nat, mode: Option<bool>)
    requires Run(c, states, steps) && i < |states| && states[i].shared.job.Some? && InMode(states, i, mode)
    ensures var s := states[i];
      && s.shared.job.value in s.jobs
      && s.shared.jobStart == s.jobs[s.shared.job.value].start
      && s.shared.jobStart <= s.shared.head
      && forall index :: s.shared.jobStart <= index < s.shared.head ==>
           SeenBefore(states, i, s.shared.job.value, mode, index)
  {
    RunHolds(c, states, steps, i);
    var s := states[i];
    forall index | s.shared.jobStart <= index < s.shared.head
      ensures SeenBefore(states, i, s.shared.job.value, mode, index)
    {
      SeenWasThere(c, states, steps, i, s.shared.job.value, mode, index);
    }
  }

  /**
    * Restart coalescing: a request within the gap after the start of a running job never becomes a restart, whatever
    * was decided before the restart lock was taken; and no such job is ever the one being killed.
    */
  lemma NearRequestsDoNotRestart(c: Config, states: seq<State>, steps: seq<Step>, i: nat, id: nat)
    requires Run(c, states, steps) && i < |states| && Running(states[i], id)
    ensures states[i].phase.Decided? || states[i].phase.Draining? ==>
              !Reaches(c, states[i].jobs[id].start, states[i].phase.k)
  {
    RunHolds(c, states, steps, i);
  }

  /**
    * The hand-off segment survives a kill: the index a restart removes lies in the range of the last job, so it is
    * before that job's hand-off bound, and it is neither listed nor, without explicit cuts, ready when condemned.
    */
  lemma KillSparesHandOff(c: Config, states: seq<State>, steps: seq<Step>, i: nat)
    requires Run(c, states, steps) && i < |states| && (states[i].phase.Condemned? || states[i].phase.Unlinking?)
    ensures var s := states[i];
      && s.last.Some? && s.last.value in s.jobs
      && InRange(s.jobs[s.last.value], s.phase.index)
      && (Bounded(s.jobs[s.last.value]) ==> s.phase.index != s.jobs[s.last.value].stop)
  {
    RunHolds(c, states, steps, i);
  }

  lemma CondemnedIsDoomed(c: Config, s: State)
    requires Enabled(c, s, Condemn)
    ensures var index := Next(c, s, Condemn).phase.index;
      && (s.shared.explicit ==> index !in s.listed)
      && (!s.shared.explicit ==> index !in s.ready)
  {}

  // ---- unlinks and readers

  /** An unlink of the index has been decided and not yet carried out: the lock is free, the file still there. */
  ghost predicate InFlight(s: State, index: nat) {
    (s.phase.Unlinking? && s.phase.index == index) || index in s.leaving
  }

  /** The locked region that decides an unlink: a restart that counts no reader, or the last reader leaving. */
  ghost predicate DecidesUnlink(s: State, e: Step, index: nat) {
    || (e.Judge? && s.phase.Condemned? && s.phase.index == index && Readers(s.shared, index) == 0)
    || (e == Release(index) && UnlinksOnRelease(s.shared, index))
  }

  /** The removal itself, outside the lock. */
  ghost predicate CarriesOut(s: State, e: Step, index: nat) {
    (e.Unlink? && s.phase.Unlinking? && s.phase.index == index) || e == UnlinkLeft(index)
  }

  /** A decision is taken while nobody reads. */
  lemma DecidedUnread(c: Config, s: State, e: Step, index: nat)
    requires Enabled(c, s, e) && DecidesUnlink(s, e, index)
    ensures Readers(Next(c, s, e).shared, index) == 0 && InFlight(Next(c, s, e), index)
  {}

  /** Nothing but a decision puts an unlink in flight. */
  lemma InFlightByDecision(c: Config, s: State, e: Step, index: nat)
    requires Enabled(c, s, e) && InFlight(Next(c, s, e), index)
    ensures InFlight(s, index) || DecidesUnlink(s, e, index)
  {
    if index in Next(c, s, e).leaving {
      LeavingByDecision(c, s, e, index);
    } else {
      UnlinkingByDecision(c, s, e, index);
    }
  }

  lemma LeavingByDecision(c: Config, s: State, e: Step, index: nat)
    requires Enabled(c, s, e) && index in Next(c, s, e).leaving
    ensures index in s.leaving || DecidesUnlink(s, e, index)
  {}

  lemma UnlinkingByDecision(c: Config, s: State, e: Step, index: nat)
    requires Enabled(c, s, e) && Next(c, s, e).phase.Unlinking? && Next(c, s, e).phase.index == index
    ensures (s.phase.Unlinking? && s.phase.index == index) || DecidesUnlink(s, e, index)
  {}

  /** But for the disk's own changes, a ready segment goes in exactly the steps that carry out an unlink of it. */
  lemma RemovedByUnlink(c: Config, s: State, e: Step, index: nat)
    requires Enabled(c, s, e) && !e.Disk?
    ensures index in Next(c, s, e).ready <==> index in s.ready && !CarriesOut(s, e, index)
    ensures CarriesOut(s, e, index) ==> InFlight(s, index)
  {}

  ghost predicate DecidedBefore(states: seq<State>, steps: seq<Step>, i: nat, index: nat)
    requires i <= |steps| && |states| == |steps| + 1
  {
    exists j: nat :: j < i && DecidesUnlink(states[j], steps[j], index) && Readers(states[j + 1].shared, index) == 0
  }

  /** Behind every unlink in flight there is a decision taken earlier, while the index had no reader. */
  lemma {:induction false} InFlightWasDecided(c: Config, states: seq<State>, steps: seq<Step>, i: nat, index: nat)
    requires Run(c, states, steps) && i <= |steps| && InFlight(states[i], index)
    ensures DecidedBefore(states, steps, i, index)
    decreases i
  {
    if i > 0 {
      InFlightByDecision(c, states[i - 1], steps[i - 1], index);
      if InFlight(states[i - 1], index) {
        InFlightWasDecided(c, states, steps, i - 1, index);
        var j: nat :| j < i - 1 && DecidesUnlink(states[j], steps[j], index) && Readers(states[j + 1].shared, index) == 0;
        assert j < i;
      } else {
        DecidedUnread(c, states[i - 1], steps[i - 1], index);
      }
    }
  }

  /** Between two moments of a run the index has a reader throughout, and the disk does not change on its own. */
  ghost predicate ReadThroughout(states: seq<State>, steps: seq<Step>, a: nat, b: nat, index: nat)
    requires a <= b <= |steps| && |states| == |steps| + 1
  {
    && (forall j: nat :: a <= j <= b ==> Readers(states[j].shared, index) > 0)
    && (forall j: nat :: a <= j < b ==> !steps[j].Disk?)
  }

  ghost predicate CarriedOut(states: seq<State>, steps: seq<Step>, a: nat, b: nat, index: nat)
    requires a <= b <= |steps| && |states| == |steps| + 1
  {
    exists m: nat :: a <= m < b && CarriesOut(states[m], steps[m], index)
  }

  /** What a step can do to a segment that has a reader after it. */
  ghost predicate ReadStep(s: State, e: Step, t: State, index: nat) {
    && (index in t.ready <==> index in s.ready && !CarriesOut(s, e, index))
    && (InFlight(t, index) || CarriesOut(s, e, index) ==> InFlight(s, index))
  }

  lemma StepIsReadStep(c: Config, s: State, e: Step, index: nat)
    requires Enabled(c, s, e) && !e.Disk? && Readers(Next(c, s, e).shared, index) > 0
    ensures ReadStep(s, e, Next(c, s, e), index)
  {
    RemovedByUnlink(c, s, e, index);
    if InFlight(Next(c, s, e), index) {
      InFlightByDecision(c, s, e, index);
      if DecidesUnlink(s, e, index) {
        DecidedUnread(c, s, e, index);
      }
    }
  }

  ghost predicate ReadSteps(states: seq<State>, steps: seq<Step>, a: nat, b: nat, index: nat)
    requires a <= b <= |steps| && |states| == |steps| + 1
  {
    forall j: nat :: a <= j < b ==> ReadStep(states[j], steps[j], states[j + 1], index)
  }

  lemma RunReadSteps(c: Config, states: seq<State>, steps: seq<Step>, a: nat, b: nat, index: nat)
    requires Run(c, states, steps) && a <= b <= |steps| && ReadThroughout(states, steps, a, b, index)
    ensures ReadSteps(states, steps, a, b, index)
  {
    forall j: nat | a <= j < b
      ensures ReadStep(states[j], steps[j], states[j + 1], index)
    {
      assert states[j + 1] == Next(c, states[j], steps[j]) && Readers(states[j + 1].shared, index) > 0;
      StepIsReadStep(c, states[j], steps[j], index);
    }
  }

  lemma {:induction false} RemovedIffCarriedOut(states: seq<State>, steps: seq<Step>, a: nat, b: nat, index: nat)
    requires a <= b <= |steps| && |states| == |steps| + 1 && index in states[a].ready
    requires ReadSteps(states, steps, a, b, index)
    ensures index !in states[b].ready <==> CarriedOut(states, steps, a, b, index)
    ensures InFlight(states[b], index) || CarriedOut(states, steps, a, b, index) ==> InFlight(states[a], index)
    decreases b
  {
    if a < b {
      RemovedIffCarriedOut(states, steps, a, b - 1, index);
      assert ReadStep(states[b - 1], steps[b - 1], states[b - 1 + 1], index);
      CarriedOutStep(states, steps, a, b, index);
    }
  }

  lemma CarriedOutStep(states: seq<State>, steps: seq<Step>, a: nat, b: nat, index: nat)
    requires a < b <= |steps| && |states| == |steps| + 1
    ensures CarriedOut(states, steps, a, b, index)
       <==> CarriedOut(states, steps, a, b - 1, index) || CarriesOut(states[b - 1], steps[b - 1], index)
  {
    if CarriedOut(states, steps, a, b - 1, index) {
      var m: nat :| a <= m < b - 1 && CarriesOut(states[m], steps[m], index);
      assert m < b;
    }
  }

  /**
    * Readers and unlinks: a ready segment that is read throughout is removed by the session if and only if an unlink of
    * it is carried out meanwhile, and that unlink was decided before, while the segment had no reader. A segment with a
    * reader and no such decision behind it stays; and every deferred unlink has a reader to carry it out.
    */
  lemma ReadersKeepSegments(c: Config, states: seq<State>, steps: seq<Step>, a: nat, b: nat, index: nat)
    requires Run(c, states, steps) && a <= b <= |steps| && index in states[a].ready
    requires ReadThroughout(states, steps, a, b, index)
    ensures index !in states[b].ready <==>
            CarriedOut(states, steps, a, b, index) && InFlight(states[a], index) && DecidedBefore(states, steps, a, index)
    ensures !InFlight(states[a], index) ==> index in states[b].ready
    ensures forall p <- states[a].shared.pending :: Readers(states[a].shared, p) > 0
  {
    RunHolds(c, states, steps, a);
    RunReadSteps(c, states, steps, a, b, index);
    RemovedIffCarriedOut(states, steps, a, b, index);
    if InFlight(states[a], index) {
      InFlightWasDecided(c, states, steps, a, index);
    }
  }

  /** A reader counted before the restart's locked region keeps the file: the unlink is deferred to its release. */
  lemma CountedReaderDefers(c: Config, s: State)
    requires Enabled(c, s, Judge) && Readers(s.shared, s.phase.index) > 0
    ensures var t := Next(c, s, Judge);
      t.ready == s.ready && s.phase.index in t.shared.pending && t.leaving == s.leaving && !t.phase.Unlinking?
  {}

  // ---- what is always possible

  /** Whatever the others do: views, readers and the disk are never kept waiting, nor is a job's end or a refresh's. */
  lemma NobodyElseWaits(c: Config, s: State, index: nat, ready: set<nat>, listed: set<nat>)
    ensures Enabled(c, s, ViewClear) && Enabled(c, s, Acquire(index)) && Enabled(c, s, Release(index))
    ensures Enabled(c, s, Disk(ready, listed))
    ensures index in s.jobs ==> Enabled(c, s, Finish(index)) && Enabled(c, s, WatchPartial(index))
    ensures index in s.jobs && !s.jobs[index].running ==> Enabled(c, s, WatchClear(index))
    ensures index in s.threads ==> Enabled(c, s, GiveUp(index))
    ensures index !in s.threads && s.shared.job.Some? && s.shared.job.value in s.jobs ==> Enabled(c, s, Begin(index))
  {}

  /** A refresh that gives up is gone, and has changed nothing. */
  lemma GivenUp(c: Config, s: State, t: nat)
    requires t in s.threads
    ensures var after := Next(c, s, GiveUp(t));
      t !in after.threads && after.shared == s.shared && after.ready == s.ready && after.seen == s.seen
  {}

  /** Nothing between its steps, a refresh of the current job takes the head over a ready segment, and goes on. */
  lemma RefreshPassesReady(c: Config, s: State, t: nat)
    requires t in s.threads && s.threads[t].Begun? && !s.threads[t].explicit
    requires s.shared.job == Some(s.threads[t].id) && s.threads[t].id in s.jobs && s.shared.head in s.ready
    ensures Enabled(c, s, Peek(t))
    ensures var peeked := Next(c, s, Peek(t));
      && Enabled(c, peeked, Check(t))
      && var checked := Next(c, peeked, Check(t));
      && Enabled(c, checked, Write(t))
      && var written := Next(c, checked, Write(t));
         && written.shared == s.shared.(head := s.shared.head + 1)
         && t in written.threads && written.threads[t].Begun? && written.threads[t].id == s.threads[t].id
  {}

  /** A refresh of a job that keeps a list takes the head to the end of its listed run, and is done. */
  lemma RefreshReadsList(c: Config, s: State, t: nat)
    requires t in s.threads && s.threads[t].Begun? && s.threads[t].explicit
    requires s.shared.job == Some(s.threads[t].id) && s.threads[t].id in s.jobs
    ensures Enabled(c, s, ReadList(t))
    ensures var seen := Next(c, s, ReadList(t));
      && Enabled(c, seen, WriteList(t))
      && var written := Next(c, seen, WriteList(t));
         && written.shared == s.shared.(head := ExplicitHead(s.jobs[s.threads[t].id], s.listed))
         && t !in written.threads
  {}
}
