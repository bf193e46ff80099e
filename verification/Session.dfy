/** The shared state of an on-demand session and its critical sections, one function per locked region. */
module Session {
  import opened Wrappers
  import opened Decision

  /** An encode job: it writes from `start`, and stops before `stop` when `stop` is above `start`. */
  datatype Job = Job(start: nat, stop: int, running: bool)

  predicate Bounded(job: Job) {
    job.stop > job.start
  }

  /** Whether index `i` is one the job may write. */
  predicate InRange(job: Job, i: nat) {
    job.start <= i && (Bounded(job) ==> i < job.stop)
  }

  /** The segment being written at `head`, or none once the job is at its hand-off bound. */
  function PartialAt(job: Job, head: nat): Option<nat> {
    if Bounded(job) && head >= job.stop then None else Some(head)
  }

  datatype Shared = Shared(
    job: Option<nat>,
    jobStart: nat,
    head: nat,
    explicit: bool,
    partial: Option<nat>,
    readers: map<nat, nat>,
    pending: set<nat>,
    restarting: bool)

  function Fresh(explicit: bool): Shared {
    Shared(None, 0, 0, explicit, None, map[], {}, false)
  }

  function Readers(s: Shared, index: nat): nat {
    if index in s.readers then s.readers[index] else 0
  }

  // ---- critical sections

  function Attached(s: Shared, id: nat, job: Job, explicit: bool): Shared {
    s.(job := Some(id), jobStart := job.start, head := job.start, explicit := explicit, partial := PartialAt(job, job.start))
  }

  function ClearedIf(s: Shared, id: nat): Shared {
    if s.job == Some(id) then s.(job := None) else s
  }

  function PartialTracked(s: Shared, id: nat, job: Job): Shared {
    if s.job == Some(id) then s.(partial := PartialAt(job, s.head)) else s
  }

  function HeadWritten(s: Shared, id: nat, head: nat): Shared {
    if s.job == Some(id) then s.(head := head) else s
  }

  /** What a view does to the state: a dead job is dropped. */
  function Viewed(s: Shared, running: bool): Shared {
    if s.job.Some? && !running then s.(job := None) else s
  }

  function View(s: Shared, running: bool): JobView {
    if s.job.Some? && running then JobView(true, s.jobStart, s.head) else JobView(false, 0, s.head)
  }

  function JobTaken(s: Shared): Shared {
    s.(job := None)
  }

  function ReaderAdded(s: Shared, index: nat): Shared {
    s.(readers := s.readers[index := Readers(s, index) + 1])
  }

  /** The state after one reader leaves; the count goes with the last one, and so does a deferred unlink. */
  function ReaderGone(s: Shared, index: nat): Shared {
    if Readers(s, index) <= 1 then s.(readers := s.readers - {index}, pending := s.pending - {index})
    else s.(readers := s.readers[index := Readers(s, index) - 1])
  }

  /** Whether the leaving reader must carry out a deferred unlink, once it has let go of the lock. */
  predicate UnlinksOnRelease(s: Shared, index: nat) {
    Readers(s, index) <= 1 && index in s.pending
  }

  /** One more reader of that path, and nothing else changes. */
  lemma ReaderComes(s: Shared, index: nat)
    ensures var t := ReaderAdded(s, index);
      && t == s.(readers := t.readers)
      && forall i: nat :: Readers(t, i) == Readers(s, i) + if i == index then 1 else 0
  {}

  /** One reader less of that path, but not fewer than none; its unlink is no longer put off once nobody reads it. */
  lemma ReaderLeaves(s: Shared, index: nat)
    ensures var t := ReaderGone(s, index);
      && t == s.(readers := t.readers, pending := t.pending)
      && (forall i: nat :: Readers(t, i) == if i == index && Readers(s, i) > 0 then Readers(s, i) - 1 else Readers(s, i))
      && (forall i: nat :: i in t.pending <==> i in s.pending && (i != index || Readers(t, i) > 0))
      && (UnlinksOnRelease(s, index) <==> index in s.pending && index !in t.pending)
  {}

  /** A view of a session whose job is dead or gone: no job, start 0, and the last head. */
  lemma ViewOfNone(s: Shared, running: bool)
    requires s.job == None || !running
    ensures View(s, running) == JobView(false, 0, s.head)
  {}

  /** The segment a job is writing at a head: none once the head is at the job's hand-off bound. */
  lemma PartialIs(job: Job, head: nat)
    ensures PartialAt(job, head) == if job.stop > job.start && head >= job.stop then None else Some(head)
  {}

  /** Only the job named is dropped, and only for that job does the partial segment follow the head. */
  lemma OnlyThatJob(s: Shared, id: nat, job: Job)
    ensures s.job == Some(id) ==> ClearedIf(s, id) == s.(job := None)
    ensures s.job == Some(id) ==> PartialTracked(s, id, job) == s.(partial := PartialAt(job, s.head))
    ensures s.job != Some(id) ==> ClearedIf(s, id) == s && PartialTracked(s, id, job) == s
  {}

  /** The smallest index from `start` on that is not listed. */
  function ListHead(listed: set<nat>, start: nat): (head: nat)
    ensures start <= head && head !in listed
    ensures forall i :: start <= i < head ==> i in listed
    decreases |set i <- listed | i >= start|
  {
    if start !in listed then start
    else
      assert (set i <- listed | i >= start + 1) == (set i <- listed | i >= start) - {start};
      ListHead(listed, start + 1)
  }

  /** The head an explicit-cut job is given from the list: no further than its hand-off bound. */
  function ExplicitHead(job: Job, listed: set<nat>): (head: nat)
    ensures job.start <= head
    ensures forall i :: job.start <= i < head ==> i in listed
  {
    var head := ListHead(listed, job.start);
    if Bounded(job) && head > job.stop then job.stop else head
  }

  /** The head taken from the list is its first gap, or the hand-off bound when that comes first. */
  lemma ExplicitHeadIs(job: Job, listed: set<nat>)
    ensures var h := ExplicitHead(job, listed);
      && (job.stop > job.start ==> h <= job.stop)
      && (h !in listed || (job.stop > job.start && h == job.stop))
  {}

  method SegmentListHead(listed: set<nat>, start: nat) returns (head: nat)
    ensures head == ListHead(listed, start)
  {
    head := start;
    while head in listed
      invariant start <= head
      invariant ListHead(listed, head) == ListHead(listed, start)
      decreases |set i <- listed | i >= head|
    {
      assert (set i <- listed | i >= head + 1) == (set i <- listed | i >= head) - {head};
      head := head + 1;
    }
  }

  /**
    * Whether killing a job dooms the partial segment `index`. Explicit-cut jobs keep a listed segment, and a ready one
    * at or past the hand-off bound; other jobs keep any ready one.
    */
  predicate Doomed(explicit: bool, killed: Option<Job>, index: nat, ready: set<nat>, listed: set<nat>) {
    if explicit then
      && index !in listed
      && !(index in ready && killed.Some? && Bounded(killed.value) && index >= killed.value.stop)
    else index !in ready
  }

  /**
    * What a kill keeps. In an explicit-cut session: a listed segment, and a ready one at or after the hand-off bound of the
    * job killed, for it is somebody else's. In the others: any ready one.
    */
  lemma KeptIff(explicit: bool, killed: Option<Job>, index: nat, ready: set<nat>, listed: set<nat>)
    ensures !Doomed(explicit, killed, index, ready, listed) <==>
      if explicit then
        index in listed || (index in ready && exists job :: killed == Some(job) && job.start < job.stop <= index)
      else index in ready
  {}

  /** The session object. Segment paths are named by their index. */
  class HLSVODSession {
    var job: Option<nat>
    var jobStart: nat
    var head: nat
    var explicit: bool
    var partial: Option<nat>
    var readers: map<nat, nat>
    var pending: set<nat>
    var restarting: bool

    constructor (explicit: bool)
      ensures State() == Fresh(explicit)
      ensures this.explicit == explicit && job == None && jobStart == 0 && head == 0 && partial == None
      ensures readers == map[] && pending == {} && !restarting
    {
      job, jobStart, head, partial := None, 0, 0, None;
      this.explicit := explicit;
      readers, pending, restarting := map[], {}, false;
    }

    function State(): Shared
      reads this
    {
      Shared(job, jobStart, head, explicit, partial, readers, pending, restarting)
    }

    method PartialSegment(head: nat, j: Job) returns (path: Option<nat>)
      ensures path == PartialAt(j, head)
    {
      if j.stop > j.start && head >= j.stop {
        return None;
      }
      return Some(head);
    }

    method AttachJob(id: nat, j: Job, explicitCopy: bool)
      modifies this
      ensures State() == Attached(old(State()), id, j, explicitCopy)
    {
      job := Some(id);
      jobStart := j.start;
      head := j.start;
      explicit := explicitCopy;
      partial := PartialSegment(head, j);
    }

    method ClearJobIf(id: nat)
      modifies this
      ensures State() == ClearedIf(old(State()), id)
    {
      if job == Some(id) {
        job := None;
      }
    }

    method TrackPartial(id: nat, j: Job)
      modifies this
      ensures State() == PartialTracked(old(State()), id, j)
    {
      if job == Some(id) {
        partial := PartialSegment(head, j);
      }
    }

    /** One uninterrupted refresh: the head moves past every ready segment, or to the end of the listed run. */
    method RefreshEncodeHead(j: Job, ready: set<nat>, listed: set<nat>)
      modifies this
      ensures State() ==
              if old(job) == None then old(State())
              else if old(explicit) then old(State()).(head := ExplicitHead(j, listed))
              else old(State()).(head := ListHead(ready, old(head)))
    {
      if job == None {
        return;
      }
      if explicit {
        var h := SegmentListHead(listed, j.start);
        if j.stop > j.start && h > j.stop {
          h := j.stop;
        }
        head := h;
        return;
      }
      while head in ready
        invariant State() == old(State()).(head := head)
        invariant ListHead(ready, head) == ListHead(ready, old(head))
        decreases |set i <- ready | i >= head|
      {
        assert (set i <- ready | i >= head + 1) == (set i <- ready | i >= head) - {head};
        head := head + 1;
      }
    }

    method JobViewNow(running: bool) returns (view: JobView)
      modifies this
      ensures view == View(old(State()), running)
      ensures State() == Viewed(old(State()), running)
    {
      if job == None {
        return JobView(false, 0, head);
      }
      if !running {
        job := None;
        return JobView(false, 0, head);
      }
      return JobView(true, jobStart, head);
    }

    method TakeJob() returns (old_: Option<nat>, path: Option<nat>)
      modifies this
      ensures old_ == old(job) && path == old(partial)
      ensures State() == JobTaken(old(State()))
    {
      old_, path := job, partial;
      job := None;
    }

    method AcquireServePath(index: nat)
      modifies this
      ensures State() == ReaderAdded(old(State()), index)
    {
      readers := readers[index := (if index in readers then readers[index] else 0) + 1];
    }

    /** The locked region of a release; `unlink` says whether the caller removes the file after it. */
    method ReleaseServePath(index: nat) returns (unlink: bool)
      modifies this
      ensures State() == ReaderGone(old(State()), index)
      ensures unlink == UnlinksOnRelease(old(State()), index)
    {
      var refs: int := if index in readers then readers[index] else 0;
      refs := refs - 1;
      if refs <= 0 {
        readers := readers - {index};
      } else {
        readers := readers[index := refs];
      }
      unlink := index in pending && refs <= 0;
      if unlink {
        pending := pending - {index};
      }
      assert pending == ReaderGone(old(State()), index).pending;
    }

    /** The unlink after a kill: skipped for a keeper, deferred while somebody reads, left to the caller otherwise. */
    method DeferUnlinkPath(path: Option<nat>, killed: Option<Job>, ready: set<nat>, listed: set<nat>) returns (unlink: bool)
      modifies this
      ensures var doomed := path.Some? && Doomed(old(explicit), killed, path.value, ready, listed);
        && unlink == (doomed && Readers(old(State()), path.value) == 0)
        && State() == (if doomed && !unlink then old(State()).(pending := old(pending) + {path.value}) else old(State()))
    {
      if path == None {
        return false;
      }
      var index := path.value;
      if explicit {
        if index in listed {
          return false;
        }
        if index in ready && killed.Some? && killed.value.stop > killed.value.start && index >= killed.value.stop {
          return false;
        }
      } else if index in ready {
        return false;
      }
      if index in readers && readers[index] > 0 {
        pending := pending + {index};
        return false;
      }
      return true;
    }
  }
}
