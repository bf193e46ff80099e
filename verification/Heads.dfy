/**
  * How the head of a job moves over whole runs: when a refresh takes it back, and why refreshes that do not overlap never
  * do.
  */
module Heads {
  import opened Wrappers
  import opened Decision
  import opened Session
  import opened Protocol

  /** The head a refresh is about to write for the current job: the one after the segment it saw, or the list's. */
  function HeadToWrite(s: State, e: Step): Option<nat> {
    match e
    case Write(t) =>
      if t in s.threads && s.threads[t].SawReady? && s.shared.job == Some(s.threads[t].id) then Some(s.threads[t].head + 1)
      else None
    case WriteList(t) =>
      if t in s.threads && s.threads[t].SawList? && s.shared.job == Some(s.threads[t].id) then Some(s.threads[t].head)
      else None
    case _ => None
  }

  /** The steps that set the head: an install, or a refresh that writes it. */
  predicate SetsHead(s: State, e: Step) {
    Attaches(e) || HeadToWrite(s, e).Some?
  }

  /** The step before position `i` that last set the head. */
  ghost predicate LastSet(states: seq<State>, steps: seq<Step>, k: nat, i: nat)
    requires i <= |steps| && |states| == |steps| + 1
  {
    k < i && SetsHead(states[k], steps[k]) && NotSet(states, steps, k + 1, i)
  }

  ghost predicate NotSet(states: seq<State>, steps: seq<Step>, a: nat, b: nat)
    requires b <= |steps| && |states| == |steps| + 1
  {
    forall m: nat :: a <= m < b ==> !SetsHead(states[m], steps[m])
  }

  /** A refresh writes the head, and takes it back. */
  ghost predicate GoesBack(states: seq<State>, steps: seq<Step>, i: nat)
    requires i < |steps| && |states| == |steps| + 1
  {
    HeadToWrite(states[i], steps[i]).Some? && states[i + 1].shared.head < states[i].shared.head
  }

  // ---- one step

  lemma HeadWrites(c: Config, s: State, e: Step)
    requires Enabled(c, s, e) && !Attaches(e)
    ensures Next(c, s, e).shared.head == if HeadToWrite(s, e).Some? then HeadToWrite(s, e).value else s.shared.head
    ensures Next(c, s, e).shared.jobStart == s.shared.jobStart
    ensures Next(c, s, e).shared.job.Some? ==> Next(c, s, e).shared.job == s.shared.job
  {}

  lemma InstallSets(c: Config, s: State, e: Step)
    requires Enabled(c, s, e) && Attaches(e)
    ensures Next(c, s, e).shared.head == Next(c, s, e).shared.jobStart
  {}

  /** A refresh writes no head before its job's start. */
  lemma WrittenFromStart(s: State, e: Step)
    requires Honest(s) && HeadToWrite(s, e).Some?
    ensures HeadToWrite(s, e).value >= s.shared.jobStart
  {
    assert HonestThread(s, s.threads[e.t]);
  }

  /** What a step without an install does to the head. */
  ghost predicate HeadStep(s: State, e: Step, t: State) {
    !Attaches(e) ==>
      && t.shared.head == (if HeadToWrite(s, e).Some? then HeadToWrite(s, e).value else s.shared.head)
      && t.shared.jobStart == s.shared.jobStart
      && (t.shared.job.Some? ==> t.shared.job == s.shared.job)
  }

  ghost predicate HeadSteps(states: seq<State>, steps: seq<Step>) {
    && |states| == |steps| + 1 && states[0].shared.job == None
    && forall i: nat :: i < |steps| ==> HeadStep(states[i], steps[i], states[i + 1])
  }

  lemma RunHeadSteps(c: Config, states: seq<State>, steps: seq<Step>)
    requires Run(c, states, steps)
    ensures HeadSteps(states, steps)
  {
    forall i: nat | i < |steps|
      ensures HeadStep(states[i], steps[i], states[i + 1])
    {
      if !Attaches(steps[i]) {
        HeadWrites(c, states[i], steps[i]);
      }
    }
  }

  // ---- the last step that set the head decides

  lemma {:induction false} HeadStays(states: seq<State>, steps: seq<Step>, a: nat, b: nat)
    requires HeadSteps(states, steps) && a <= b <= |steps| && NotSet(states, steps, a, b)
    ensures states[b].shared.head == states[a].shared.head && states[b].shared.jobStart == states[a].shared.jobStart
    ensures states[b].shared.job.Some? ==> states[b].shared.job == states[a].shared.job
    decreases b
  {
    if a < b {
      HeadStays(states, steps, a, b - 1);
      assert HeadStep(states[b - 1], steps[b - 1], states[b - 1 + 1]);
    }
  }

  /** Behind every current job there is a step that last set the head. */
  lemma {:induction false} LastSetExists(states: seq<State>, steps: seq<Step>, i: nat) returns (k: nat)
    requires HeadSteps(states, steps) && i <= |steps| && states[i].shared.job.Some?
    ensures LastSet(states, steps, k, i)
    decreases i
  {
    if SetsHead(states[i - 1], steps[i - 1]) {
      k := i - 1;
    } else {
      assert HeadStep(states[i - 1], steps[i - 1], states[i - 1 + 1]);
      k := LastSetExists(states, steps, i - 1);
    }
  }

  /**
    * A refresh takes the head back if and only if the head was last set by a refresh, not by an install, and to a greater
    * value.
    */
  lemma HeadGoesBackIff(c: Config, states: seq<State>, steps: seq<Step>, k: nat, i: nat)
    requires Run(c, states, steps) && i < |steps| && LastSet(states, steps, k, i)
    requires HeadToWrite(states[i], steps[i]).Some?
    ensures GoesBack(states, steps, i) <==>
            !Attaches(steps[k]) && HeadToWrite(states[k], steps[k]).value > HeadToWrite(states[i], steps[i]).value
  {
    RunHeadSteps(c, states, steps);
    HeadStays(states, steps, k + 1, i);
    assert HeadStep(states[i], steps[i], states[i + 1]) && HeadStep(states[k], steps[k], states[k + 1]);
    if Attaches(steps[k]) {
      InstallSets(c, states[k], steps[k]);
      RunHolds(c, states, steps, i);
      WrittenFromStart(states[i], steps[i]);
    }
  }

  // ---- the read behind a write

  predicate Reads(e: Step, t: nat) {
    e == Peek(t) || e == ReadList(t)
  }

  predicate Writes(e: Step, t: nat) {
    e == Write(t) || e == WriteList(t)
  }

  /** The read at `j` is the one the write of refresh `t` at `i` rests on. */
  ghost predicate ReadOf(steps: seq<Step>, j: nat, i: nat, t: nat) {
    && j < i < |steps|
    && ((steps[j] == Peek(t) && steps[i] == Write(t)) || (steps[j] == ReadList(t) && steps[i] == WriteList(t)))
    && forall m: nat :: j < m < i ==> !Reads(steps[m], t)
  }

  /** What refresh `t` carries, when it has read something. */
  ghost predicate Carries(s: State, t: nat, list: bool, id: nat, head: nat) {
    && t in s.threads
    && match s.threads[t]
       case Begun(_, _, _) => false
       case SawList(i, h) => list && i == id && h == head
       case Peeked(i, h) => !list && i == id && h == head
       case SawReady(i, h) => !list && i == id && h == head
  }

  /** What a refresh carries was carried before the step, unless the step is its read; and the step is not its write. */
  lemma CarriedBefore(c: Config, s: State, e: Step, t: nat, list: bool, id: nat, head: nat)
    requires Enabled(c, s, e) && Carries(Next(c, s, e), t, list, id, head) && !Reads(e, t)
    ensures Carries(s, t, list, id, head) && !Writes(e, t)
  {
    if Mover(e) != Some(t) {
      OthersUnmoved(c, s, e, t);
    }
  }

  /** What a read hands to its refresh: the head of the job, or the list's head in the job's range. */
  ghost predicate HandsOver(s: State, e: Step, t: nat, list: bool, id: nat, head: nat) {
    && id in s.jobs
    && if list then e == ReadList(t) && head == ExplicitHead(s.jobs[id], s.listed)
       else e == Peek(t) && head == s.shared.head
  }

  lemma ReadHandsOver(c: Config, s: State, e: Step, t: nat, list: bool, id: nat, head: nat)
    requires Enabled(c, s, e) && SingleWriter(s) && Carries(Next(c, s, e), t, list, id, head) && Reads(e, t)
    ensures HandsOver(s, e, t, list, id, head)
  {}

  /** What a step does to what refresh `t` carries. */
  ghost predicate CarryStep(s: State, e: Step, next: State, t: nat, list: bool, id: nat, head: nat) {
    Carries(next, t, list, id, head) ==>
      if Reads(e, t) then HandsOver(s, e, t, list, id, head) else Carries(s, t, list, id, head) && !Writes(e, t)
  }

  ghost predicate CarrySteps(states: seq<State>, steps: seq<Step>, t: nat, list: bool, id: nat, head: nat) {
    && |states| == |steps| + 1 && !Carries(states[0], t, list, id, head)
    && forall i: nat :: i < |steps| ==> CarryStep(states[i], steps[i], states[i + 1], t, list, id, head)
  }

  lemma RunCarrySteps(c: Config, states: seq<State>, steps: seq<Step>, t: nat, list: bool, id: nat, head: nat)
    requires Run(c, states, steps)
    ensures CarrySteps(states, steps, t, list, id, head)
  {
    forall i: nat | i < |steps|
      ensures CarryStep(states[i], steps[i], states[i + 1], t, list, id, head)
    {
      RunHolds(c, states, steps, i);
      if Carries(Next(c, states[i], steps[i]), t, list, id, head) {
        if Reads(steps[i], t) {
          ReadHandsOver(c, states[i], steps[i], t, list, id, head);
        } else {
          CarriedBefore(c, states[i], steps[i], t, list, id, head);
        }
      }
    }
  }

  lemma {:induction false} ReadBehind(states: seq<State>, steps: seq<Step>, i: nat, t: nat, list: bool, id: nat, head: nat)
    returns (j: nat)
    requires CarrySteps(states, steps, t, list, id, head) && i <= |steps| && Carries(states[i], t, list, id, head)
    ensures j < i && HandsOver(states[j], steps[j], t, list, id, head)
    ensures forall m: nat :: j < m < i ==> !Reads(steps[m], t) && !Writes(steps[m], t)
    decreases i
  {
    assert CarryStep(states[i - 1], steps[i - 1], states[i - 1 + 1], t, list, id, head);
    if Reads(steps[i - 1], t) {
      j := i - 1;
    } else {
      j := ReadBehind(states, steps, i - 1, t, list, id, head);
    }
  }

  /** What refresh `t` of a write step carries. */
  lemma WriterCarries(c: Config, s: State, e: Step) returns (head: nat)
    requires Enabled(c, s, e) && HeadToWrite(s, e).Some?
    ensures s.shared.job.Some? && Carries(s, e.t, e.WriteList?, s.shared.job.value, head) && Writes(e, e.t)
    ensures HeadToWrite(s, e) == Some(if e.WriteList? then head else head + 1)
  {
    head := s.threads[e.t].head;
  }

  /** The value a write of the head rests on: the head of the job or of the list at the read behind it. */
  function ReadValue(s: State, list: bool, id: nat): nat
    requires id in s.jobs
  {
    if list then ExplicitHead(s.jobs[id], s.listed) else s.shared.head + 1
  }

  /** Every write of the head rests on a read. */
  lemma ReadExists(c: Config, states: seq<State>, steps: seq<Step>, i: nat) returns (j: nat)
    requires Run(c, states, steps) && i < |steps| && HeadToWrite(states[i], steps[i]).Some?
    ensures ReadOf(steps, j, i, steps[i].t)
    ensures states[i].shared.job.Some? && states[i].shared.job.value in states[j].jobs
    ensures HeadToWrite(states[i], steps[i]).value == ReadValue(states[j], steps[i].WriteList?, states[i].shared.job.value)
    ensures forall m: nat :: j < m < i ==> !Writes(steps[m], steps[i].t)
  {
    var head := WriterCarries(c, states[i], steps[i]);
    var t, list, id := steps[i].t, steps[i].WriteList?, states[i].shared.job.value;
    RunCarrySteps(c, states, steps, t, list, id, head);
    j := ReadBehind(states, steps, i, t, list, id, head);
  }

  lemma ReadOfIsUnique(steps: seq<Step>, j: nat, k: nat, i: nat, t: nat)
    requires ReadOf(steps, j, i, t) && ReadOf(steps, k, i, t)
    ensures j == k
  {
    assert Reads(steps[j], t) && Reads(steps[k], t);
  }

  // ---- refreshes that do not overlap

  /** Between a refresh's read and its write another refresh wrote the head, or a job was installed. */
  ghost predicate Overlapped(states: seq<State>, steps: seq<Step>, j: nat, i: nat, t: nat)
    requires i <= |steps| && |states| == |steps| + 1
  {
    exists m: nat :: j < m < i && SetsHead(states[m], steps[m]) && !Writes(steps[m], t)
  }

  /** Once the job is there, the list loses nothing. */
  ghost predicate ListGrows(states: seq<State>, i: nat, id: nat)
    requires i < |states|
  {
    forall m: nat :: m < i && id in states[m].jobs ==> states[m].listed <= states[m + 1].listed
  }

  /** A refresh of the ready segments takes the head back only if something else set it between its read and its write. */
  lemma PeekedWriteKeepsHead(c: Config, states: seq<State>, steps: seq<Step>, j: nat, i: nat, t: nat)
    requires Run(c, states, steps) && ReadOf(steps, j, i, t) && steps[i] == Write(t) && GoesBack(states, steps, i)
    ensures Overlapped(states, steps, j, i, t)
  {
    var k := ReadExists(c, states, steps, i);
    ReadOfIsUnique(steps, j, k, i, t);
    RunHeadSteps(c, states, steps);
    assert HeadStep(states[i], steps[i], states[i + 1]);
    if !Overlapped(states, steps, j, i, t) {
      assert NotSet(states, steps, j, i);
      HeadStays(states, steps, j, i);
    }
  }

  lemma {:induction false} JobAndListKept(c: Config, states: seq<State>, steps: seq<Step>, a: nat, b: nat, id: nat)
    requires Run(c, states, steps) && a <= b <= |steps| && ListGrows(states, b, id) && id in states[a].jobs
    ensures id in states[b].jobs && states[a].listed <= states[b].listed
    ensures states[b].jobs[id].start == states[a].jobs[id].start && states[b].jobs[id].stop == states[a].jobs[id].stop
    decreases b
  {
    if a < b {
      JobAndListKept(c, states, steps, a, b - 1, id);
      JobsKeepRange(c, states[b - 1], steps[b - 1]);
      assert states[b - 1].listed <= states[b - 1 + 1].listed;
    }
  }

  /** A list that grew has its head no earlier. */
  lemma ListHeadGrows(job: Job, more: Job, listed: set<nat>, longer: set<nat>)
    requires listed <= longer && more.start == job.start && more.stop == job.stop
    ensures ExplicitHead(job, listed) <= ExplicitHead(more, longer)
  {
    var h, l := ListHead(listed, job.start), ListHead(longer, job.start);
    assert l < h ==> l in listed;
  }

  /** In a session that always cuts explicitly every written head is one of the list. */
  lemma ListWrites(c: Config, states: seq<State>, steps: seq<Step>, k: nat)
    requires Run(c, states, steps) && k < |steps| && InMode(states, k, Some(true))
    requires HeadToWrite(states[k], steps[k]).Some?
    ensures steps[k].WriteList?
  {
    RunKeepsMode(c, states, steps, k, Some(true));
    assert ThreadInMode(states[k].threads[steps[k].t], true);
  }

  /** The same for refreshes of the segment list, in a session that always cuts explicitly, when the list only grows. */
  lemma ListedWriteKeepsHead(c: Config, states: seq<State>, steps: seq<Step>, j: nat, i: nat, t: nat)
    requires Run(c, states, steps) && ReadOf(steps, j, i, t) && steps[i] == WriteList(t) && GoesBack(states, steps, i)
    requires InMode(states, i, Some(true)) && ListGrows(states, i, states[i].shared.job.value)
    ensures Overlapped(states, steps, j, i, t)
  {
    var here := ReadExists(c, states, steps, i);
    ReadOfIsUnique(steps, j, here, i, t);
    RunHeadSteps(c, states, steps);
    var k := LastSetExists(states, steps, i);
    HeadGoesBackIff(c, states, steps, k, i);
    if !Overlapped(states, steps, j, i, t) {
      assert k < j;
      ListWrites(c, states, steps, k);
      var before := ReadExists(c, states, steps, k);
      HeadStays(states, steps, k + 1, i);
      assert HeadStep(states[k], steps[k], states[k + 1]);
      var id := states[i].shared.job.value;
      JobAndListKept(c, states, steps, before, j, id);
      ListHeadGrows(states[before].jobs[id], states[j].jobs[id], states[before].listed, states[j].listed);
    }
  }

  /** No refresh overlaps another one's write, or an install, between its read and its write. */
  ghost predicate Serial(states: seq<State>, steps: seq<Step>, a: nat, b: nat)
    requires a <= b <= |steps| && |states| == |steps| + 1
  {
    forall i: nat, j: nat, t: nat :: a <= i < b && ReadOf(steps, j, i, t) ==> !Overlapped(states, steps, j, i, t)
  }

  /** What the refreshes of a session need to be safe: its mode, and for a session that cuts explicitly a list that grows. */
  ghost predicate Steady(states: seq<State>, b: nat, explicit: bool)
    requires b < |states|
  {
    InMode(states, b, Some(explicit)) && (explicit ==> forall id: nat :: ListGrows(states, b, id))
  }

  lemma ReadyWrites(c: Config, states: seq<State>, steps: seq<Step>, k: nat)
    requires Run(c, states, steps) && k < |steps| && InMode(states, k, Some(false))
    requires HeadToWrite(states[k], steps[k]).Some?
    ensures steps[k].Write?
  {
    RunKeepsMode(c, states, steps, k, Some(false));
    assert ThreadInMode(states[k].threads[steps[k].t], false);
  }

  lemma SerialStep(c: Config, states: seq<State>, steps: seq<Step>, i: nat, explicit: bool)
    requires Run(c, states, steps) && i < |steps| && Serial(states, steps, i, i + 1) && Steady(states, i, explicit)
    ensures !GoesBack(states, steps, i)
  {
    if GoesBack(states, steps, i) {
      var j := ReadExists(c, states, steps, i);
      if explicit {
        ListWrites(c, states, steps, i);
        ListedWriteKeepsHead(c, states, steps, j, i, steps[i].t);
      } else {
        ReadyWrites(c, states, steps, i);
        PeekedWriteKeepsHead(c, states, steps, j, i, steps[i].t);
      }
    }
  }

  lemma SteadyBefore(states: seq<State>, a: nat, b: nat, explicit: bool)
    requires a <= b < |states| && Steady(states, b, explicit)
    ensures Steady(states, a, explicit)
  {
    if explicit {
      forall id: nat
        ensures ListGrows(states, a, id)
      {
        assert ListGrows(states, b, id);
      }
    }
  }

  lemma {:induction false} HeadGrows(states: seq<State>, steps: seq<Step>, a: nat, b: nat)
    requires HeadSteps(states, steps) && a <= b <= |steps|
    requires forall m: nat :: a <= m < b ==> !Attaches(steps[m]) && !GoesBack(states, steps, m)
    ensures states[a].shared.head <= states[b].shared.head
    decreases b
  {
    if a < b {
      HeadGrows(states, steps, a, b - 1);
      assert HeadStep(states[b - 1], steps[b - 1], states[b - 1 + 1]);
    }
  }

  /**
    * Between two installs refreshes that do not overlap never take the head back, whether it follows the ready segments
    * or a list that only grows.
    */
  lemma SerialRefreshesKeepHead(c: Config, states: seq<State>, steps: seq<Step>, a: nat, b: nat, explicit: bool)
    requires Run(c, states, steps) && a <= b <= |steps| && (forall m: nat :: a <= m < b ==> !Attaches(steps[m]))
    requires Serial(states, steps, a, b) && Steady(states, b, explicit)
    ensures states[a].shared.head <= states[b].shared.head
  {
    forall m: nat | a <= m < b
      ensures !GoesBack(states, steps, m)
    {
      SteadyBefore(states, m, b, explicit);
      SerialStep(c, states, steps, m, explicit);
    }
    RunHeadSteps(c, states, steps);
    HeadGrows(states, steps, a, b);
  }
}
