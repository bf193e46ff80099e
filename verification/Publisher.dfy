/** Publishing passes over a muxer playlist that grows while its segments are aligned and served. */
module Publisher {
  import opened Wrappers
  import opened Bytes
  import opened FirstTimes
  import opened Align

  /** A listed segment; its index is missing when the URI does not name one. */
  datatype Segment = Segment(index: Option<nat>, dur: real)

  datatype Playlist = Playlist(segments: seq<Segment>, endList: bool)

  function SumDur(segs: seq<Segment>): real {
    if segs == [] then 0.0 else SumDur(segs[..|segs| - 1]) + segs[|segs| - 1].dur
  }

  // ---- where each segment belongs

  /** Start of each listed index, counted from the first listed segment; a repeated index keeps its last place. */
  function StartsOf(segs: seq<Segment>): map<nat, real> {
    if segs == [] then map[]
    else
      var n := |segs| - 1;
      if segs[n].index.Some? then StartsOf(segs[..n])[segs[n].index.value := SumDur(segs[..n])] else StartsOf(segs[..n])
  }

  function Origin(startSec: real): real {
    if startSec <= 0.0 then 0.0 else startSec
  }

  function AbsoluteStarts(segs: seq<Segment>, startSec: real): map<nat, real> {
    map k | k in StartsOf(segs) :: Origin(startSec) + StartsOf(segs)[k]
  }

  method MediaStarts(segs: seq<Segment>) returns (starts: map<nat, real>)
    ensures starts == StartsOf(segs)
  {
    starts := map[];
    var pos := 0.0;
    for i := 0 to |segs|
      invariant starts == StartsOf(segs[..i]) && pos == SumDur(segs[..i])
    {
      assert segs[..i + 1][..i] == segs[..i];
      if segs[i].index.Some? {
        starts := starts[segs[i].index.value := pos];
      }
      pos := pos + segs[i].dur;
    }
    assert segs[..|segs|] == segs;
  }

  method AbsoluteMediaStarts(segs: seq<Segment>, startSec: real) returns (starts: map<nat, real>)
    ensures starts == AbsoluteStarts(segs, startSec)
  {
    var relative := MediaStarts(segs);
    if startSec <= 0.0 || |relative| == 0 {
      assert forall k :: k in AbsoluteStarts(segs, startSec) ==> AbsoluteStarts(segs, startSec)[k] == relative[k];
      return relative;
    }
    return map k | k in relative :: startSec + relative[k];
  }

  // ---- one pass

  /** What the disk does to a write: it goes well, fails before the servable file is in place, or after it. */
  datatype Fault = Works | FailsBefore | FailsAfter

  /** One aligned file put in place: what it was made of, and its bytes. */
  datatype Alignment =
    Alignment(index: nat, start: real, fragment: seq<byte>, timescales: map<nat, nat>, primary: nat, bytes: seq<byte>)

  /** `servable` are the aligned files in place; `log` is every time one was put there. */
  datatype State = State(published: set<nat>, servable: map<nat, seq<byte>>, log: seq<Alignment>)

  /**
    * What a pass finds: the playlist, the raw files the muxer has closed, the init's timescales, the track each
    * alignment anchors where Go's map order leaves a choice, and what the disk does to its writes.
    */
  datatype Input = Input(
    playlist: Playlist,
    raw: map<nat, seq<byte>>,
    timescales: map<nat, nat>,
    primary: map<nat, nat>,
    faults: map<nat, Fault>,
    jobDone: bool)

  datatype Outcome = Outcome(state: State, changed: bool, ok: bool)

  function FaultAt(input: Input, index: nat): Fault {
    if index in input.faults then input.faults[index] else Works
  }

  function PrimaryAt(input: Input, index: nat): nat {
    if index in input.primary then input.primary[index] else 1
  }

  /** A raw file is complete when it is closed and parses as a fragment. */
  predicate Complete(input: Input, index: nat) {
    index in input.raw && IsFragment(input.raw[index])
  }

  /** The raw file aligned to its start, or nothing when the alignment fails. */
  function AlignRaw(input: Input, index: nat, start: real): Option<seq<byte>>
    requires index in input.raw
  {
    AlignWith(input.raw[index], start, input.timescales, PrimaryAt(input, index))
  }

  function Entry(input: Input, index: nat, start: real, bytes: seq<byte>): Alignment
    requires index in input.raw
  {
    Alignment(index, start, input.raw[index], input.timescales, PrimaryAt(input, index), bytes)
  }

  function Placed(s: State, a: Alignment): State {
    s.(servable := s.servable[a.index := a.bytes], log := s.log + [a])
  }

  function Published(s: State, index: nat): State {
    s.(published := s.published + {index})
  }

  /** What comes of an alignment: nothing when it fails or cannot be written, a servable file, or a published one. */
  function Settle(s: State, input: Input, index: nat, start: real, aligned: Option<seq<byte>>): Outcome
    requires index in input.raw
  {
    if aligned == None || FaultAt(input, index) == FailsBefore then Outcome(s, false, false)
    else
      var placed := Placed(s, Entry(input, index, start, aligned.value));
      if FaultAt(input, index) == FailsAfter then Outcome(placed, false, false)
      else Outcome(Published(placed, index), true, true)
  }

  /** The treatment of one listed index: skip, adopt what is already servable, wait for the muxer, or align. */
  function PublishOne(s: State, input: Input, index: nat, start: real): Outcome {
    if index in s.published then Outcome(s, false, true)
    else if index in s.servable then Outcome(Published(s, index), true, true)
    else if !Complete(input, index) then Outcome(s, false, true)
    else Settle(s, input, index, start, AlignRaw(input, index, start))
  }

  function StartAt(starts: map<nat, real>, index: nat): real {
    if index in starts then starts[index] else 0.0
  }

  /** The pass over the first segments of the list; an alignment that fails ends it. */
  function PassOver(s: State, input: Input, starts: map<nat, real>, segs: seq<Segment>): Outcome {
    if segs == [] then Outcome(s, false, true)
    else
      var n := |segs| - 1;
      var before := PassOver(s, input, starts, segs[..n]);
      if !before.ok || segs[n].index == None then before
      else
        var one := PublishOne(before.state, input, segs[n].index.value, StartAt(starts, segs[n].index.value));
        Outcome(one.state, before.changed || one.changed, one.ok)
  }

  function Pass(s: State, input: Input, startSec: real): Outcome {
    PassOver(s, input, AbsoluteStarts(input.playlist.segments, startSec), input.playlist.segments)
  }

  // ---- the emitted playlist

  /** The published prefix: entries that name no segment are left out, and the first unpublished one ends it. */
  function Prefix(segs: seq<Segment>, published: set<nat>): seq<Segment> {
    if segs == [] then []
    else if segs[0].index == None then Prefix(segs[1..], published)
    else if segs[0].index.value !in published then []
    else [segs[0]] + Prefix(segs[1..], published)
  }

  datatype Status = Status(firstIndex: int, lastReadyIndex: int, producedSec: real, endList: bool, complete: bool)

  function FirstIndex(segs: seq<Segment>): int {
    if segs == [] then -1
    else if segs[0].index.Some? then segs[0].index.value
    else FirstIndex(segs[1..])
  }

  function LastIndex(entries: seq<Segment>): int {
    if entries == [] || entries[|entries| - 1].index == None then -1
    else entries[|entries| - 1].index.value
  }

  function StatusOf(p: Playlist, published: set<nat>): Status {
    var entries := Prefix(p.segments, published);
    Status(FirstIndex(p.segments),
           LastIndex(entries),
           SumDur(entries),
           p.endList,
           p.endList && |entries| == |p.segments| && entries != [])
  }

  lemma {:induction false} PrefixNamesSegments(segs: seq<Segment>, published: set<nat>)
    ensures |Prefix(segs, published)| <= |segs|
    ensures forall e <- Prefix(segs, published) :: e in segs && e.index.Some? && e.index.value in published
  {
    if segs != [] {
      PrefixNamesSegments(segs[1..], published);
    }
  }

  lemma PrefixTurn(segs: seq<Segment>, i: nat, published: set<nat>)
    requires i < |segs|
    ensures Prefix(segs[i..], published) ==
      if segs[i].index == None then Prefix(segs[i + 1..], published)
      else if segs[i].index.value !in published then []
      else [segs[i]] + Prefix(segs[i + 1..], published)
    ensures FirstIndex(segs[i..]) == if segs[i].index.Some? then segs[i].index.value else FirstIndex(segs[i + 1..])
  {
    assert segs[i..][1..] == segs[i + 1..];
  }

  method WriteServeArtifacts(p: Playlist, published: set<nat>) returns (entries: seq<Segment>, status: Status)
    ensures entries == Prefix(p.segments, published)
    ensures status == StatusOf(p, published)
  {
    var segs := p.segments;
    entries := [];
    var first: int, last: int, produced := -1, -1, 0.0;
    var emitted := 0;
    var i := 0;
    while i < |segs|
      invariant 0 <= i <= |segs| && emitted == |entries|
      invariant entries + Prefix(segs[i..], published) == Prefix(segs, published)
      invariant first == -1 ==> FirstIndex(segs) == FirstIndex(segs[i..])
      invariant first != -1 ==> first >= 0 && first == FirstIndex(segs)
      invariant entries != [] ==> first != -1 && entries[|entries| - 1].index == Some(last)
      invariant entries == [] ==> last == -1
      invariant produced == SumDur(entries) && last >= -1
    {
      PrefixTurn(segs, i, published);
      var seg := segs[i];
      i := i + 1;
      if seg.index == None {
        continue;
      }
      var index := seg.index.value;
      if i == 1 || first < 0 {
        first := index;
      }
      if index !in published {
        break;
      }
      assert (entries + [seg])[..|entries|] == entries;
      entries := entries + [seg];
      last := index;
      produced := produced + seg.dur;
      emitted := emitted + 1;
    }
    status := Status(first, last, produced, p.endList, p.endList && emitted == |segs| && emitted > 0);
  }

  // ---- the object

  class Job {
    const startSec: real
    var published: set<nat>
    var servable: map<nat, seq<byte>>
    ghost var log: seq<Alignment>
    var emitted: Option<seq<Segment>>
    var status: Option<Status>

    constructor (startSec: real, servable: map<nat, seq<byte>>)
      ensures this.startSec == startSec && Now() == State({}, servable, []) && emitted == None && status == None
    {
      this.startSec := startSec;
      published, this.servable, log := {}, servable, [];
      emitted, status := None, None;
    }

    ghost function Now(): State
      reads this
    {
      State(published, servable, log)
    }

    /** One segment of a pass. */
    method PublishSegment(input: Input, index: nat, start: real) returns (changed: bool, ok: bool)
      modifies this
      ensures Outcome(Now(), changed, ok) == PublishOne(old(Now()), input, index, start)
      ensures emitted == old(emitted) && status == old(status)
    {
      if index in published {
        return false, true;
      }
      if index in servable {
        published := published + {index};
        return true, true;
      }
      if !Complete(input, index) {
        return false, true;
      }
      var aligned := AlignRaw(input, index, start);
      if aligned == None {
        return false, false;
      }
      var fault := FaultAt(input, index);
      if fault == FailsBefore {
        return false, false;
      }
      servable := servable[index := aligned.value];
      log := log + [Entry(input, index, start, aligned.value)];
      if fault == FailsAfter {
        return false, false;
      }
      published := published + {index};
      return true, true;
    }

    /** The loop of a pass over the listed segments. */
    method PublishAll(input: Input, starts: map<nat, real>) returns (changed: bool, ok: bool)
      modifies this
      ensures var r := PassOver(old(Now()), input, starts, input.playlist.segments);
        Now() == r.state && ok == r.ok && (ok ==> changed == r.changed)
      ensures emitted == old(emitted) && status == old(status)
    {
      var segs := input.playlist.segments;
      changed := false;
      for i := 0 to |segs|
        invariant Outcome(Now(), changed, true) == PassOver(old(Now()), input, starts, segs[..i])
        invariant emitted == old(emitted) && status == old(status)
      {
        assert segs[..i + 1][..i] == segs[..i];
        if segs[i].index == None {
          continue;
        }
        var one, fine := PublishSegment(input, segs[i].index.value, StartAt(starts, segs[i].index.value));
        if !fine {
          PassStopped(old(Now()), input, starts, segs, i + 1);
          return false, false;
        }
        changed := changed || one;
      }
      assert segs[..|segs|] == segs;
      ok := true;
    }

    /** A pass aligns and publishes what it can; the serve playlist is rewritten when something changed or at the end. */
    method PublishReadySegments(input: Input) returns (changed: bool, ok: bool)
      modifies this
      ensures var r := Pass(old(Now()), input, startSec);
        && Now() == r.state && ok == r.ok && changed == (r.ok && r.changed)
        && (if r.ok && (r.changed || input.jobDone)
            then emitted == Some(Prefix(input.playlist.segments, r.state.published))
              && status == Some(StatusOf(input.playlist, r.state.published))
            else emitted == old(emitted) && status == old(status))
    {
      var starts := AbsoluteMediaStarts(input.playlist.segments, startSec);
      changed, ok := PublishAll(input, starts);
      if !ok {
        return false, false;
      }
      if !changed && !input.jobDone {
        return;
      }
      var entries, st := WriteServeArtifacts(input.playlist, published);
      emitted, status := Some(entries), Some(st);
    }
  }

  lemma {:induction false} PassStopped(s: State, input: Input, starts: map<nat, real>, segs: seq<Segment>, n: nat)
    requires n <= |segs| && !PassOver(s, input, starts, segs[..n]).ok
    ensures PassOver(s, input, starts, segs) == PassOver(s, input, starts, segs[..n])
    decreases |segs|
  {
    if n < |segs| {
      var m := |segs| - 1;
      assert segs[..m][..n] == segs[..n];
      PassStopped(s, input, starts, segs[..m], n);
    } else {
      assert segs[..n] == segs;
    }
  }

  // ---- whole runs

  ghost predicate Distinct(segs: seq<Segment>) {
    forall i, j :: 0 <= i < j < |segs| && segs[i].index.Some? ==> segs[i].index != segs[j].index
  }

  /** `a` put its index where the list has it: at the origin plus the lengths listed before it. */
  ghost predicate InPlace(segs: seq<Segment>, startSec: real, a: Alignment) {
    exists p: nat ::
      p < |segs| && segs[p].index == Some(a.index) && a.start == (if startSec > 0.0 then startSec else 0.0) + SumDur(segs[..p])
  }

  /** The file in place for a logged index is the one that was logged. */
  predicate Kept(s: State, a: Alignment) {
    a.index in s.servable && s.servable[a.index] == a.bytes
  }

  ghost predicate Consistent(s: State, segs: seq<Segment>, startSec: real) {
    && (forall index <- s.published :: index in s.servable)
    && (forall i :: 0 <= i < |s.log| ==> Kept(s, s.log[i]) && InPlace(segs, startSec, s.log[i]))
    && (forall i, j :: 0 <= i < j < |s.log| ==> s.log[i].index != s.log[j].index)
  }

  lemma {:induction false} StartsAt(segs: seq<Segment>, p: nat)
    requires Distinct(segs) && p < |segs| && segs[p].index.Some?
    ensures segs[p].index.value in StartsOf(segs)
    ensures StartsOf(segs)[segs[p].index.value] == SumDur(segs[..p])
    decreases |segs|
  {
    var n := |segs| - 1;
    if p < n {
      StartsAt(segs[..n], p);
      assert segs[..n][..p] == segs[..p];
      assert segs[p].index != segs[n].index;
    }
  }

  lemma InPlaceGrows(segs: seq<Segment>, more: seq<Segment>, startSec: real, a: Alignment)
    requires segs <= more && InPlace(segs, startSec, a)
    ensures InPlace(more, startSec, a)
  {
    var p: nat :|
      p < |segs| && segs[p].index == Some(a.index) && a.start == (if startSec > 0.0 then startSec else 0.0) + SumDur(segs[..p]);
    assert more[..p] == segs[..p] && more[p] == segs[p];
  }

  lemma ConsistentGrows(s: State, segs: seq<Segment>, more: seq<Segment>, startSec: real)
    requires segs <= more && Consistent(s, segs, startSec)
    ensures Consistent(s, more, startSec)
  {
    forall i | 0 <= i < |s.log|
      ensures InPlace(more, startSec, s.log[i])
    {
      InPlaceGrows(segs, more, startSec, s.log[i]);
    }
  }

  lemma SettleKeepsConsistent(s: State, input: Input, segs: seq<Segment>, startSec: real, p: nat, aligned: Option<seq<byte>>)
    requires Distinct(segs) && Consistent(s, segs, startSec) && p < |segs| && segs[p].index.Some?
    requires segs[p].index.value in input.raw && segs[p].index.value !in s.servable
    ensures var start := StartAt(AbsoluteStarts(segs, startSec), segs[p].index.value);
      Consistent(Settle(s, input, segs[p].index.value, start, aligned).state, segs, startSec)
  {
    var index := segs[p].index.value;
    StartsAt(segs, p);
    var start := StartAt(AbsoluteStarts(segs, startSec), index);
    if aligned.Some? {
      assert InPlace(segs, startSec, Entry(input, index, start, aligned.value));
    }
  }

  lemma OneKeepsConsistent(s: State, input: Input, segs: seq<Segment>, startSec: real, p: nat)
    requires Distinct(segs) && Consistent(s, segs, startSec) && p < |segs| && segs[p].index.Some?
    ensures var start := StartAt(AbsoluteStarts(segs, startSec), segs[p].index.value);
      Consistent(PublishOne(s, input, segs[p].index.value, start).state, segs, startSec)
  {
    var index := segs[p].index.value;
    if index !in s.servable && Complete(input, index) {
      SettleKeepsConsistent(s, input, segs, startSec, p, AlignRaw(input, index, StartAt(AbsoluteStarts(segs, startSec), index)));
    }
  }

  lemma {:induction false} PassKeepsConsistent(s: State, input: Input, segs: seq<Segment>, startSec: real, n: nat)
    requires Distinct(segs) && Consistent(s, segs, startSec) && n <= |segs|
    ensures var r := PassOver(s, input, AbsoluteStarts(segs, startSec), segs[..n]);
      Consistent(r.state, segs, startSec) && s.published <= r.state.published
    decreases n
  {
    if n > 0 {
      assert segs[..n][..n - 1] == segs[..n - 1];
      PassKeepsConsistent(s, input, segs, startSec, n - 1);
      if segs[n - 1].index.Some? {
        OneKeepsConsistent(PassOver(s, input, AbsoluteStarts(segs, startSec), segs[..n - 1]).state, input, segs, startSec, n - 1);
      }
    }
  }

  /** A run of passes: each sees a playlist that extends the previous one, with no index listed twice. */
  ghost predicate Run(startSec: real, states: seq<State>, inputs: seq<Input>) {
    && |states| == |inputs| + 1
    && states[0].published == {} && states[0].log == []
    && (forall i :: 0 <= i < |inputs| ==> states[i + 1] == Pass(states[i], inputs[i], startSec).state)
    && (forall i :: 0 <= i < |inputs| ==> Distinct(inputs[i].playlist.segments))
    && (forall i :: 0 < i < |inputs| ==> inputs[i - 1].playlist.segments <= inputs[i].playlist.segments)
  }

  function Listed(inputs: seq<Input>, i: nat): seq<Segment>
    requires i <= |inputs|
  {
    if i == 0 then [] else inputs[i - 1].playlist.segments
  }

  lemma {:induction false} RunConsistent(startSec: real, states: seq<State>, inputs: seq<Input>, i: nat)
    requires Run(startSec, states, inputs) && i <= |inputs|
    ensures Consistent(states[i], Listed(inputs, i), startSec)
    decreases i
  {
    if i > 0 {
      var segs := inputs[i - 1].playlist.segments;
      RunConsistent(startSec, states, inputs, i - 1);
      ConsistentGrows(states[i - 1], Listed(inputs, i - 1), segs, startSec);
      PassKeepsConsistent(states[i - 1], inputs[i - 1], segs, startSec, |segs|);
      assert segs[..|segs|] == segs;
    }
  }

  lemma {:induction false} ListGrows(startSec: real, states: seq<State>, inputs: seq<Input>, i: nat, j: nat)
    requires Run(startSec, states, inputs) && i <= j < |inputs|
    ensures inputs[i].playlist.segments <= inputs[j].playlist.segments
    decreases j
  {
    if i < j {
      ListGrows(startSec, states, inputs, i, j - 1);
    }
  }

  lemma {:induction false} PublishedGrows(startSec: real, states: seq<State>, inputs: seq<Input>, i: nat, j: nat)
    requires Run(startSec, states, inputs) && i <= j <= |inputs|
    ensures states[i].published <= states[j].published
    decreases j
  {
    if i < j {
      var segs := inputs[j - 1].playlist.segments;
      PublishedGrows(startSec, states, inputs, i, j - 1);
      RunConsistent(startSec, states, inputs, j - 1);
      ConsistentGrows(states[j - 1], Listed(inputs, j - 1), segs, startSec);
      PassKeepsConsistent(states[j - 1], inputs[j - 1], segs, startSec, |segs|);
      assert segs[..|segs|] == segs;
    }
  }

  /**
    * Whole-run alignment: over any passes, with any alignment failures, no segment is put in place twice, and each one
    * is put at the origin plus the lengths listed before it in the final playlist.
    */
  lemma AlignedOnceInPlace(startSec: real, states: seq<State>, inputs: seq<Input>, a: nat)
    requires Run(startSec, states, inputs) && inputs != []
    requires a < |states[|inputs|].log|
    ensures var log := states[|inputs|].log;
      && InPlace(inputs[|inputs| - 1].playlist.segments, startSec, log[a])
      && forall b :: 0 <= b < |log| && log[b].index == log[a].index ==> b == a
  {
    RunConsistent(startSec, states, inputs, |inputs|);
  }

  // ---- where the files in place come from

  /** A logged alignment is a real one: of a complete fragment, to a primary track of it, with the bytes it gave. */
  ghost predicate Genuine(a: Alignment) {
    && IsFragment(a.fragment)
    && IsPrimary(FirstOf(a.fragment).value, a.primary)
    && AlignWith(a.fragment, a.start, a.timescales, a.primary) == Some(a.bytes)
  }

  /** The fragment of a logged alignment is the closed raw file of its index in some pass. */
  ghost predicate FromMuxer(inputs: seq<Input>, a: Alignment) {
    exists i :: 0 <= i < |inputs| && a.index in inputs[i].raw && inputs[i].raw[a.index] == a.fragment
                && inputs[i].timescales == a.timescales
  }

  /** The anchor of every alignment a pass may do is one that Go's map order can leave. */
  ghost predicate AnchorsPrimary(input: Input) {
    forall index <- input.raw ::
      IsFragment(input.raw[index]) ==> IsPrimary(FirstOf(input.raw[index]).value, PrimaryAt(input, index))
  }

  /** What is in place was there at the start or has been logged. */
  ghost predicate Accounted(s: State, initial: map<nat, seq<byte>>) {
    forall index <- s.servable ::
      (index in initial && s.servable[index] == initial[index]) || exists a <- s.log :: a.index == index
  }

  lemma AccountedFor(s: State, initial: map<nat, seq<byte>>, index: nat) returns (i: nat)
    requires Accounted(s, initial) && index in s.servable && index !in initial
    ensures i < |s.log| && s.log[i].index == index
  {
    var a :| a in s.log && a.index == index;
    i :| i < |s.log| && s.log[i] == a;
  }

  ghost predicate LogOk(s: State, inputs: seq<Input>) {
    forall a <- s.log :: Genuine(a) && FromMuxer(inputs, a)
  }

  lemma SettleKeepsLog(s: State, inputs: seq<Input>, i: nat, index: nat, start: real, initial: map<nat, seq<byte>>)
    requires i < |inputs| && AnchorsPrimary(inputs[i]) && Complete(inputs[i], index) && index !in s.servable
    requires LogOk(s, inputs) && Accounted(s, initial)
    ensures var t := Settle(s, inputs[i], index, start, AlignRaw(inputs[i], index, start)).state;
      LogOk(t, inputs) && Accounted(t, initial)
  {
    var aligned := AlignRaw(inputs[i], index, start);
    if aligned.Some? {
      var a := Entry(inputs[i], index, start, aligned.value);
      assert Genuine(a) && FromMuxer(inputs, a);
      PlacedKeepsLog(s, inputs, a, initial);
    }
  }

  lemma PlacedKeepsLog(s: State, inputs: seq<Input>, a: Alignment, initial: map<nat, seq<byte>>)
    requires LogOk(s, inputs) && Accounted(s, initial) && Genuine(a) && FromMuxer(inputs, a)
    ensures LogOk(Placed(s, a), inputs) && Accounted(Placed(s, a), initial)
  {
    var t := Placed(s, a);
    assert forall b <- t.log :: b in s.log || b == a;
    assert forall b <- s.log :: b in t.log;
    assert a in t.log;
    forall index <- t.servable
      ensures (index in initial && t.servable[index] == initial[index]) || exists b <- t.log :: b.index == index
    {
      if index != a.index && exists b <- s.log :: b.index == index {
        var b :| b in s.log && b.index == index;
        assert b in t.log;
      }
    }
  }

  lemma {:induction false} PassKeepsLog(s: State, inputs: seq<Input>, i: nat, starts: map<nat, real>, segs: seq<Segment>,
                                        initial: map<nat, seq<byte>>)
    requires i < |inputs| && AnchorsPrimary(inputs[i]) && LogOk(s, inputs) && Accounted(s, initial)
    ensures var t := PassOver(s, inputs[i], starts, segs).state; LogOk(t, inputs) && Accounted(t, initial)
    decreases |segs|
  {
    if segs != [] {
      var n := |segs| - 1;
      PassKeepsLog(s, inputs, i, starts, segs[..n], initial);
      if segs[n].index.Some? {
        var before := PassOver(s, inputs[i], starts, segs[..n]).state;
        OneKeepsLog(before, inputs, i, segs[n].index.value, StartAt(starts, segs[n].index.value), initial);
      }
    }
  }

  lemma OneKeepsLog(s: State, inputs: seq<Input>, i: nat, index: nat, start: real, initial: map<nat, seq<byte>>)
    requires i < |inputs| && AnchorsPrimary(inputs[i]) && LogOk(s, inputs) && Accounted(s, initial)
    ensures var t := PublishOne(s, inputs[i], index, start).state; LogOk(t, inputs) && Accounted(t, initial)
  {
    if index !in s.servable && Complete(inputs[i], index) {
      SettleKeepsLog(s, inputs, i, index, start, initial);
    }
  }

  lemma {:induction false} RunLog(startSec: real, states: seq<State>, inputs: seq<Input>, n: nat)
    requires Run(startSec, states, inputs) && n <= |inputs| && forall input <- inputs :: AnchorsPrimary(input)
    ensures LogOk(states[n], inputs) && Accounted(states[n], states[0].servable)
    decreases n
  {
    if n > 0 {
      RunLog(startSec, states, inputs, n - 1);
      assert inputs[n - 1] in inputs;
      var segs := inputs[n - 1].playlist.segments;
      PassKeepsLog(states[n - 1], inputs, n - 1, AbsoluteStarts(segs, startSec), segs, states[0].servable);
      assert states[n - 1 + 1] == Pass(states[n - 1], inputs[n - 1], startSec).state;
    }
  }

  lemma {:induction false} PrefixGrows(segs: seq<Segment>, more: seq<Segment>, published: set<nat>, larger: set<nat>)
    requires segs <= more && published <= larger
    ensures Prefix(segs, published) <= Prefix(more, larger)
  {
    if segs != [] {
      assert more[0] == segs[0] && segs[1..] <= more[1..];
      PrefixGrows(segs[1..], more[1..], published, larger);
    }
  }

  /** What pass `i` emits, if it emits. */
  function Emission(states: seq<State>, inputs: seq<Input>, i: nat): seq<Segment>
    requires i < |inputs| && i + 1 < |states|
  {
    Prefix(inputs[i].playlist.segments, states[i + 1].published)
  }

  /** Every emitted playlist extends the one before it, and lists only segments that are published and in place. */
  lemma EmissionsExtend(startSec: real, states: seq<State>, inputs: seq<Input>, i: nat, j: nat)
    requires Run(startSec, states, inputs) && i <= j < |inputs|
    ensures Emission(states, inputs, i) <= Emission(states, inputs, j)
    ensures forall e <- Emission(states, inputs, j) :: e.index.Some? && e.index.value in states[j + 1].servable
  {
    ListGrows(startSec, states, inputs, i, j);
    PublishedGrows(startSec, states, inputs, i + 1, j + 1);
    PrefixGrows(inputs[i].playlist.segments, inputs[j].playlist.segments, states[i + 1].published, states[j + 1].published);
    PrefixNamesSegments(inputs[j].playlist.segments, states[j + 1].published);
    RunConsistent(startSec, states, inputs, j + 1);
  }

  ghost predicate AllPublished(segs: seq<Segment>, published: set<nat>) {
    forall s <- segs :: s.index.Some? && s.index.value in published
  }

  lemma {:induction false} FullPrefix(segs: seq<Segment>, published: set<nat>)
    ensures |Prefix(segs, published)| == |segs| <==> AllPublished(segs, published)
    ensures AllPublished(segs, published) ==> Prefix(segs, published) == segs
  {
    if segs != [] {
      FullPrefix(segs[1..], published);
      PrefixNamesSegments(segs[1..], published);
      assert segs == [segs[0]] + segs[1..];
    }
  }

  /** A generation is complete exactly when the list has ended, is not empty, and every listed segment is published. */
  lemma CompleteMeansAllPublished(p: Playlist, published: set<nat>)
    ensures StatusOf(p, published).complete <==> p.endList && p.segments != [] && AllPublished(p.segments, published)
    ensures StatusOf(p, published).endList == p.endList
    ensures StatusOf(p, published).complete ==> StatusOf(p, published).producedSec == SumDur(p.segments)
  {
    FullPrefix(p.segments, published);
  }

  /** The indices in a status are those of the first and the last entry it emits. */
  lemma {:induction false} StatusNamesEnds(p: Playlist, published: set<nat>)
    ensures var entries, status := Prefix(p.segments, published), StatusOf(p, published);
      entries != [] ==>
        && entries[0].index.Some? && status.firstIndex == entries[0].index.value
        && entries[|entries| - 1].index.Some? && status.lastReadyIndex == entries[|entries| - 1].index.value
    decreases |p.segments|
  {
    PrefixNamesSegments(p.segments, published);
    if p.segments != [] && p.segments[0].index == None {
      StatusNamesEnds(Playlist(p.segments[1..], p.endList), published);
    }
  }

  /** A status names no index exactly when there is none to name. */
  lemma {:induction false} StatusNamesNone(p: Playlist, published: set<nat>)
    ensures StatusOf(p, published).firstIndex == -1 <==> forall seg <- p.segments :: seg.index == None
    ensures StatusOf(p, published).lastReadyIndex == -1 <==> Prefix(p.segments, published) == []
    decreases |p.segments|
  {
    PrefixNamesSegments(p.segments, published);
    if p.segments != [] {
      StatusNamesNone(Playlist(p.segments[1..], p.endList), published);
      assert p.segments == [p.segments[0]] + p.segments[1..];
    }
  }

  // ---- the emitted position of a segment

  /** The listed segments that name no index, which the emitted playlist leaves out. */
  function Unnamed(segs: seq<Segment>): seq<Segment> {
    if segs == [] then []
    else
      var n := |segs| - 1;
      if segs[n].index == None then Unnamed(segs[..n]) + [segs[n]] else Unnamed(segs[..n])
  }

  /** The entries that name a segment. */
  function Named(segs: seq<Segment>): seq<Segment> {
    if segs == [] then []
    else
      var n := |segs| - 1;
      if segs[n].index == None then Named(segs[..n]) else Named(segs[..n]) + [segs[n]]
  }

  lemma SumDurLast(segs: seq<Segment>, s: Segment)
    ensures SumDur(segs + [s]) == SumDur(segs) + s.dur
  {
    assert (segs + [s])[..|segs|] == segs;
  }

  lemma {:induction false} SumSplits(segs: seq<Segment>)
    ensures SumDur(segs) == SumDur(Named(segs)) + SumDur(Unnamed(segs))
  {
    if segs != [] {
      var n := |segs| - 1;
      SumSplits(segs[..n]);
      SumDurLast(Named(segs[..n]), segs[n]);
      SumDurLast(Unnamed(segs[..n]), segs[n]);
    }
  }

  lemma {:induction false} NamedFirst(s: Segment, segs: seq<Segment>)
    ensures Named([s] + segs) == (if s.index == None then [] else [s]) + Named(segs)
    decreases |segs|
  {
    if segs == [] {
      assert [s] + segs == [s] && [s][..0] == [];
    } else {
      var n := |segs| - 1;
      assert ([s] + segs)[..n + 1] == [s] + segs[..n];
      NamedFirst(s, segs[..n]);
    }
  }

  /** The served entries are the longest run of published ones from the first entry that names a segment. */
  lemma {:induction false} PrefixIsLongest(segs: seq<Segment>, published: set<nat>)
    ensures var n := |Prefix(segs, published)|;
      && n <= |Named(segs)| && Prefix(segs, published) == Named(segs)[..n]
      && (forall i :: 0 <= i < n ==> Named(segs)[i].index.Some? && Named(segs)[i].index.value in published)
      && (n < |Named(segs)| ==> Named(segs)[n].index.Some? && Named(segs)[n].index.value !in published)
  {
    if segs != [] {
      assert segs == [segs[0]] + segs[1..];
      NamedFirst(segs[0], segs[1..]);
      PrefixIsLongest(segs[1..], published);
    }
  }

  /** Entry `j` of the emitted prefix, in the list: the entries emitted before it are the named ones listed before it. */
  lemma {:induction false} EmittedAt(segs: seq<Segment>, published: set<nat>, j: nat) returns (p: nat)
    requires j < |Prefix(segs, published)|
    ensures p < |segs| && segs[p] == Prefix(segs, published)[j] && segs[p].index.Some?
    ensures Prefix(segs, published)[..j] == Named(segs[..p])
    decreases |segs|
  {
    var first := if segs[0].index == None then [] else [segs[0]];
    if first == [] || j > 0 {
      var q := EmittedAt(segs[1..], published, j - |first|);
      p := q + 1;
      assert segs[..p] == [segs[0]] + segs[1..][..q];
      NamedFirst(segs[0], segs[1..][..q]);
      assert Prefix(segs, published)[..j] == first + Prefix(segs[1..], published)[..j - |first|];
    } else {
      p := 0;
    }
  }

  /**
    * A player places an emitted entry at the sum of the emitted lengths before it. That is where the entry's file was
    * aligned, relative to the origin, if and only if the listed entries left out before it have no length.
    */
  lemma EmittedPositionIsAligned(segs: seq<Segment>, published: set<nat>, startSec: real, j: nat) returns (p: nat)
    requires Distinct(segs) && j < |Prefix(segs, published)|
    ensures var entries := Prefix(segs, published);
      && p < |segs| && segs[p] == entries[j] && entries[j].index.Some?
      && (StartAt(AbsoluteStarts(segs, startSec), entries[j].index.value)
             == (if startSec > 0.0 then startSec else 0.0) + SumDur(entries[..j])
          <==> SumDur(Unnamed(segs[..p])) == 0.0)
  {
    p := EmittedAt(segs, published, j);
    StartsAt(segs, p);
    SumSplits(segs[..p]);
  }
}
