/** What one publishing pass does, said of the list and the disk: what it publishes, when it fails, and at which segment. */
module PublishPass {
  import opened Wrappers
  import opened Bytes
  import opened FirstTimes
  import opened Align
  import opened Publisher

  ghost predicate Lists(segs: seq<Segment>, index: nat) {
    exists seg <- segs :: seg.index == Some(index)
  }

  /** What a pass has to publish an index from: a file already in place, or a closed raw file that is a fragment. */
  predicate Available(s: State, input: Input, index: nat) {
    index in s.servable || (index in input.raw && IsFragment(input.raw[index]))
  }

  /** The index still has to be aligned, and its alignment fails or a write of it does. */
  predicate Meets(s: State, input: Input, starts: map<nat, real>, index: nat) {
    && index !in s.published && index !in s.servable
    && index in input.raw && IsFragment(input.raw[index])
    && (|| AlignWith(input.raw[index], if index in starts then starts[index] else 0.0, input.timescales,
                     if index in input.primary then input.primary[index] else 1) == None
        || (index in input.faults && input.faults[index] != Works))
  }

  /** Its alignment goes well, and the write that fails comes after the file is in place. */
  predicate LeftInPlace(input: Input, starts: map<nat, real>, index: nat)
    requires index in input.raw
  {
    && AlignWith(input.raw[index], if index in starts then starts[index] else 0.0, input.timescales,
                 if index in input.primary then input.primary[index] else 1).Some?
    && index in input.faults && input.faults[index] == FailsAfter
  }

  /** The entry at p is the first of the list to meet a failure. */
  predicate FailsAt(s: State, input: Input, starts: map<nat, real>, segs: seq<Segment>, p: nat) {
    && p < |segs| && segs[p].index.Some? && Meets(s, input, starts, segs[p].index.value)
    && forall q :: 0 <= q < p && segs[q].index.Some? ==> !Meets(s, input, starts, segs[q].index.value)
  }

  /** What a pass over entries that meet no failure leaves: published what it can, and in place what it aligned for that. */
  ghost predicate Leaves(s: State, input: Input, segs: seq<Segment>, t: State) {
    && (forall k: nat :: k in t.published <==> k in s.published || (Lists(segs, k) && Available(s, input, k)))
    && (forall k: nat :: k in t.servable <==>
          k in s.servable || (Lists(segs, k) && k !in s.published && Available(s, input, k)))
    && (forall k <- s.servable :: t.servable[k] == s.servable[k])
  }

  lemma ListsNext(segs: seq<Segment>, seg: Segment)
    ensures forall k: nat :: Lists(segs + [seg], k) <==> Lists(segs, k) || seg.index == Some(k)
  {
    forall k: nat
      ensures Lists(segs + [seg], k) <==> Lists(segs, k) || seg.index == Some(k)
    {
      if Lists(segs, k) {
        var e :| e in segs && e.index == Some(k);
        assert e in segs + [seg];
      }
      assert seg in segs + [seg];
    }
  }

  /** One entry that meets no failure, after others that met none. */
  lemma OneLeaves(s: State, input: Input, starts: map<nat, real>, segs: seq<Segment>, index: nat, t: State)
    requires Leaves(s, input, segs, t) && !Meets(s, input, starts, index)
    ensures var one := PublishOne(t, input, index, StartAt(starts, index));
      && one.ok
      && (forall k: nat :: k in one.state.published <==>
            k in s.published || ((Lists(segs, k) || k == index) && Available(s, input, k)))
      && (forall k: nat :: k in one.state.servable <==>
            k in s.servable || ((Lists(segs, k) || k == index) && k !in s.published && Available(s, input, k)))
      && (forall k <- s.servable :: one.state.servable[k] == s.servable[k])
  {}

  /** An entry that meets a failure, after others that met none, ends the pass with nothing published by it. */
  lemma OneFails(s: State, input: Input, starts: map<nat, real>, segs: seq<Segment>, index: nat, t: State)
    requires Leaves(s, input, segs, t) && Meets(s, input, starts, index)
    requires !Lists(segs, index)
    ensures var one := PublishOne(t, input, index, StartAt(starts, index));
      && !one.ok && one.state.published == t.published
      && (index in one.state.servable <==> LeftInPlace(input, starts, index))
  {}

  /** The pass over a list without failures. */
  lemma {:induction false} CleanPass(s: State, input: Input, starts: map<nat, real>, segs: seq<Segment>)
    requires forall q :: 0 <= q < |segs| && segs[q].index.Some? ==> !Meets(s, input, starts, segs[q].index.value)
    ensures var r := PassOver(s, input, starts, segs); r.ok && Leaves(s, input, segs, r.state)
    decreases |segs|
  {
    if segs != [] {
      var n := |segs| - 1;
      CleanPass(s, input, starts, segs[..n]);
      var before := PassOver(s, input, starts, segs[..n]).state;
      assert segs == segs[..n] + [segs[n]];
      ListsNext(segs[..n], segs[n]);
      if segs[n].index.Some? {
        OneLeaves(s, input, starts, segs[..n], segs[n].index.value, before);
      }
    }
  }

  lemma NotListedBefore(s: State, input: Input, starts: map<nat, real>, segs: seq<Segment>, p: nat)
    requires FailsAt(s, input, starts, segs, p)
    ensures !Lists(segs[..p], segs[p].index.value)
  {}

  /** The pass ends at the first entry that meets a failure: what is published is what the entries before it allow. */
  lemma StoppedPass(s: State, input: Input, starts: map<nat, real>, segs: seq<Segment>, p: nat)
    requires FailsAt(s, input, starts, segs, p)
    ensures var r := PassOver(s, input, starts, segs);
      && !r.ok
      && (forall k: nat :: k in r.state.published <==> k in s.published || (Lists(segs[..p], k) && Available(s, input, k)))
      && (segs[p].index.value in r.state.servable <==> LeftInPlace(input, starts, segs[p].index.value))
  {
    CleanPass(s, input, starts, segs[..p]);
    NotListedBefore(s, input, starts, segs, p);
    assert segs[..p + 1][..p] == segs[..p];
    OneFails(s, input, starts, segs[..p], segs[p].index.value, PassOver(s, input, starts, segs[..p]).state);
    PassStopped(s, input, starts, segs, p + 1);
  }

  /** A list with a failure in it has a first one. */
  lemma {:induction false} FirstFailure(s: State, input: Input, starts: map<nat, real>, segs: seq<Segment>, q: nat)
    returns (p: nat)
    requires q < |segs| && segs[q].index.Some? && Meets(s, input, starts, segs[q].index.value)
    ensures FailsAt(s, input, starts, segs, p)
    decreases q
  {
    if r :| 0 <= r < q && segs[r].index.Some? && Meets(s, input, starts, segs[r].index.value) {
      p := FirstFailure(s, input, starts, segs, r);
    } else {
      p := q;
    }
  }

  /**
    * A pass fails if and only if some listed index has still to be aligned and its alignment or a write of it fails; it is
    * then the first such entry that ends it, what is published is what the entries before that one allow, and the file of
    * that one is in place exactly when the write that failed came after it.
    */
  lemma PassFailsIff(s: State, input: Input, startSec: real)
    ensures var segs := input.playlist.segments;
      var starts := AbsoluteStarts(segs, startSec);
      && (!Pass(s, input, startSec).ok <==> exists index: nat :: Lists(segs, index) && Meets(s, input, starts, index))
      && forall p: nat :: FailsAt(s, input, starts, segs, p) ==>
           && !Pass(s, input, startSec).ok
           && (forall k: nat :: k in Pass(s, input, startSec).state.published <==>
                 k in s.published || (Lists(segs[..p], k) && Available(s, input, k)))
           && (segs[p].index.value in Pass(s, input, startSec).state.servable <==>
                 LeftInPlace(input, starts, segs[p].index.value))
  {
    var segs := input.playlist.segments;
    var starts := AbsoluteStarts(segs, startSec);
    if index: nat :| Lists(segs, index) && Meets(s, input, starts, index) {
      var e :| e in segs && e.index == Some(index);
      var q :| 0 <= q < |segs| && segs[q] == e;
      var p := FirstFailure(s, input, starts, segs, q);
      StoppedPass(s, input, starts, segs, p);
    } else {
      forall q | 0 <= q < |segs| && segs[q].index.Some?
        ensures !Meets(s, input, starts, segs[q].index.value)
      {
        assert segs[q] in segs && Lists(segs, segs[q].index.value);
      }
      CleanPass(s, input, starts, segs);
    }
    forall p: nat | FailsAt(s, input, starts, segs, p)
      ensures !Pass(s, input, startSec).ok
      ensures forall k: nat :: k in Pass(s, input, startSec).state.published <==>
                k in s.published || (Lists(segs[..p], k) && Available(s, input, k))
      ensures segs[p].index.value in Pass(s, input, startSec).state.servable <==>
              LeftInPlace(input, starts, segs[p].index.value)
    {
      StoppedPass(s, input, starts, segs, p);
    }
  }

  /**
    * A pass that ends well publishes an index if and only if it was published before, or it is listed and either its
    * servable file was in place or its raw file is closed and a fragment; and it puts in place exactly the files it aligned.
    */
  lemma PassPublishesIff(s: State, input: Input, startSec: real)
    requires Pass(s, input, startSec).ok
    ensures var t := Pass(s, input, startSec).state;
      && (forall k: nat :: k in t.published <==>
            || k in s.published
            || (Lists(input.playlist.segments, k) && (k in s.servable || (k in input.raw && IsFragment(input.raw[k])))))
      && (forall k: nat :: k in t.servable <==>
            || k in s.servable
            || (Lists(input.playlist.segments, k) && k !in s.published && k in input.raw && IsFragment(input.raw[k])))
  {
    var segs := input.playlist.segments;
    PassFailsIff(s, input, startSec);
    forall q | 0 <= q < |segs| && segs[q].index.Some?
      ensures !Meets(s, input, AbsoluteStarts(segs, startSec), segs[q].index.value)
    {
      assert segs[q] in segs && Lists(segs, segs[q].index.value);
    }
    CleanPass(s, input, AbsoluteStarts(segs, startSec), segs);
  }

  /** Over whole runs: a segment that is closed and listed when a pass ends well is published from that pass on. */
  lemma ClosedIsPublished(startSec: real, states: seq<State>, inputs: seq<Input>, i: nat, j: nat, index: nat)
    requires Run(startSec, states, inputs) && i < j <= |inputs| && Pass(states[i], inputs[i], startSec).ok
    requires Lists(inputs[i].playlist.segments, index)
    requires index in inputs[i].raw && IsFragment(inputs[i].raw[index])
    ensures index in states[j].published
  {
    PassPublishesIff(states[i], inputs[i], startSec);
    PublishedGrows(startSec, states, inputs, i + 1, j);
  }

  /** When the list has ended and names nothing but closed segments, a pass that ends well completes the served playlist. */
  lemma ClosedListCompletes(s: State, input: Input, startSec: real)
    requires Pass(s, input, startSec).ok && input.playlist.endList && input.playlist.segments != []
    requires forall seg <- input.playlist.segments ::
      seg.index.Some? && seg.index.value in input.raw && IsFragment(input.raw[seg.index.value])
    ensures var t := Pass(s, input, startSec).state;
      && Prefix(input.playlist.segments, t.published) == input.playlist.segments
      && StatusOf(input.playlist, t.published).complete
  {
    var segs, t := input.playlist.segments, Pass(s, input, startSec).state;
    PassPublishesIff(s, input, startSec);
    forall seg <- segs
      ensures seg.index.value in t.published
    {
      assert Lists(segs, seg.index.value);
    }
    WholePrefix(segs, t.published);
  }

  lemma {:induction false} WholePrefix(segs: seq<Segment>, published: set<nat>)
    requires forall seg <- segs :: seg.index.Some? && seg.index.value in published
    ensures Prefix(segs, published) == segs
  {
    if segs != [] {
      assert segs[0] in segs && forall seg <- segs[1..] :: seg in segs;
      WholePrefix(segs[1..], published);
      assert segs == [segs[0]] + segs[1..];
    }
  }

  lemma {:induction false} ChangedGrows(s: State, input: Input, starts: map<nat, real>, segs: seq<Segment>)
    ensures var r := PassOver(s, input, starts, segs);
      s.published <= r.state.published && (r.changed <==> r.state.published != s.published)
    decreases |segs|
  {
    if segs != [] {
      ChangedGrows(s, input, starts, segs[..|segs| - 1]);
    }
  }

  /** Nothing is taken back by a pass, and what it counts as a change is exactly that it published something. */
  lemma ChangedIff(s: State, input: Input, startSec: real)
    ensures var r := Pass(s, input, startSec);
      s.published <= r.state.published && (r.changed <==> r.state.published != s.published)
  {
    ChangedGrows(s, input, AbsoluteStarts(input.playlist.segments, startSec), input.playlist.segments);
  }
}
