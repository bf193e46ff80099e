/** Publishing and alignment together: where a published fragment stands on the media timeline. */
module PublishedTimeline {
  import opened Wrappers
  import opened Bytes
  import opened BoxTree
  import opened FirstTimes
  import opened Align
  import P = Publisher

  lemma {:induction false} SumNotNegative(segs: seq<P.Segment>)
    requires forall s <- segs :: s.dur >= 0.0
    ensures P.SumDur(segs) >= 0.0
  {
    if segs != [] {
      SumNotNegative(segs[..|segs| - 1]);
    }
  }

  /**
    * A fragment aligned to `start` begins, on its primary track, within half a tick of it, at `pts` ticks a second, and is
    * as publishable as before.
    */
  ghost predicate LandsAt(d: seq<byte>, r: seq<byte>, start: real, pts: real, p: nat) {
    && FirstOf(r).Some? && p in FirstOf(r).value
    && -0.5 <= FirstOf(r).value[p] as real - start * pts <= 0.5
    && (Publishable(r) <==> Publishable(d))
  }

  /** The ticks a second supplied for a track, or else its usual ones. */
  function TicksPerSecond(track: nat, timescales: map<nat, nat>): real {
    if track in timescales && timescales[track] > 0 then timescales[track] as real
    else if track == 2 then 48000.0
    else 90000.0
  }

  lemma AlignedLands(d: seq<byte>, start: real, timescales: map<nat, nat>, p: nat, seconds: real, pts: real)
    requires WellNested(d) && FirstOf(d).Some? && p in FirstOf(d).value && start >= 0.0
    requires seconds == DeltaSec(FirstOf(d).value, p, start, timescales) && InRange(FirstOf(d).value, seconds, timescales)
    requires AlignWith(d, start, timescales, p).Some? && pts == TicksPerSecond(p, timescales)
    ensures LandsAt(d, AlignWith(d, start, timescales, p).value, start, pts, p)
  {
    FragmentLands(d, start, timescales, p, p, seconds, pts, pts);
    AlignKeepsPublishable(d, start, timescales, p, seconds);
  }

  /** The place of a logged alignment in the final list. */
  lemma PlaceOf(startSec: real, states: seq<P.State>, inputs: seq<P.Input>, i: nat) returns (pos: nat)
    requires P.Run(startSec, states, inputs) && |inputs| > 0 && i < |states[|inputs|].log|
    requires forall s <- inputs[|inputs| - 1].playlist.segments :: s.dur >= 0.0
    ensures var segs, a := inputs[|inputs| - 1].playlist.segments, states[|inputs|].log[i];
      && pos < |segs| && segs[pos].index == Some(a.index)
      && a.start == (if startSec > 0.0 then startSec else 0.0) + P.SumDur(segs[..pos]) && a.start >= 0.0
  {
    var segs, a := inputs[|inputs| - 1].playlist.segments, states[|inputs|].log[i];
    P.AlignedOnceInPlace(startSec, states, inputs, i);
    pos :| pos < |segs| && segs[pos].index == Some(a.index) && a.start == (if startSec > 0.0 then startSec else 0.0) + P.SumDur(segs[..pos]);
    SumNotNegative(segs[..pos]);
  }

  /** The shift of a logged alignment, in seconds. */
  function Shift(a: P.Alignment): real
    requires FirstOf(a.fragment).Some? && a.primary in FirstOf(a.fragment).value
  {
    DeltaSec(FirstOf(a.fragment).value, a.primary, a.start, a.timescales)
  }

  lemma GenuineLands(a: P.Alignment)
    requires P.Genuine(a) && a.start >= 0.0
    requires WellNested(a.fragment) && InRange(FirstOf(a.fragment).value, Shift(a), a.timescales)
    ensures LandsAt(a.fragment, a.bytes, a.start, TicksPerSecond(a.primary, a.timescales), a.primary)
  {
    AlignedLands(a.fragment, a.start, a.timescales, a.primary, Shift(a), TicksPerSecond(a.primary, a.timescales));
  }

  /** The logged alignment behind a file in place. */
  lemma EntryOf(startSec: real, states: seq<P.State>, inputs: seq<P.Input>, index: nat) returns (i: nat)
    requires P.Run(startSec, states, inputs) && forall input <- inputs :: P.AnchorsPrimary(input)
    requires index in states[|inputs|].servable && index !in states[0].servable
    ensures var last := states[|inputs|];
      && i < |last.log| && last.log[i].index == index && last.servable[index] == last.log[i].bytes
      && P.Genuine(last.log[i]) && P.FromMuxer(inputs, last.log[i])
  {
    var last := states[|inputs|];
    P.RunLog(startSec, states, inputs, |inputs|);
    P.RunConsistent(startSec, states, inputs, |inputs|);
    i := P.AccountedFor(last, states[0].servable, index);
    assert P.Kept(last, last.log[i]) && last.log[i] in last.log;
  }

  /**
    * From passes to bytes: whatever passes and failures a run had, each file in place that was not there at the start is
    * the aligned raw file of its index from some pass. It was aligned to the origin plus the lengths listed before it in
    * the final playlist; when the raw file is well nested and its shifts fit, the file in place begins there on its
    * primary track to within half a tick, and is publishable exactly when the raw file was.
    */
  lemma PublishedOnTimeline(startSec: real, states: seq<P.State>, inputs: seq<P.Input>, index: nat)
    returns (a: P.Alignment, pos: nat)
    requires P.Run(startSec, states, inputs) && |inputs| > 0
    requires forall input <- inputs :: P.AnchorsPrimary(input)
    requires forall s <- inputs[|inputs| - 1].playlist.segments :: s.dur >= 0.0
    requires index in states[|inputs|].servable && index !in states[0].servable
    ensures var segs := inputs[|inputs| - 1].playlist.segments;
      && pos < |segs| && segs[pos].index == Some(index)
      && a.start == (if startSec > 0.0 then startSec else 0.0) + P.SumDur(segs[..pos])
    ensures a.index == index && P.FromMuxer(inputs, a) && P.Genuine(a) && states[|inputs|].servable[index] == a.bytes
    ensures WellNested(a.fragment) && InRange(FirstOf(a.fragment).value, Shift(a), a.timescales) ==>
              LandsAt(a.fragment, states[|inputs|].servable[index], a.start,
                      TicksPerSecond(a.primary, a.timescales), a.primary)
  {
    var i := EntryOf(startSec, states, inputs, index);
    a := states[|inputs|].log[i];
    pos := PlaceOf(startSec, states, inputs, i);
    if WellNested(a.fragment) && InRange(FirstOf(a.fragment).value, Shift(a), a.timescales) {
      GenuineLands(a);
    }
  }
}
