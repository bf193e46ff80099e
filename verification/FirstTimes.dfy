/**
 * What the readers of mp4/tfdt.go and mp4/hls_validate.go make of the boxes of a fragment: the
 * first decode time of every track, and whether the times of track 1 ever step back. Both are
 * folds over the visited boxes, in the order of the walk.
 */
module FirstTimes {
  import opened Wrappers
  import opened Bytes
  import opened BoxTree
  import opened Tfdt

  predicate IsTraf(n: Node) {
    n.level == InMoof && n.visit.Into? && n.visit.level.InTraf?
  }

  /** firstTFDTByTrack: a traf whose track is already known is skipped; inside the others the last tfdt wins. */
  function First(d: seq<byte>, ns: seq<Node>, first: map<nat, nat>, skip: bool): (r: Option<map<nat, nat>>)
    ensures r.Some? ==> first.Keys <= r.value.Keys
  {
    if ns == [] then Some(first)
    else if !ns[0].level.InTraf? then First(d, ns[1..], first, IsTraf(ns[0]) && ns[0].visit.level.track in first)
    else if ns[0].typ != TFDT || skip then First(d, ns[1..], first, skip)
    else
      match NodeTicks(d, ns[0])
      case None => None
      case Some(t) => First(d, ns[1..], first[ns[0].level.track := t], skip)
  }

  function FirstOf(d: seq<byte>): Option<map<nat, nat>> {
    match FileTree(d)
    case None => None
    case Some(ns) => First(d, ns, map[], false)
  }

  /** validateMonotonicTFDT: the last time of track 1, None once a tfdt is unreadable or steps back. */
  function LastTime(d: seq<byte>, ns: seq<Node>, last: Option<nat>): Option<Option<nat>> {
    if ns == [] then Some(last)
    else if !IsTfdt(ns[0]) || ns[0].level.track != 1 then LastTime(d, ns[1..], last)
    else
      var t := NodeTicks(d, ns[0]);
      if t.None? || (last.Some? && t.value < last.value) then None else LastTime(d, ns[1..], t)
  }

  /** MinHLSParseableFragmentBytes. */
  const MIN_FRAGMENT_BYTES: nat := 64

  /** IsHLSSegmentFragment. */
  predicate IsFragment(d: seq<byte>) {
    |d| >= MIN_FRAGMENT_BYTES && FirstOf(d).Some? && |FirstOf(d).value| > 0
  }

  /** PublishableHLSSegmentFragment. */
  predicate Publishable(d: seq<byte>) {
    IsFragment(d) && LastTime(d, FileTree(d).value, None).Some?
  }

  // ---- The order of the visited boxes. ----

  function TrackAfter(n: Node): Option<nat> {
    if IsTraf(n) then Some(n.visit.level.track) else None
  }

  /** Every tfdt comes after the traf that holds it; `cur` is the track of the last traf met. */
  predicate Ordered(ns: seq<Node>, cur: Option<nat>) {
    ns == [] ||
    if !ns[0].level.InTraf? then Ordered(ns[1..], TrackAfter(ns[0]))
    else (IsTfdt(ns[0]) ==> cur == Some(ns[0].level.track)) && Ordered(ns[1..], cur)
  }

  /** At most one tfdt in each traf (ISO/IEC 14496-12, 8.8.12); `seen` tells that the current one had its tfdt. */
  predicate OnePerTraf(ns: seq<Node>, seen: bool) {
    ns == [] ||
    if !ns[0].level.InTraf? then OnePerTraf(ns[1..], false)
    else if IsTfdt(ns[0]) then !seen && OnePerTraf(ns[1..], true)
    else OnePerTraf(ns[1..], seen)
  }

  lemma {:induction false} OrderedConcat(a: seq<Node>, b: seq<Node>, cur: Option<nat>)
    requires Ordered(a, cur)
    requires forall c :: Ordered(b, c)
    ensures Ordered(a + b, cur)
  {
    if a == [] {
      assert a + b == b;
    } else {
      assert (a + b)[1..] == a[1..] + b;
      OrderedConcat(a[1..], b, if !a[0].level.InTraf? then TrackAfter(a[0]) else cur);
    }
  }

  lemma {:induction false} OneTrafOrdered(ns: seq<Node>, track: nat)
    requires forall n <- ns :: n.level == InTraf(track) && n.visit.Skip?
    ensures Ordered(ns, Some(track))
  {
    if ns != [] {
      assert ns[0] in ns;
      OneTrafOrdered(ns[1..], track);
    }
  }

  lemma {:induction false} TreeOrdered(d: seq<byte>, off: nat, end: int, level: Level, cur: Option<nat>)
    requires Tree(d, off, end, level).Some? && AllSound(d, Tree(d, off, end, level).value)
    requires !level.InTraf?
    ensures Ordered(Tree(d, off, end, level).value, cur)
    decreases 2 - Depth(level), |d| - off
  {
    if HasHeader(d, off, end) {
      TreeStep(d, off, end, level);
      var n := NodeAt(d, off, end, level);
      var kids, rest := Kids(d, n).value, Tree(d, off + n.size, end, level).value;
      assert Ordered(kids, TrackAfter(n)) by {
        if IsTraf(n) {
          TreeWithin(d, off + 8, off + n.size, n.visit.level);
          OneTrafOrdered(kids, n.visit.level.track);
        } else if n.visit.Into? {
          TreeOrdered(d, off + 8, off + n.size, n.visit.level, None);
        }
      }
      forall c ensures Ordered(rest, c) {
        TreeOrdered(d, off + n.size, end, level, c);
      }
      NodeThenOrdered(n, kids, rest, cur);
    }
  }

  lemma NodeThenOrdered(n: Node, kids: seq<Node>, rest: seq<Node>, cur: Option<nat>)
    requires !n.level.InTraf? && Ordered(kids, TrackAfter(n)) && forall c :: Ordered(rest, c)
    ensures Ordered([n] + kids + rest, cur)
  {
    OrderedConcat(kids, rest, TrackAfter(n));
    assert ([n] + kids + rest)[1..] == kids + rest;
  }

  // ---- The first times. ----

  /** Every track with a tfdt gets a first time. */
  lemma {:induction false} FirstCovers(d: seq<byte>, ns: seq<Node>, first: map<nat, nat>, skip: bool, cur: Option<nat>)
    requires First(d, ns, first, skip).Some? && Ordered(ns, cur)
    requires skip && cur.Some? ==> cur.value in first
    ensures forall n <- ns :: IsTfdt(n) ==> n.level.track in First(d, ns, first, skip).value
  {
    if ns != [] {
      var n, first' := ns[0], first;
      if !n.level.InTraf? {
        FirstCovers(d, ns[1..], first, IsTraf(n) && n.visit.level.track in first, TrackAfter(n));
      } else if n.typ != TFDT || skip {
        FirstCovers(d, ns[1..], first, skip, cur);
      } else {
        first' := first[n.level.track := NodeTicks(d, n).value];
        FirstCovers(d, ns[1..], first', skip, cur);
      }
      assert first'.Keys <= First(d, ns, first, skip).value.Keys;
      forall m <- ns | IsTfdt(m) ensures m.level.track in First(d, ns, first, skip).value {
        if m != n { assert m in ns[1..]; }
      }
    }
  }

  /** A track's first time is not overwritten by a later traf. */
  lemma {:induction false} FirstStable(d: seq<byte>, ns: seq<Node>, first: map<nat, nat>, skip: bool, cur: Option<nat>,
                                       seen: bool, track: nat)
    requires First(d, ns, first, skip).Some? && Ordered(ns, cur) && OnePerTraf(ns, seen)
    requires track in first && (skip || seen || cur != Some(track))
    ensures First(d, ns, first, skip).value[track] == first[track]
  {
    if ns != [] {
      var n := ns[0];
      if !n.level.InTraf? {
        FirstStable(d, ns[1..], first, IsTraf(n) && n.visit.level.track in first, TrackAfter(n), false, track);
      } else if n.typ != TFDT || skip {
        FirstStable(d, ns[1..], first, skip, cur, seen || IsTfdt(n), track);
      } else {
        FirstStable(d, ns[1..], first[n.level.track := NodeTicks(d, n).value], skip, cur, true, track);
      }
    }
  }

  /** The times of each track never step back, in the order of the walk. */
  predicate NonDecreasing(d: seq<byte>, ns: seq<Node>) {
    forall i, j :: 0 <= i < j < |ns| && IsTfdt(ns[i]) && IsTfdt(ns[j]) && ns[i].level.track == ns[j].level.track
        && NodeTicks(d, ns[i]).Some? && NodeTicks(d, ns[j]).Some?
      ==> NodeTicks(d, ns[i]).value <= NodeTicks(d, ns[j]).value
  }

  /** No tfdt is earlier than its track's first time. */
  predicate NoneEarlier(d: seq<byte>, ns: seq<Node>, first: map<nat, nat>) {
    forall n <- ns :: IsTfdt(n) && NodeTicks(d, n).Some? && n.level.track in first ==>
      first[n.level.track] <= NodeTicks(d, n).value
  }

  lemma {:induction false} FirstIsEarliest(d: seq<byte>, ns: seq<Node>, first: map<nat, nat>, skip: bool, cur: Option<nat>,
                                           seen: bool)
    requires First(d, ns, first, skip).Some? && Ordered(ns, cur) && OnePerTraf(ns, seen) && NonDecreasing(d, ns)
    requires cur.Some? && !skip && !seen ==> cur.value !in first
    requires cur.Some? && skip ==> cur.value in first
    ensures forall n <- ns :: IsTfdt(n) && NodeTicks(d, n).Some? && n.level.track !in first ==>
              n.level.track in First(d, ns, first, skip).value
              && First(d, ns, first, skip).value[n.level.track] <= NodeTicks(d, n).value
  {
    if ns != [] {
      var n, rest, result := ns[0], ns[1..], First(d, ns, first, skip).value;
      FirstCovers(d, ns, first, skip, cur);
      assert NonDecreasing(d, rest) by {
        assert forall i :: 0 <= i < |rest| ==> rest[i] == ns[i + 1];
      }
      var first' := first;
      if !n.level.InTraf? {
        FirstIsEarliest(d, rest, first, IsTraf(n) && n.visit.level.track in first, TrackAfter(n), false);
      } else if n.typ != TFDT || skip {
        FirstIsEarliest(d, rest, first, skip, cur, seen || IsTfdt(n));
      } else {
        first' := first[n.level.track := NodeTicks(d, n).value];
        FirstIsEarliest(d, rest, first', skip, cur, true);
        FirstStable(d, rest, first', skip, cur, true, n.level.track);
      }
      forall m <- ns | IsTfdt(m) && NodeTicks(d, m).Some? && m.level.track !in first
        ensures result[m.level.track] <= NodeTicks(d, m).value
      {
        if m.level.track in first' {
          var j :| 0 <= j < |ns| && ns[j] == m;
          assert NodeTicks(d, ns[0]).value <= NodeTicks(d, ns[j]).value;
        } else {
          assert m in rest by { assert m != n; }
        }
      }
    }
  }

  /** With nondecreasing times and one tfdt to a traf, the first time of a track is its earliest. */
  lemma FirstOfIsEarliest(d: seq<byte>)
    requires WellNested(d) && FirstOf(d).Some?
    requires OnePerTraf(FileTree(d).value, false) && NonDecreasing(d, FileTree(d).value)
    ensures NoneEarlier(d, FileTree(d).value, FirstOf(d).value)
  {
    TreeOrdered(d, 0, |d|, TopLevel, None);
    FirstIsEarliest(d, FileTree(d).value, map[], false, None, false);
  }


  // ---- What counts as a fragment. ----

  /** Only tracks with a tfdt get a first time. */
  lemma {:induction false} FirstNames(d: seq<byte>, ns: seq<Node>, first: map<nat, nat>, skip: bool, track: nat)
    requires First(d, ns, first, skip).Some? && track in First(d, ns, first, skip).value
    ensures track in first || exists n <- ns :: IsTfdt(n) && n.level.track == track
  {
    if ns != [] && track !in first {
      var n, rest := ns[0], ns[1..];
      assert n in ns && forall m <- rest :: m in ns;
      if !n.level.InTraf? {
        FirstNames(d, rest, first, IsTraf(n) && n.visit.level.track in first, track);
      } else if n.typ != TFDT || skip {
        FirstNames(d, rest, first, skip, track);
      } else {
        FirstNames(d, rest, first[n.level.track := NodeTicks(d, n).value], skip, track);
      }
    }
  }

  /** A fragment is a buffer of 64 bytes or more whose first times can be read and are not empty. */
  lemma IsFragmentIff(d: seq<byte>)
    ensures IsFragment(d) <==> |d| >= 64 && FirstOf(d).Some? && exists track :: track in FirstOf(d).value
  {
    if FirstOf(d).Some? && |FirstOf(d).value| > 0 {
      var track :| track in FirstOf(d).value;
    }
  }

  /** In well-nested bytes that says: some traf has a tfdt. */
  lemma FragmentHasTime(d: seq<byte>)
    requires WellNested(d)
    ensures IsFragment(d) <==> |d| >= 64 && FirstOf(d).Some? && exists n <- FileTree(d).value :: IsTfdt(n)
  {
    IsFragmentIff(d);
    if FirstOf(d).Some? {
      TreeOrdered(d, 0, |d|, TopLevel, None);
      FirstCovers(d, FileTree(d).value, map[], false, None);
      forall track | track in FirstOf(d).value
        ensures exists n <- FileTree(d).value :: IsTfdt(n)
      {
        FirstNames(d, FileTree(d).value, map[], false, track);
      }
    }
  }
}
