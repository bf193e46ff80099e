/** Fragments, byte for byte, that show where the results on alignment and on the publishable check end. */
module Limits {
  import opened Wrappers
  import opened Bytes
  import opened BoxTree
  import opened Tfdt
  import opened FirstTimes
  import opened Align

  // ---- the walk of a list of boxes, one turn at a time

  /** A range with a leaf box at its front. */
  lemma LeafFirst(d: seq<byte>, off: nat, end: int, level: Level, rest: seq<Node>)
    requires HasHeader(d, off, end) && U32(d, off) >= 8 && Callback(d, off, level) == Skip
    requires Tree(d, off + U32(d, off), end, level) == Some(rest)
    ensures Tree(d, off, end, level) == Some([NodeAt(d, off, end, level)] + rest)
  {
    assert [NodeAt(d, off, end, level)] + [] + rest == [NodeAt(d, off, end, level)] + rest;
  }

  /** A range with a box at its front whose children are walked. */
  lemma ParentFirst(d: seq<byte>, off: nat, end: int, level: Level, inner: Level, kids: seq<Node>, rest: seq<Node>)
    requires HasHeader(d, off, end) && U32(d, off) >= 8 && Callback(d, off, level) == Into(inner)
    requires Tree(d, off + 8, off + U32(d, off), inner) == Some(kids)
    requires Tree(d, off + U32(d, off), end, level) == Some(rest)
    ensures Tree(d, off, end, level) == Some([NodeAt(d, off, end, level)] + kids + rest)
  {}

  lemma NothingLeft(d: seq<byte>, off: nat, end: int, level: Level)
    requires off + 8 > end || off + 8 > |d|
    ensures Tree(d, off, end, level) == Some([])
  {}

  // ---- a time that swings

  /** A moof with one traf that holds nothing but a tfdt of version 0. */
  function OneTime(time: byte): seq<byte> {
    [0, 0, 0, 32, 0x6d, 0x6f, 0x6f, 0x66,
     0, 0, 0, 24, 0x74, 0x72, 0x61, 0x66,
     0, 0, 0, 16, 0x74, 0x66, 0x64, 0x74, 0, 0, 0, 0, 0, 0, 0, time]
  }

  function OneTimeNodes(): seq<Node> {
    [Node(TopLevel, 0, 32, MOOF, 32, Into(InMoof)), Node(InMoof, 8, 24, TRAF, 32, Into(InTraf(1))),
     Node(InTraf(1), 16, 16, TFDT, 32, Skip)]
  }

  lemma OneTimeBoxes(time: byte)
    ensures var d := OneTime(time);
      && U32(d, 0) == 32 && U32(d, 4) == MOOF && U32(d, 8) == 24 && U32(d, 12) == TRAF
      && U32(d, 16) == 16 && U32(d, 20) == TFDT && d[24] == 0 && U32(d, 28) == time as nat
  {
    OneTimeOuter(time);
  }

  lemma OneTimeOuter(time: byte)
    ensures var d := OneTime(time); U32(d, 0) == 32 && U32(d, 4) == MOOF && U32(d, 8) == 24 && U32(d, 12) == TRAF
  {}

  lemma OneTimeTree(time: byte)
    ensures FileTree(OneTime(time)) == Some(OneTimeNodes())
  {
    var d, ns := OneTime(time), OneTimeNodes();
    OneTimeBoxes(time);
    assert TrackId(d, 32, 32, 1) == Some(1);
    assert TrackId(d, 16, 32, 1) == Some(1);
    TreeOfOne(d, ns);
  }

  /** A file of one moof with one traf with one leaf. */
  lemma TreeOfOne(d: seq<byte>, ns: seq<Node>)
    requires |d| == 32 && |ns| == 3
    requires U32(d, 0) == 32 && NodeAt(d, 0, 32, TopLevel) == ns[0] && ns[0].visit == Into(InMoof)
    requires U32(d, 8) == 24 && NodeAt(d, 8, 32, InMoof) == ns[1] && ns[1].visit.Into?
    requires U32(d, 16) == 16 && NodeAt(d, 16, 32, ns[1].visit.level) == ns[2] && ns[2].visit == Skip
    ensures FileTree(d) == Some(ns)
  {
    var inner := ns[1].visit.level;
    NothingLeft(d, 32, 32, inner);
    NothingLeft(d, 32, 32, InMoof);
    NothingLeft(d, 32, 32, TopLevel);
    LeafFirst(d, 16, 32, inner, []);
    assert [ns[2]] + [] == [ns[2]];
    ParentFirst(d, 8, 32, InMoof, inner, [ns[2]], []);
    assert [ns[1]] + [ns[2]] + [] == [ns[1], ns[2]];
    ParentFirst(d, 0, 32, TopLevel, InMoof, [ns[1], ns[2]], []);
    assert [ns[0]] + [ns[1], ns[2]] + [] == ns;
  }

  lemma OneTimeFirst(time: byte)
    ensures WellNested(OneTime(time)) && FirstOf(OneTime(time)) == Some(map[1 := time as nat])
  {
    var d, ns := OneTime(time), OneTimeNodes();
    OneTimeTree(time);
    assert U32(d, 28) == time as nat;
    assert NodeTicks(d, ns[2]) == Some(time as nat);
    assert ns[1..] == [ns[1], ns[2]] && ns[1..][1..] == [ns[2]] && [ns[2]][1..] == [];
    assert First(d, [ns[2]], map[], false) == Some(map[1 := time as nat]);
    assert First(d, [ns[1], ns[2]], map[], false) == Some(map[1 := time as nat]);
  }

  /** The only fragment of this kind with a given first time. */
  lemma OneTimeShifted(time: byte, next: byte, r: seq<byte>, deltas: map<nat, int>)
    requires Shifted(OneTime(time), r, OneTimeNodes(), deltas) && 1 in deltas && time as int + deltas[1] == next as int
    ensures r == OneTime(next)
  {
    var d, n := OneTime(time), OneTimeNodes()[2];
    OneTimeBoxes(time);
    assert TimeMoved(d, r, n, deltas) && NodeTicks(d, n) == Some(time as nat);
    forall i: nat | i < 28
      ensures r[i] == d[i]
    {
      assert !TimeByte(d, OneTimeNodes(), i);
    }
    assert U32(r, 28) == next as nat;
    SmallU32(r, 28, next);
  }

  lemma SmallU32(r: seq<byte>, off: nat, n: byte)
    requires off + 4 <= |r| && U32(r, off) == n as nat
    ensures r[off] == 0 && r[off + 1] == 0 && r[off + 2] == 0 && r[off + 3] == n
  {}

  /** A quarter of a second is half a tick at two ticks a second, and half a tick is rounded away from where the time is. */
  lemma SwingDelta(time: byte, first: map<nat, nat>, timescales: map<nat, nat>)
    requires time as nat <= 1 && first == map[1 := time as nat] && timescales == map[1 := 2]
    ensures var seconds := DeltaSec(first, 1, 0.25, timescales);
      && InRange(first, seconds, timescales)
      && Deltas(first, seconds, timescales) == map[1 := if time == 0 then 1 else -1]
  {
    var seconds := DeltaSec(first, 1, 0.25, timescales);
    assert seconds == if time == 0 then 0.25 else -0.25;
    assert RawDelta(1, seconds, timescales) == if time == 0 then 1 else -1;
  }

  lemma SwingFits(time: byte, deltas: map<nat, int>)
    requires time as nat <= 1 && deltas == map[1 := if time == 0 then 1 else -1]
    ensures AllFit(OneTime(time), OneTimeNodes(), deltas)
  {
    OneTimeBoxes(time);
    assert NodeTicks(OneTime(time), OneTimeNodes()[2]) == Some(time as nat);
  }

  lemma AlignedIsShifted(d: seq<byte>, ns: seq<Node>, start: real, timescales: map<nat, nat>, p: nat, first: map<nat, nat>,
                         seconds: real)
    requires WellNested(d) && FileTree(d) == Some(ns) && FirstOf(d) == Some(first) && p in first
    requires seconds == DeltaSec(first, p, start, timescales) && InRange(first, seconds, timescales)
    requires AllFit(d, ns, Deltas(first, seconds, timescales))
    ensures var r := AlignWith(d, start, timescales, p);
      r.Some? && Shifted(d, r.value, ns, Deltas(first, seconds, timescales))
  {
    AlignShifts(d, start, timescales, p, seconds);
  }

  lemma SwingStep(time: byte)
    requires time as nat <= 1
    ensures AlignWith(OneTime(time), 0.25, map[1 := 2], 1) == Some(OneTime(1 - time))
  {
    var d, timescales: map<nat, nat> := OneTime(time), map[1 := 2];
    var first: map<nat, nat> := map[1 := time as nat];
    var seconds := DeltaSec(first, 1, 0.25, timescales);
    OneTimeFirst(time);
    OneTimeTree(time);
    SwingDelta(time, first, timescales);
    SwingFits(time, Deltas(first, seconds, timescales));
    AlignedIsShifted(d, OneTimeNodes(), 0.25, timescales, 1, first, seconds);
    OneTimeShifted(time, 1 - time, AlignWith(d, 0.25, timescales, 1).value, Deltas(first, seconds, timescales));
  }

  /** A second alignment to the same start can change the fragment again, and a third back. */
  lemma AlignmentCanSwing()
    ensures AlignWith(OneTime(0), 0.25, map[1 := 2], 1) == Some(OneTime(1))
    ensures AlignWith(OneTime(1), 0.25, map[1 := 2], 1) == Some(OneTime(0))
    ensures OneTime(0) != OneTime(1)
  {
    SwingStep(0);
    SwingStep(1);
    assert OneTime(0)[31] != OneTime(1)[31];
  }

  // ---- a track that steps back

  predicate TimeOf(n: Node, track: nat) {
    IsTfdt(n) && n.level.track == track
  }

  ghost predicate Readable(d: seq<byte>, ns: seq<Node>, track: nat) {
    forall n <- ns :: TimeOf(n, track) ==> NodeTicks(d, n).Some?
  }

  /** A tfdt of the track holds an earlier time than one of the track before it. */
  ghost predicate StepsBack(d: seq<byte>, ns: seq<Node>, track: nat) {
    exists i, j :: 0 <= i < j < |ns| && Later(d, ns[i], ns[j], track)
  }

  predicate Later(d: seq<byte>, a: Node, b: Node, track: nat) {
    && TimeOf(a, track) && TimeOf(b, track)
    && NodeTicks(d, a).Some? && NodeTicks(d, b).Some? && NodeTicks(d, b).value < NodeTicks(d, a).value
  }

  ghost predicate NotBefore(d: seq<byte>, ns: seq<Node>, track: nat, last: nat) {
    forall n <- ns :: TimeOf(n, track) && NodeTicks(d, n).Some? ==> NodeTicks(d, n).value >= last
  }

  lemma StepsBackSplit(d: seq<byte>, ns: seq<Node>, track: nat)
    requires ns != [] && Readable(d, ns, track)
    ensures StepsBack(d, ns, track) <==>
      || StepsBack(d, ns[1..], track)
      || (TimeOf(ns[0], track) && !NotBefore(d, ns[1..], track, NodeTicks(d, ns[0]).value))
  {
    var rest := ns[1..];
    assert ns[0] in ns;
    if StepsBack(d, ns, track) {
      var i, j :| 0 <= i < j < |ns| && Later(d, ns[i], ns[j], track);
      assert ns[j] == rest[j - 1] && rest[j - 1] in rest;
      if i > 0 {
        assert Later(d, rest[i - 1], rest[j - 1], track);
      }
    }
    if StepsBack(d, rest, track) {
      var i, j :| 0 <= i < j < |rest| && Later(d, rest[i], rest[j], track);
      assert Later(d, ns[i + 1], ns[j + 1], track);
    }
    if TimeOf(ns[0], track) && !NotBefore(d, rest, track, NodeTicks(d, ns[0]).value) {
      var n :| n in rest && TimeOf(n, track) && NodeTicks(d, n).Some? && NodeTicks(d, n).value < NodeTicks(d, ns[0]).value;
      var j :| 0 <= j < |rest| && rest[j] == n;
      assert Later(d, ns[0], ns[j + 1], track);
    }
  }

  /** The fold of the check, said of the boxes themselves. */
  lemma {:induction false} LastTimeIff(d: seq<byte>, ns: seq<Node>, last: Option<nat>)
    ensures LastTime(d, ns, last).Some? <==>
      Readable(d, ns, 1) && !StepsBack(d, ns, 1) && (last.Some? ==> NotBefore(d, ns, 1, last.value))
    decreases |ns|
  {
    if ns != [] {
      var n, rest := ns[0], ns[1..];
      assert forall m <- ns :: m == n || m in rest;
      assert n in ns && forall m <- rest :: m in ns;
      if Readable(d, ns, 1) {
        StepsBackSplit(d, ns, 1);
        LastTimeIff(d, rest, if TimeOf(n, 1) then NodeTicks(d, n) else last);
      } else {
        LastTimeIff(d, rest, if TimeOf(n, 1) then NodeTicks(d, n) else last);
      }
    }
  }

  /** The publishable check looks at track 1 alone: every time of it can be read and none steps back. */
  lemma PublishableIff(d: seq<byte>)
    ensures Publishable(d) <==>
      IsFragment(d) && Readable(d, FileTree(d).value, 1) && !StepsBack(d, FileTree(d).value, 1)
  {
    if IsFragment(d) {
      LastTimeIff(d, FileTree(d).value, None);
    }
  }

  /** A traf of the given track with one tfdt of version 0. */
  function OneTraf(track: byte, time: byte): seq<byte> {
    [0, 0, 0, 40, 0x74, 0x72, 0x61, 0x66,
     0, 0, 0, 16, 0x74, 0x66, 0x68, 0x64, 0, 0, 0, 0, 0, 0, 0, track,
     0, 0, 0, 16, 0x74, 0x66, 0x64, 0x74, 0, 0, 0, 0, 0, 0, 0, time]
  }

  /** Two trafs of track 2, the second at an earlier time than the first. */
  function Backward(): seq<byte> {
    [0, 0, 0, 88, 0x6d, 0x6f, 0x6f, 0x66] + OneTraf(2, 5) + OneTraf(2, 3)
  }

  function TrafNodes(off: nat, end: nat, track: nat): seq<Node> {
    [Node(InMoof, off, 40, TRAF, end, Into(InTraf(track))), Node(InTraf(track), off + 8, 16, TFHD, off + 40, Skip),
     Node(InTraf(track), off + 24, 16, TFDT, off + 40, Skip)]
  }

  /** The fields of a traf of this kind at off. */
  ghost predicate TrafAt(d: seq<byte>, off: nat, track: nat, time: nat) {
    && off + 40 <= |d|
    && U32(d, off) == 40 && U32(d, off + 4) == TRAF
    && U32(d, off + 8) == 16 && U32(d, off + 12) == TFHD && U32(d, off + 20) == track
    && U32(d, off + 24) == 16 && U32(d, off + 28) == TFDT && d[off + 32] == 0 && U32(d, off + 36) == time
  }

  lemma TrafParses(d: seq<byte>, off: nat, end: nat, track: nat, time: nat, rest: seq<Node>)
    requires TrafAt(d, off, track, time) && off + 40 <= end <= |d| && Tree(d, off + 40, end, InMoof) == Some(rest)
    ensures Tree(d, off, end, InMoof) == Some(TrafNodes(off, end, track) + rest)
    ensures NodeTicks(d, TrafNodes(off, end, track)[2]) == Some(time)
  {
    var ns := TrafNodes(off, end, track);
    assert TrackId(d, off + 40, off + 40, track) == Some(track);
    assert TrackId(d, off + 24, off + 40, track) == Some(track);
    assert TrackId(d, off + 8, off + 40, 1) == Some(track);
    NothingLeft(d, off + 40, off + 40, InTraf(track));
    LeafFirst(d, off + 24, off + 40, InTraf(track), []);
    assert [ns[2]] + [] == [ns[2]];
    LeafFirst(d, off + 8, off + 40, InTraf(track), [ns[2]]);
    assert [ns[1]] + [ns[2]] == [ns[1], ns[2]];
    ParentFirst(d, off, end, InMoof, InTraf(track), [ns[1], ns[2]], rest);
    assert [ns[0]] + [ns[1], ns[2]] + rest == ns + rest;
  }

  lemma CopiedField(d: seq<byte>, off: nat, t: seq<byte>, i: nat)
    requires off + |t| <= |d| && d[off..off + |t|] == t && i + 4 <= |t|
    ensures U32(d, off + i) == U32(t, i)
  {
    var c := d[off..off + |t|];
    assert d[off + i] == c[i] && d[off + i + 1] == c[i + 1] && d[off + i + 2] == c[i + 2] && d[off + i + 3] == c[i + 3];
  }

  lemma OneTrafTrack(track: byte, time: byte)
    ensures var t := OneTraf(track, time);
      U32(t, 0) == 40 && U32(t, 4) == TRAF && U32(t, 8) == 16 && U32(t, 12) == TFHD && U32(t, 20) == track as nat
  {}

  lemma OneTrafFields(track: byte, time: byte)
    ensures TrafAt(OneTraf(track, time), 0, track as nat, time as nat)
  {
    OneTrafTrack(track, time);
  }

  lemma TrafFields(d: seq<byte>, off: nat, track: byte, time: byte)
    requires off + 40 <= |d| && d[off..off + 40] == OneTraf(track, time)
    ensures TrafAt(d, off, track as nat, time as nat)
  {
    var t := OneTraf(track, time);
    OneTrafFields(track, time);
    CopiedField(d, off, t, 0);
    CopiedField(d, off, t, 4);
    CopiedField(d, off, t, 8);
    CopiedField(d, off, t, 12);
    CopiedField(d, off, t, 20);
    CopiedField(d, off, t, 24);
    CopiedField(d, off, t, 28);
    CopiedField(d, off, t, 36);
    assert d[off + 32] == d[off..off + 40][32];
  }

  /** The publishable check accepts a fragment whose track 2 steps back. */
  lemma OtherTrackCanStepBack()
    ensures Publishable(Backward()) && StepsBack(Backward(), FileTree(Backward()).value, 2)
  {
    var d := Backward();
    assert d[8..48] == OneTraf(2, 5) && d[48..88] == OneTraf(2, 3);
    TrafFields(d, 8, 2, 5);
    TrafFields(d, 48, 2, 3);
    assert U32(d, 0) == 88 && U32(d, 4) == MOOF;
    BackwardTree(d);
  }

  lemma BackwardTree(d: seq<byte>)
    requires |d| == 88 && U32(d, 0) == 88 && U32(d, 4) == MOOF && TrafAt(d, 8, 2, 5) && TrafAt(d, 48, 2, 3)
    ensures FileTree(d).Some? && Publishable(d) && StepsBack(d, FileTree(d).value, 2)
  {
    var top := Node(TopLevel, 0, 88, MOOF, 88, Into(InMoof));
    var one, two := TrafNodes(8, 88, 2), TrafNodes(48, 88, 2);
    NothingLeft(d, 88, 88, InMoof);
    NothingLeft(d, 88, 88, TopLevel);
    TrafParses(d, 48, 88, 2, 3, []);
    assert two + [] == two;
    TrafParses(d, 8, 88, 2, 5, two);
    ParentFirst(d, 0, 88, TopLevel, InMoof, one + two, []);
    var ns := [top] + (one + two) + [];
    assert ns == [top, one[0], one[1], one[2], two[0], two[1], two[2]];
    assert Later(d, ns[3], ns[6], 2);
    BackwardFirst(d, ns);
    PublishableIff(d);
  }

  /** The first times of the fragment: the second traf is passed over, since its track is known. */
  lemma BackwardFirst(d: seq<byte>, ns: seq<Node>)
    requires |ns| == 7 && ns[0].level == TopLevel && ns[1..4] == TrafNodes(8, 88, 2) && ns[4..7] == TrafNodes(48, 88, 2)
    requires NodeTicks(d, ns[3]) == Some(5)
    ensures First(d, ns, map[], false) == Some(map[2 := 5])
  {
    var known: map<nat, nat> := map[2 := 5];
    assert ns[1] == ns[1..4][0] && ns[2] == ns[1..4][1] && ns[3] == ns[1..4][2];
    assert ns[4] == ns[4..7][0] && ns[5] == ns[4..7][1] && ns[6] == ns[4..7][2];
    assert First(d, ns[7..], known, true) == Some(known);
    assert ns[6..][1..] == ns[7..] && First(d, ns[6..], known, true) == Some(known);
    assert ns[5..][1..] == ns[6..] && First(d, ns[5..], known, true) == Some(known);
    assert ns[4..][1..] == ns[5..] && First(d, ns[4..], known, false) == Some(known);
    assert ns[3..][1..] == ns[4..] && First(d, ns[3..], map[], false) == Some(known);
    assert ns[2..][1..] == ns[3..] && First(d, ns[2..], map[], false) == Some(known);
    assert ns[1..][1..] == ns[2..] && First(d, ns[1..], map[], false) == Some(known);
  }
}
