/**
 * The base media decode times of a fragment (mp4/tfdt.go): reading a tfdt, adding a delta to it,
 * and the walk that adds one delta per track to every tfdt of a buffer while walking that buffer.
 */
module Tfdt {
  import opened Wrappers
  import opened Bytes
  import opened BoxTree

  /** readTFDTTicks. */
  function Ticks(d: seq<byte>, off: nat, size: nat): (t: Option<nat>)
    ensures t.Some? ==> t.value < TWO_64
  {
    if off + 16 > |d| || size < 16 then None
    else if d[off + 8] == 0 then Some(U32(d, off + 12))
    else if d[off + 8] == 1 then if off + 20 > |d| then None else Some(U64(d, off + 12))
    else None
  }

  /** addTFDTDelta, with int64 sums: the buffer after the write, None for its errors. */
  function AddDelta(d: seq<byte>, off: nat, size: nat, delta: int): (r: Option<seq<byte>>)
    ensures r.Some? ==> |r.value| == |d|
  {
    if off + 16 > |d| || size < 16 then None
    else if d[off + 8] == 0 then
      var sum := Wrap64(U32(d, off + 12) + delta);
      if sum < 0 || sum >= TWO_32 then None else Some(PutU32(d, off + 12, sum))
    else if d[off + 8] == 1 then
      if off + 20 > |d| then None else
      var sum := Wrap64(Wrap64(U64(d, off + 12)) + delta);
      if sum < 0 then None else Some(PutU64(d, off + 12, sum))
    else None
  }

  /** The walk of applyTFDTDeltas, on the buffer as it stands when each box is met. */
  function Patch(d: seq<byte>, off: nat, end: int, level: Level, deltas: map<nat, int>): (r: Option<seq<byte>>)
    ensures r.Some? ==> |r.value| == |d|
    decreases 2 - Depth(level), |d| - off, 1
  {
    if !HasHeader(d, off, end) then Some(d)
    else if U32(d, off) < 8 then None
    else
      var n := NodeAt(d, off, end, level);
      match PatchBox(d, n, deltas)
      case None => None
      case Some(d1) => Patch(d1, off + n.size, end, level, deltas)
  }

  function PatchBox(d: seq<byte>, n: Node, deltas: map<nat, int>): (r: Option<seq<byte>>)
    requires Descends(n)
    ensures r.Some? ==> |r.value| == |d|
    decreases 2 - Depth(n.level), |d| - n.off, 0
  {
    match n.visit
    case Fail => None
    case Into(level) =>
      if level.InTraf? && level.track !in deltas then Some(d) else Patch(d, n.off + 8, n.off + n.size, level, deltas)
    case Skip =>
      if IsTfdt(n) && n.level.track in deltas then AddDelta(d, n.off, n.size, deltas[n.level.track]) else Some(d)
  }

  // ---- What the patch means, box by box. ----

  predicate Int64(x: int) {
    -TWO_63 <= x < TWO_63
  }

  function NodeTicks(d: seq<byte>, n: Node): Option<nat> {
    Ticks(d, n.off, n.size)
  }

  /** The first time the box cannot hold: 2^32 for version 0, 2^63 (int64) for version 1. */
  function Capacity(d: seq<byte>, n: Node): int
    requires NodeTicks(d, n).Some?
  {
    if d[n.off + 8] == 0 then TWO_32 else TWO_63
  }

  function DeltaOf(n: Node, deltas: map<nat, int>): int
    requires IsTfdt(n)
  {
    if n.level.track in deltas then deltas[n.level.track] else 0
  }

  /** The byte range of the time field: [TimeStart, TimeEnd). */
  function TimeStart(n: Node): nat { n.off + 12 }

  function TimeEnd(d: seq<byte>, n: Node): nat {
    if n.off + 8 < |d| && d[n.off + 8] == 1 then n.off + 20 else n.off + 16
  }

  predicate TimeByte(d: seq<byte>, ns: seq<Node>, i: nat) {
    exists n <- ns :: IsTfdt(n) && TimeStart(n) <= i < TimeEnd(d, n)
  }

  /** The tfdt box n can be read and still holds its time once its track's delta is added. */
  predicate Fits(d: seq<byte>, n: Node, deltas: map<nat, int>) {
    IsTfdt(n) && n.level.track in deltas ==>
      NodeTicks(d, n).Some? && 0 <= NodeTicks(d, n).value + DeltaOf(n, deltas) < Capacity(d, n)
  }

  predicate AllFit(d: seq<byte>, ns: seq<Node>, deltas: map<nat, int>) {
    forall n <- ns :: Fits(d, n, deltas)
  }

  /** From d to r the box n keeps its version and moves its time by its track's delta. */
  predicate TimeMoved(d: seq<byte>, r: seq<byte>, n: Node, deltas: map<nat, int>) {
    |r| == |d| && (IsTfdt(n) ==>
      && (n.off + 8 < |d| ==> r[n.off + 8] == d[n.off + 8])
      && NodeTicks(r, n).Some? == NodeTicks(d, n).Some?
      && (NodeTicks(d, n).Some? ==> NodeTicks(r, n).value == NodeTicks(d, n).value + DeltaOf(n, deltas)))
  }

  /** r is d with every tfdt of a track in `deltas` moved by that track's delta, and no other byte changed. */
  predicate Shifted(d: seq<byte>, r: seq<byte>, ns: seq<Node>, deltas: map<nat, int>) {
    && |r| == |d|
    && (forall n <- ns :: TimeMoved(d, r, n, deltas))
    && (forall i: nat :: i < |d| && !TimeByte(d, ns, i) ==> r[i] == d[i])
  }

  predicate AllInt64(deltas: map<nat, int>) {
    forall t <- deltas :: Int64(deltas[t])
  }

  /** The sum fits its field exactly when it is in range: int64 wrap-around never hides an overflow. */
  lemma AddDeltaFits(d: seq<byte>, n: Node, deltas: map<nat, int>)
    requires IsTfdt(n) && Sound(d, n) && n.level.track in deltas && Int64(deltas[n.level.track])
    ensures AddDelta(d, n.off, n.size, deltas[n.level.track]).Some? <==> Fits(d, n, deltas)
  {
  }

  lemma AddDeltaMoves(d: seq<byte>, n: Node, deltas: map<nat, int>)
    requires IsTfdt(n) && Sound(d, n) && n.level.track in deltas && Int64(deltas[n.level.track])
    requires AddDelta(d, n.off, n.size, deltas[n.level.track]).Some?
    ensures var r := AddDelta(d, n.off, n.size, deltas[n.level.track]).value;
      && TimeMoved(d, r, n, deltas) && TimeEnd(d, n) <= n.off + n.size
      && (forall i: nat :: i < |d| && !(TimeStart(n) <= i < TimeEnd(d, n)) ==> r[i] == d[i])
  {
    AddDeltaFits(d, n, deltas);
  }

  /** r and d have the same bytes in [lo, hi). */
  predicate Agree(d: seq<byte>, r: seq<byte>, lo: int, hi: int) {
    |r| == |d| && forall i: nat :: lo <= i < hi && i < |d| ==> r[i] == d[i]
  }

  predicate Within(ns: seq<Node>, lo: int, hi: int) {
    forall n <- ns :: lo <= n.off && (IsTfdt(n) ==> n.off + n.size <= hi)
  }

  lemma {:induction false} TreeWithin(d: seq<byte>, off: nat, end: int, level: Level)
    requires Tree(d, off, end, level).Some? && AllSound(d, Tree(d, off, end, level).value)
    ensures Within(Tree(d, off, end, level).value, off, end)
    ensures level.InTraf? ==> forall n <- Tree(d, off, end, level).value :: n.level == level && n.visit.Skip?
    decreases 2 - Depth(level), |d| - off, 1
  {
    if HasHeader(d, off, end) {
      TreeStep(d, off, end, level);
      var n := NodeAt(d, off, end, level);
      if n.visit.Into? {
        TreeWithin(d, off + 8, off + n.size, n.visit.level);
      }
      TreeWithin(d, off + n.size, end, level);
    }
  }

  /** What a box says about its time depends on no byte before the box. */
  lemma LaterUntouched(d: seq<byte>, d1: seq<byte>, ns: seq<Node>, cut: nat, deltas: map<nat, int>)
    requires Agree(d, d1, cut, |d|)
    requires forall n <- ns :: cut <= n.off
    ensures AllSound(d, ns) ==> AllSound(d1, ns)
    ensures forall n <- ns :: NodeTicks(d1, n) == NodeTicks(d, n) && TimeEnd(d1, n) == TimeEnd(d, n)
    ensures forall n <- ns :: Fits(d1, n, deltas) == Fits(d, n, deltas)
  {
  }

  /** Two shifts, of the boxes before `cut` and then of those after it, are one shift of them all. */
  lemma ShiftsCompose(d: seq<byte>, d1: seq<byte>, r: seq<byte>, head: seq<Node>, rest: seq<Node>, cut: nat,
                      deltas: map<nat, int>)
    requires AllSound(d, head) && Within(head, 0, cut) && forall n <- rest :: cut <= n.off
    requires Shifted(d, d1, head, deltas) && Agree(d, d1, cut, |d|)
    requires Shifted(d1, r, rest, deltas) && Agree(d1, r, 0, cut + 12)
    ensures Shifted(d, r, head + rest, deltas)
  {
    LaterUntouched(d, d1, rest, cut, deltas);
    forall n | n in head + rest ensures TimeMoved(d, r, n, deltas) {
      if n in head {
        assert TimeMoved(d, d1, n, deltas) && Sound(d, n);
      } else {
        assert TimeMoved(d1, r, n, deltas);
      }
    }
    forall i: nat | i < |d| && !TimeByte(d, head + rest, i) ensures r[i] == d[i] {
      assert !TimeByte(d, head, i) by {
        forall n <- head | IsTfdt(n) ensures !(TimeStart(n) <= i < TimeEnd(d, n)) { assert n in head + rest; }
      }
      assert !TimeByte(d1, rest, i) by {
        forall n <- rest | IsTfdt(n) ensures !(TimeStart(n) <= i < TimeEnd(d1, n)) { assert n in head + rest; }
      }
    }
  }

  lemma MovedByZero(ns: seq<Node>, ns': seq<Node>)
    requires AllMoved(ns, ns', 0)
    ensures ns' == ns
  {
    forall i | 0 <= i < |ns| ensures ns'[i] == ns[i] { assert Moved(ns[i], ns'[i], 0); }
  }

  /** Bytes that agree on a sound box's range parse to the same tree there. */
  lemma TreeAgrees(d: seq<byte>, r: seq<byte>, off: nat, end: int, level: Level)
    requires Agree(d, r, off, end) && off <= end <= |d|
    requires Tree(d, off, end, level).Some? && AllSound(d, Tree(d, off, end, level).value)
    ensures Tree(r, off, end, level) == Tree(d, off, end, level)
  {
    TreeMoves(d, r, 0, off, end, level);
    MovedByZero(Tree(d, off, end, level).value, Tree(r, off, end, level).value);
  }

  lemma SoundAfterMove(d: seq<byte>, r: seq<byte>, n: Node, deltas: map<nat, int>)
    requires Sound(d, n) && TimeMoved(d, r, n, deltas) && Fits(d, n, deltas)
    ensures Sound(r, n)
  {
  }

  lemma ShiftKeepsSound(d: seq<byte>, r: seq<byte>, ns: seq<Node>, deltas: map<nat, int>)
    requires AllSound(d, ns) && Shifted(d, r, ns, deltas) && AllFit(d, ns, deltas)
    ensures AllSound(r, ns)
  {
    forall n <- ns ensures Sound(r, n) {
      SoundAfterMove(d, r, n, deltas);
    }
  }

  lemma NothingShifted(d: seq<byte>, ns: seq<Node>, deltas: map<nat, int>)
    requires forall n <- ns :: IsTfdt(n) ==> n.level.track !in deltas
    ensures Shifted(d, d, ns, deltas) && AllFit(d, ns, deltas)
  {
  }

  lemma FitsConcat(d: seq<byte>, head: seq<Node>, rest: seq<Node>, deltas: map<nat, int>)
    ensures AllFit(d, head + rest, deltas) <==> AllFit(d, head, deltas) && AllFit(d, rest, deltas)
  {
    if AllFit(d, head + rest, deltas) {
      forall n <- head ensures Fits(d, n, deltas) { assert n in head + rest; }
      forall n <- rest ensures Fits(d, n, deltas) { assert n in head + rest; }
    }
  }

  /** Bytes changed only after a box and its children leave the box as it was parsed. */
  lemma HeaderKept(d: seq<byte>, r: seq<byte>, off: nat, end: int, level: Level)
    requires HasHeader(d, off, end) && Agree(d, r, off, off + 8)
    requires level == InMoof && U32(d, off + 4) == TRAF ==> TrackId(r, off + 8, off + U32(d, off), 1) == TrackId(d, off + 8, off + U32(d, off), 1)
    ensures NodeAt(r, off, end, level) == NodeAt(d, off, end, level)
  {
    assert U32(r, off) == U32(d, off) && U32(r, off + 4) == U32(d, off + 4);
  }

  lemma BoxKept(d: seq<byte>, r: seq<byte>, off: nat, end: int, level: Level)
    requires HasHeader(d, off, end) && U32(d, off) >= 8
    requires var n := NodeAt(d, off, end, level);
      && Sound(d, n) && (n.visit.Into? ==> off + n.size <= |d|) && !n.visit.Fail?
      && Kids(d, n).Some? && AllSound(d, Kids(d, n).value) && Agree(d, r, 0, off + n.size)
    ensures NodeAt(r, off, end, level) == NodeAt(d, off, end, level)
    ensures Kids(r, NodeAt(d, off, end, level)) == Kids(d, NodeAt(d, off, end, level))
  {
    var n := NodeAt(d, off, end, level);
    if n.visit.Into? {
      KidsKept(d, r, off, off + n.size, n.visit.level);
    }
    HeaderKept(d, r, off, end, level);
  }

  lemma KidsKept(d: seq<byte>, r: seq<byte>, off: nat, end: nat, inner: Level)
    requires end <= |d| && off + 8 <= end && Agree(d, r, 0, end)
    requires Tree(d, off + 8, end, inner).Some? && AllSound(d, Tree(d, off + 8, end, inner).value)
    ensures Tree(r, off + 8, end, inner) == Tree(d, off + 8, end, inner)
    ensures inner.InTraf? ==> TrackId(r, off + 8, end, 1) == TrackId(d, off + 8, end, 1)
  {
    TreeAgrees(d, r, off + 8, end, inner);
    if inner.InTraf? {
      TrackIdMoves(d, r, 0, off + 8, end, 1, inner.track);
    }
  }

  /** What a successful patch of [off, end) leaves behind. */
  ghost predicate Patched(d: seq<byte>, r: seq<byte>, off: nat, end: int, level: Level, deltas: map<nat, int>)
    requires Tree(d, off, end, level).Some?
  {
    && Shifted(d, r, Tree(d, off, end, level).value, deltas)
    && Tree(r, off, end, level) == Tree(d, off, end, level)
    && Confined(d, r, off, end, level)
  }

  /** Only bytes of tfdt times change, and a tfhd is never among them. */
  ghost predicate Confined(d: seq<byte>, r: seq<byte>, off: nat, end: int, level: Level) {
    && Agree(d, r, 0, off + 12)
    && (level != TopLevel ==> Agree(d, r, end, |d|))
    && (level.InTraf? ==> forall id: nat :: TrackId(r, off, end, id) == TrackId(d, off, end, id))
  }

  /** What patching the box n (met in a walk to `end`) and its children leaves behind. */
  ghost predicate BoxPatched(d: seq<byte>, d1: seq<byte>, n: Node, end: int, deltas: map<nat, int>) {
    && Descends(n) && Kids(d, n).Some?
    && Shifted(d, d1, [n] + Kids(d, n).value, deltas)
    && AllFit(d, [n] + Kids(d, n).value, deltas)
    && Agree(d, d1, 0, n.off + 12) && Agree(d, d1, n.off + n.size, |d|)
    && HasHeader(d1, n.off, end) && NodeAt(d1, n.off, end, n.level) == n && Kids(d1, n) == Kids(d, n)
  }

  /** The walk after a patched box starts from what it would have met anyway. */
  lemma RestReady(d: seq<byte>, d1: seq<byte>, n: Node, off: nat, end: int, level: Level, deltas: map<nat, int>)
    requires HasHeader(d, off, end) && end <= |d| && n == NodeAt(d, off, end, level)
    requires Tree(d, off, end, level).Some? && AllSound(d, Tree(d, off, end, level).value)
    requires Agree(d, d1, off + n.size, |d|)
    ensures var rest := Tree(d, off + n.size, end, level);
      && rest.Some? && Tree(d1, off + n.size, end, level) == rest
      && AllSound(d1, rest.value) && AllFit(d1, rest.value, deltas) == AllFit(d, rest.value, deltas)
  {
    TreeStep(d, off, end, level);
    TreeWithin(d, off + n.size, end, level);
    if off + n.size <= end {
      TreeAgrees(d, d1, off + n.size, end, level);
    }
    LaterUntouched(d, d1, Tree(d, off + n.size, end, level).value, off + n.size, deltas);
  }

  lemma TrackKept(d: seq<byte>, d1: seq<byte>, r: seq<byte>, off: nat, end: int, level: Level, id: nat)
    requires HasHeader(d, off, end) && end <= |d| && level.InTraf? && U32(d, off) >= 8
    requires var rest := Tree(d, off + U32(d, off), end, level); rest.Some? && AllSound(d, rest.value)
    requires Agree(d, d1, 0, off + 12) && Agree(d, d1, off + U32(d, off), |d|)
    requires U32(d, off + 4) != TFDT ==> d1 == d
    requires Confined(d1, r, off + U32(d, off), end, level)
    ensures TrackId(r, off, end, id) == TrackId(d, off, end, id)
  {
    var next := off + U32(d, off);
    assert U32(r, off) == U32(d, off) && U32(r, off + 4) == U32(d, off + 4);
    var id' := if U32(d, off + 4) == TFHD && off + 16 <= |d| then U32(d, off + 12) else id;
    assert off + 16 <= |d| && U32(d, off + 4) == TFHD ==> U32(r, off + 12) == id';
    assert TrackId(r, next, end, id') == TrackId(d1, next, end, id');
    if next <= end {
      TrackIdMoves(d, d1, 0, next, end, id', level.track);
    }
  }

  lemma ConfinedJoins(d: seq<byte>, d1: seq<byte>, r: seq<byte>, n: Node, off: nat, end: int, level: Level,
                      deltas: map<nat, int>)
    requires HasHeader(d, off, end) && end <= |d| && n == NodeAt(d, off, end, level)
    requires Tree(d, off, end, level).Some? && AllSound(d, Tree(d, off, end, level).value)
    requires BoxPatched(d, d1, n, end, deltas) && Confined(d1, r, off + n.size, end, level)
    ensures Confined(d, r, off, end, level)
  {
    TreeStep(d, off, end, level);
    if level.InTraf? {
      if n.typ != TFDT {
        assert forall i: nat :: i < |d| ==> !TimeByte(d, [n] + Kids(d, n).value, i);
        assert d1 == d;
      }
      forall id: nat ensures TrackId(r, off, end, id) == TrackId(d, off, end, id) {
        TrackKept(d, d1, r, off, end, level, id);
      }
    }
  }

  lemma TreeJoins(d: seq<byte>, d1: seq<byte>, r: seq<byte>, n: Node, off: nat, end: int, level: Level, deltas: map<nat, int>)
    requires HasHeader(d, off, end) && end <= |d| && n == NodeAt(d, off, end, level)
    requires Tree(d, off, end, level).Some? && AllSound(d, Tree(d, off, end, level).value)
    requires BoxPatched(d, d1, n, end, deltas) && Agree(d1, r, 0, off + n.size + 12)
    requires Tree(r, off + n.size, end, level) == Tree(d, off + n.size, end, level)
    ensures Tree(r, off, end, level) == Tree(d, off, end, level)
  {
    TreeStep(d, off, end, level);
    var kids := Kids(d, n).value;
    ShiftKeepsSound(d, d1, [n] + kids, deltas);
    assert AllSound(d1, kids) by { forall m <- kids ensures Sound(d1, m) { assert m in [n] + kids; } }
    assert Sound(d1, n) by { assert n in [n] + kids; }
    BoxKept(d1, r, off, end, level);
    TreeFrom(r, off, end, level, kids, Tree(d, off + n.size, end, level).value);
  }

  lemma ShiftJoins(d: seq<byte>, d1: seq<byte>, r: seq<byte>, n: Node, off: nat, end: int, level: Level, deltas: map<nat, int>)
    requires HasHeader(d, off, end) && end <= |d| && n == NodeAt(d, off, end, level)
    requires Tree(d, off, end, level).Some? && AllSound(d, Tree(d, off, end, level).value)
    requires BoxPatched(d, d1, n, end, deltas) && Agree(d1, r, 0, off + n.size + 12)
    requires Tree(d, off + n.size, end, level).Some?
    requires Shifted(d1, r, Tree(d, off + n.size, end, level).value, deltas)
    ensures Shifted(d, r, Tree(d, off, end, level).value, deltas)
  {
    TreeStep(d, off, end, level);
    TreeWithin(d, off + n.size, end, level);
    if n.visit.Into? { TreeWithin(d, off + 8, off + n.size, n.visit.level); }
    var head := [n] + Kids(d, n).value;
    assert AllSound(d, head) && Within(head, 0, off + n.size);
    ShiftsCompose(d, d1, r, head, Tree(d, off + n.size, end, level).value, off + n.size, deltas);
  }

  lemma PatchJoins(d: seq<byte>, d1: seq<byte>, r: seq<byte>, n: Node, off: nat, end: int, level: Level, deltas: map<nat, int>)
    requires HasHeader(d, off, end) && end <= |d| && n == NodeAt(d, off, end, level)
    requires Tree(d, off, end, level).Some? && AllSound(d, Tree(d, off, end, level).value)
    requires BoxPatched(d, d1, n, end, deltas)
    requires Tree(d, off + n.size, end, level).Some? && Tree(d1, off + n.size, end, level) == Tree(d, off + n.size, end, level)
    requires Patched(d1, r, off + n.size, end, level, deltas)
    ensures Patched(d, r, off, end, level, deltas)
  {
    ShiftJoins(d, d1, r, n, off, end, level, deltas);
    TreeJoins(d, d1, r, n, off, end, level, deltas);
    ConfinedJoins(d, d1, r, n, off, end, level, deltas);
  }

  /** The outcome of a patch over a range whose tree is known: see PatchShifts. */
  ghost predicate Refines(d: seq<byte>, off: nat, end: int, level: Level, deltas: map<nat, int>)
    requires Tree(d, off, end, level).Some? && (level.InTraf? ==> level.track in deltas)
  {
    var r := Patch(d, off, end, level, deltas);
    && (r.Some? <==> AllFit(d, Tree(d, off, end, level).value, deltas))
    && (r.Some? ==> Patched(d, r.value, off, end, level, deltas))
  }

  /** The same outcome for one box and its children. */
  ghost predicate BoxRefines(d: seq<byte>, n: Node, end: int, deltas: map<nat, int>)
    requires Descends(n)
    requires Kids(d, n).Some? && (n.level.InTraf? ==> n.level.track in deltas)
  {
    var r := PatchBox(d, n, deltas);
    && (r.Some? <==> AllFit(d, [n] + Kids(d, n).value, deltas))
    && (r.Some? ==> BoxPatched(d, r.value, n, end, deltas))
  }

  /** A box that cannot be patched stops the walk. */
  lemma RefinesFails(d: seq<byte>, n: Node, off: nat, end: int, level: Level, deltas: map<nat, int>)
    requires HasHeader(d, off, end) && end <= |d| && n == NodeAt(d, off, end, level)
    requires Tree(d, off, end, level).Some? && (level.InTraf? ==> level.track in deltas)
    requires Kids(d, n).Some? && !AllFit(d, [n] + Kids(d, n).value, deltas) && PatchBox(d, n, deltas).None?
    ensures Refines(d, off, end, level, deltas)
  {
    TreeStep(d, off, end, level);
    FitsConcat(d, [n] + Kids(d, n).value, Tree(d, off + n.size, end, level).value, deltas);
  }

  lemma FitsJoins(d: seq<byte>, d1: seq<byte>, n: Node, off: nat, end: int, level: Level, deltas: map<nat, int>)
    requires HasHeader(d, off, end) && end <= |d| && n == NodeAt(d, off, end, level)
    requires Tree(d, off, end, level).Some? && AllSound(d, Tree(d, off, end, level).value)
    requires BoxPatched(d, d1, n, end, deltas)
    ensures Tree(d, off + n.size, end, level).Some? && Tree(d1, off + n.size, end, level) == Tree(d, off + n.size, end, level)
    ensures AllFit(d, Tree(d, off, end, level).value, deltas) <==>
            AllFit(d1, Tree(d1, off + n.size, end, level).value, deltas)
  {
    TreeStep(d, off, end, level);
    RestReady(d, d1, n, off, end, level, deltas);
    FitsConcat(d, [n] + Kids(d, n).value, Tree(d, off + n.size, end, level).value, deltas);
  }

  lemma PatchStep(d: seq<byte>, d1: seq<byte>, n: Node, off: nat, end: int, level: Level, deltas: map<nat, int>)
    requires HasHeader(d, off, end) && U32(d, off) >= 8 && n == NodeAt(d, off, end, level)
    requires PatchBox(d, n, deltas) == Some(d1)
    ensures Patch(d, off, end, level, deltas) == Patch(d1, off + n.size, end, level, deltas)
  {
  }

  /** A patched box, then a patched rest. */
  lemma RefinesJoins(d: seq<byte>, d1: seq<byte>, n: Node, off: nat, end: int, level: Level, deltas: map<nat, int>)
    requires HasHeader(d, off, end) && U32(d, off) >= 8 && end <= |d| && n == NodeAt(d, off, end, level)
    requires Tree(d, off, end, level).Some? && AllSound(d, Tree(d, off, end, level).value)
    requires level.InTraf? ==> level.track in deltas
    requires PatchBox(d, n, deltas) == Some(d1) && BoxPatched(d, d1, n, end, deltas)
    requires Tree(d1, off + n.size, end, level).Some? && Refines(d1, off + n.size, end, level, deltas)
    ensures Refines(d, off, end, level, deltas)
  {
    FitsJoins(d, d1, n, off, end, level, deltas);
    PatchStep(d, d1, n, off, end, level, deltas);
    var last := Patch(d1, off + n.size, end, level, deltas);
    if last.Some? {
      PatchJoins(d, d1, last.value, n, off, end, level, deltas);
    }
  }

  /**
   * The patch of a well-nested range is a shift: it succeeds exactly when every tfdt of a track
   * with a delta fits, and then moves those times, keeps the box tree and changes no other byte.
   */
  lemma {:induction false} PatchShifts(d: seq<byte>, off: nat, end: int, level: Level, deltas: map<nat, int>)
    requires Tree(d, off, end, level).Some? && AllSound(d, Tree(d, off, end, level).value)
    requires end <= |d| && AllInt64(deltas) && (level.InTraf? ==> level.track in deltas)
    ensures Refines(d, off, end, level, deltas)
    decreases 2 - Depth(level), |d| - off, 2
  {
    if HasHeader(d, off, end) {
      TreeStep(d, off, end, level);
      var n := NodeAt(d, off, end, level);
      BoxShifts(d, n, end, deltas);
      var box := PatchBox(d, n, deltas);
      if box.Some? {
        RestShifts(d, box.value, n, off, end, level, deltas);
        RefinesJoins(d, box.value, n, off, end, level, deltas);
      } else {
        RefinesFails(d, n, off, end, level, deltas);
      }
    } else {
      NothingShifted(d, [], deltas);
    }
  }

  lemma {:induction false} RestShifts(d: seq<byte>, d1: seq<byte>, n: Node, off: nat, end: int, level: Level,
                                      deltas: map<nat, int>)
    requires HasHeader(d, off, end) && end <= |d| && n == NodeAt(d, off, end, level)
    requires Tree(d, off, end, level).Some? && AllSound(d, Tree(d, off, end, level).value)
    requires AllInt64(deltas) && (level.InTraf? ==> level.track in deltas)
    requires BoxPatched(d, d1, n, end, deltas)
    ensures Tree(d1, off + n.size, end, level).Some? && Refines(d1, off + n.size, end, level, deltas)
    decreases 2 - Depth(level), |d| - off, 1
  {
    TreeStep(d, off, end, level);
    RestReady(d, d1, n, off, end, level, deltas);
    PatchShifts(d1, off + n.size, end, level, deltas);
  }

  lemma {:induction false} BoxShifts(d: seq<byte>, n: Node, end: int, deltas: map<nat, int>)
    requires HasHeader(d, n.off, end) && end <= |d| && n == NodeAt(d, n.off, end, n.level) && n.size >= 8
    requires Sound(d, n) && Kids(d, n).Some? && AllSound(d, Kids(d, n).value) && !n.visit.Fail?
    requires AllInt64(deltas) && (n.level.InTraf? ==> n.level.track in deltas)
    ensures BoxRefines(d, n, end, deltas)
    decreases 2 - Depth(n.level), |d| - n.off, 0
  {
    if n.visit.Skip? {
      LeafShifts(d, n, end, deltas);
    } else {
      var inner := n.visit.level;
      if inner.InTraf? && inner.track !in deltas {
        OtherTrackKept(d, n, end, deltas);
      } else {
        PatchShifts(d, n.off + 8, n.off + n.size, inner, deltas);
        ParentShifts(d, n, end, deltas);
      }
    }
  }

  lemma LeafShifts(d: seq<byte>, n: Node, end: int, deltas: map<nat, int>)
    requires HasHeader(d, n.off, end) && n == NodeAt(d, n.off, end, n.level) && n.size >= 8
    requires Sound(d, n) && n.visit.Skip?
    requires AllInt64(deltas) && (n.level.InTraf? ==> n.level.track in deltas)
    ensures BoxRefines(d, n, end, deltas)
  {
    if IsTfdt(n) {
      AddDeltaFits(d, n, deltas);
      if Fits(d, n, deltas) { AddDeltaMoves(d, n, deltas); }
    }
  }

  /** A traf whose track has no delta. */
  lemma OtherTrackKept(d: seq<byte>, n: Node, end: int, deltas: map<nat, int>)
    requires HasHeader(d, n.off, end) && n == NodeAt(d, n.off, end, n.level) && n.size >= 8 && n.level == InMoof
    requires n.visit.Into? && n.visit.level.InTraf? && n.visit.level.track !in deltas
    requires Kids(d, n).Some? && AllSound(d, Kids(d, n).value)
    ensures BoxRefines(d, n, end, deltas)
  {
    TreeWithin(d, n.off + 8, n.off + n.size, n.visit.level);
    NothingShifted(d, [n] + Kids(d, n).value, deltas);
  }

  /** A moof or traf whose children have been patched. */
  lemma ParentShifts(d: seq<byte>, n: Node, end: int, deltas: map<nat, int>)
    requires HasHeader(d, n.off, end) && n == NodeAt(d, n.off, end, n.level) && n.size >= 8 && n.visit.Into?
    requires n.visit.level.InTraf? ==> n.visit.level.track in deltas
    requires Kids(d, n).Some? && Refines(d, n.off + 8, n.off + n.size, n.visit.level, deltas)
    ensures BoxRefines(d, n, end, deltas)
  {
    FitsConcat(d, [n], Kids(d, n).value, deltas);
    var r := PatchBox(d, n, deltas);
    if r.Some? {
      HeaderKept(d, r.value, n.off, end, n.level);
      var kids := Kids(d, n).value;
      forall i: nat | i < |d| && !TimeByte(d, [n] + kids, i) ensures r.value[i] == d[i] {
        assert !TimeByte(d, kids, i);
      }
    }
  }
}
