/**
 * The imperative code of mp4/tfdt.go and mp4/hls_validate.go, on byte arrays: the walks with
 * their callbacks, the in-place patch, and the alignment that works on a copy of the fragment.
 */
module AlignInPlace {
  import opened Wrappers
  import opened Bytes
  import opened BoxTree
  import opened Tfdt
  import opened FirstTimes
  import opened Align

  method ReadU32(data: array<byte>, i: nat) returns (v: nat)
    requires i + 4 <= data.Length
    ensures v == U32(data[..], i)
  {
    v := data[i] as int * 0x100_0000 + data[i + 1] as int * 0x1_0000 + data[i + 2] as int * 0x100 + data[i + 3] as int;
  }

  method ReadU64(data: array<byte>, i: nat) returns (v: nat)
    requires i + 8 <= data.Length
    ensures v == U64(data[..], i)
  {
    var hi := ReadU32(data, i);
    var lo := ReadU32(data, i + 4);
    v := hi * TWO_32 + lo;
  }

  method Write(data: array<byte>, i: nat, b: seq<byte>)
    requires i + |b| <= data.Length
    modifies data
    ensures data[..] == Splice(old(data[..]), i, b)
  {
    for j := 0 to |b|
      invariant forall k :: 0 <= k < data.Length ==> data[k] == if i <= k < i + j then b[k - i] else old(data[k])
    {
      data[i + j] := b[j];
    }
  }

  method TfhdTrackId(data: array<byte>, start: nat, end: int) returns (id: Option<nat>)
    ensures id == TrackId(data[..], start, end, 1)
  {
    var off, track := start, 1;
    while off + 8 <= end && off + 8 <= data.Length
      invariant TrackId(data[..], start, end, 1) == TrackId(data[..], off, end, track)
      decreases data.Length - off
    {
      var size := ReadU32(data, off);
      var typ := ReadU32(data, off + 4);
      if size < 8 { return None; }
      if typ == TFHD {
        if off + 16 > data.Length { return None; }
        track := ReadU32(data, off + 12);
      }
      off := off + size;
    }
    id := Some(track);
  }

  method ReadTicks(data: array<byte>, off: nat, size: nat) returns (t: Option<nat>)
    ensures t == Ticks(data[..], off, size)
  {
    if off + 16 > data.Length || size < 16 { return None; }
    if data[off + 8] == 0 {
      var v := ReadU32(data, off + 12);
      return Some(v);
    }
    if data[off + 8] == 1 {
      if off + 20 > data.Length { return None; }
      var v := ReadU64(data, off + 12);
      return Some(v);
    }
    t := None;
  }

  method AddDeltaInPlace(data: array<byte>, off: nat, size: nat, delta: int) returns (ok: bool)
    modifies data
    ensures var spec := AddDelta(old(data[..]), off, size, delta);
      ok == spec.Some? && data[..] == if ok then spec.value else old(data[..])
  {
    if off + 16 > data.Length || size < 16 { return false; }
    if data[off + 8] == 0 {
      var cur := ReadU32(data, off + 12);
      var sum := Wrap64(cur + delta);
      if sum < 0 || sum >= TWO_32 { return false; }
      Write(data, off + 12, Be32(sum));
      return true;
    }
    if data[off + 8] == 1 {
      if off + 20 > data.Length { return false; }
      var cur := ReadU64(data, off + 12);
      var sum := Wrap64(Wrap64(cur) + delta);
      if sum < 0 { return false; }
      Write(data, off + 12, Be64(sum));
      return true;
    }
    ok := false;
  }

  /** applyTFDTDeltas: the walk of one level, patching the buffer it walks. */
  method ApplyDeltas(data: array<byte>, start: nat, end: int, level: Level, deltas: map<nat, int>) returns (ok: bool)
    modifies data
    ensures var spec := Patch(old(data[..]), start, end, level, deltas);
      ok == spec.Some? && (ok ==> data[..] == spec.value)
    decreases 2 - Depth(level), data.Length - start, 1
  {
    var off := start;
    while off + 8 <= end && off + 8 <= data.Length
      invariant start <= off
      invariant Patch(data[..], off, end, level, deltas) == Patch(old(data[..]), start, end, level, deltas)
      decreases data.Length - off
    {
      var size := ReadU32(data, off);
      if size < 8 { return false; }
      var inner := ApplyToBox(data, off, size, end, level, deltas);
      if !inner { return false; }
      off := off + size;
    }
    ok := true;
  }

  /** The callback of one level of applyTFDTDeltas. */
  method ApplyToBox(data: array<byte>, off: nat, size: nat, ghost end: int, level: Level, deltas: map<nat, int>) returns (ok: bool)
    requires HasHeader(data[..], off, end) && size == U32(data[..], off) && size >= 8
    modifies data
    ensures var spec := PatchBox(old(data[..]), NodeAt(old(data[..]), off, end, level), deltas);
      ok == spec.Some? && (ok ==> data[..] == spec.value)
    decreases 2 - Depth(level), data.Length - off, 0
  {
    ok := true;
    var typ := ReadU32(data, off + 4);
    match level {
      case TopLevel =>
        if typ == MOOF { ok := ApplyDeltas(data, off + 8, off + size, InMoof, deltas); }
      case InMoof =>
        if typ == TRAF {
          var track := TfhdTrackId(data, off + 8, off + size);
          if track.None? {
            ok := false;
          } else if track.value in deltas {
            ok := ApplyDeltas(data, off + 8, off + size, InTraf(track.value), deltas);
          }
        }
      case InTraf(track) =>
        if typ == TFDT && track in deltas { ok := AddDeltaInPlace(data, off, size, deltas[track]); }
    }
  }

  // ---- The readers: the same walk, accumulating a result. ----

  /** What firstTFDTByTrack makes of the boxes from `off` on, starting from what it has found so far. */
  ghost function FirstFrom(d: seq<byte>, off: nat, end: int, level: Level, first: map<nat, nat>): Option<map<nat, nat>> {
    match Tree(d, off, end, level)
    case None => None
    case Some(ns) => First(d, ns, first, false)
  }

  lemma {:induction false} FirstConcat(d: seq<byte>, a: seq<Node>, b: seq<Node>, first: map<nat, nat>, skip: bool)
    requires b == [] || !b[0].level.InTraf? || (!skip && forall n <- a :: n.level.InTraf?)
    ensures First(d, a + b, first, skip) ==
            match First(d, a, first, skip)
            case None => None
            case Some(m) => First(d, b, m, false)
  {
    if a == [] {
      assert a + b == b;
    } else {
      assert (a + b)[1..] == a[1..] + b;
      var n := a[0];
      if !n.level.InTraf? {
        FirstConcat(d, a[1..], b, first, IsTraf(n) && n.visit.level.track in first);
      } else if n.typ != TFDT || skip {
        FirstConcat(d, a[1..], b, first, skip);
      } else if NodeTicks(d, n).Some? {
        FirstConcat(d, a[1..], b, first[n.level.track := NodeTicks(d, n).value], skip);
      }
    }
  }

  lemma {:induction false} SkipAll(d: seq<byte>, ns: seq<Node>, first: map<nat, nat>)
    requires forall n <- ns :: n.level.InTraf?
    ensures First(d, ns, first, true) == Some(first)
  {
    if ns != [] {
      assert ns[0] in ns;
      SkipAll(d, ns[1..], first);
    }
  }

  lemma {:induction false} TrafParses(d: seq<byte>, off: nat, end: int, id: nat, track: nat)
    requires TrackId(d, off, end, id).Some?
    ensures Tree(d, off, end, InTraf(track)).Some?
    ensures forall n <- Tree(d, off, end, InTraf(track)).value :: n.level == InTraf(track)
    decreases |d| - off
  {
    if HasHeader(d, off, end) {
      var id' := if U32(d, off + 4) == TFHD then U32(d, off + 12) else id;
      TrafParses(d, off + U32(d, off), end, id', track);
    }
  }

  lemma SameLevel(d: seq<byte>, off: nat, end: int, level: Level)
    requires Tree(d, off, end, level).Some? && Tree(d, off, end, level).value != []
    ensures Tree(d, off, end, level).value[0].level == level
  {
  }

  /** What the callback of firstTFDTByTrack makes of one box and, where it walks them, of its children. */
  ghost function FirstAt(d: seq<byte>, n: Node, first: map<nat, nat>): Option<map<nat, nat>> {
    match n.visit
    case Fail => None
    case Into(inner) =>
      if inner.InTraf? && inner.track in first then Some(first) else FirstFrom(d, n.off + 8, n.off + n.size, inner, first)
    case Skip =>
      if !n.level.InTraf? || n.typ != TFDT then Some(first)
      else if NodeTicks(d, n).None? then None
      else Some(first[n.level.track := NodeTicks(d, n).value])
  }

  lemma FirstAtParent(d: seq<byte>, off: nat, end: int, level: Level, first: map<nat, nat>, n: Node)
    requires HasHeader(d, off, end) && n.size >= 8 && n == NodeAt(d, off, end, level) && n.visit.Into?
    requires Kids(d, n).Some? && Tree(d, off + n.size, end, level).Some?
    ensures First(d, [n] + Kids(d, n).value + Tree(d, off + n.size, end, level).value, first, false) ==
            match FirstAt(d, n, first)
            case None => None
            case Some(m) => FirstFrom(d, off + n.size, end, level, m)
  {
    var kids, rest := Kids(d, n).value, Tree(d, off + n.size, end, level).value;
    if rest != [] { SameLevel(d, off + n.size, end, level); }
    if IsTraf(n) { TrafParses(d, off + 8, off + n.size, 1, n.visit.level.track); }
    var skip := IsTraf(n) && n.visit.level.track in first;
    FirstOfNode(d, n, kids, rest, first);
    FirstConcat(d, kids, rest, first, skip);
    if skip { SkipAll(d, kids, first); }
  }

  lemma FirstOfNode(d: seq<byte>, n: Node, kids: seq<Node>, rest: seq<Node>, first: map<nat, nat>)
    requires !IsTfdt(n)
    ensures First(d, [n] + kids + rest, first, false)
         == First(d, kids + rest, first, IsTraf(n) && n.visit.Into? && n.visit.level.InTraf? && n.visit.level.track in first)
  {
    var ns := [n] + kids + rest;
    assert ns[0] == n && ns[1..] == kids + rest;
  }

  lemma FirstAtLeaf(d: seq<byte>, off: nat, end: int, level: Level, first: map<nat, nat>, n: Node)
    requires HasHeader(d, off, end) && n.size >= 8 && n == NodeAt(d, off, end, level) && n.visit.Skip?
    requires Tree(d, off + n.size, end, level).Some?
    ensures First(d, [n] + Tree(d, off + n.size, end, level).value, first, false) ==
            match FirstAt(d, n, first)
            case None => None
            case Some(m) => FirstFrom(d, off + n.size, end, level, m)
  {
    var rest := Tree(d, off + n.size, end, level).value;
    assert ([n] + rest)[0] == n && ([n] + rest)[1..] == rest;
  }

  /** One turn of the walk: the box at off, then the boxes after it. */
  lemma FirstTurn(d: seq<byte>, off: nat, end: int, level: Level, first: map<nat, nat>)
    requires HasHeader(d, off, end) && U32(d, off) >= 8
    ensures FirstFrom(d, off, end, level, first) ==
            match FirstAt(d, NodeAt(d, off, end, level), first)
            case None => None
            case Some(m) => FirstFrom(d, off + U32(d, off), end, level, m)
  {
    var n := NodeAt(d, off, end, level);
    var rest := Tree(d, off + n.size, end, level);
    if IsTraf(n) { TrafParses(d, off + 8, off + n.size, 1, n.visit.level.track); }
    var kids := Kids(d, n);
    if kids.Some? && rest.Some? {
      TreeFrom(d, off, end, level, kids.value, rest.value);
      if n.visit.Into? {
        FirstAtParent(d, off, end, level, first, n);
      } else {
        FirstAtLeaf(d, off, end, level, first, n);
        assert [n] + kids.value + rest.value == [n] + rest.value;
      }
    }
  }

  /** firstTFDTByTrack: the walk of one level. */
  method FirstTfdtWalk(data: array<byte>, start: nat, end: int, level: Level, known: map<nat, nat>)
    returns (found: Option<map<nat, nat>>)
    ensures found == FirstFrom(data[..], start, end, level, known)
    decreases 2 - Depth(level), data.Length - start, 1
  {
    var off: nat, first: map<nat, nat> := start, known;
    while off + 8 <= end && off + 8 <= data.Length
      invariant start <= off
      invariant FirstFrom(data[..], off, end, level, first) == FirstFrom(data[..], start, end, level, known)
      decreases data.Length - off
    {
      var size := ReadU32(data, off);
      if size < 8 { return None; }
      var next := FirstAtBox(data, off, size, end, level, first);
      FirstTurn(data[..], off, end, level, first);
      if next.None? { return None; }
      first := next.value;
      off := off + size;
    }
    found := Some(first);
  }

  /** The callback of one level of firstTFDTByTrack. */
  method FirstAtBox(data: array<byte>, off: nat, size: nat, ghost end: int, level: Level, first: map<nat, nat>)
    returns (next: Option<map<nat, nat>>)
    requires HasHeader(data[..], off, end) && size == U32(data[..], off) && size >= 8
    ensures next == FirstAt(data[..], NodeAt(data[..], off, end, level), first)
    decreases 2 - Depth(level), data.Length - off, 0
  {
    next := Some(first);
    var typ := ReadU32(data, off + 4);
    match level {
      case TopLevel =>
        if typ == MOOF { next := FirstTfdtWalk(data, off + 8, off + size, InMoof, first); }
      case InMoof =>
        if typ == TRAF {
          var track := TfhdTrackId(data, off + 8, off + size);
          if track.None? {
            next := None;
          } else if track.value !in first {
            next := FirstTfdtWalk(data, off + 8, off + size, InTraf(track.value), first);
          }
        }
      case InTraf(track) =>
        if typ == TFDT {
          var ticks := ReadTicks(data, off, size);
          next := if ticks.None? then None else Some(first[track := ticks.value]);
        }
    }
  }

  /** The primary track: 1 if it has a time, else the smallest in whatever order the map yields its keys. */
  method PrimaryTrack(first: map<nat, nat>) returns (p: nat)
    requires first != map[]
    ensures IsPrimary(first, p)
  {
    p := 0;
    if 1 in first { return 1; }
    var todo := first.Keys;
    while todo != {}
      invariant todo <= first.Keys
      invariant p in first || (p == 0 && todo == first.Keys)
      invariant 0 !in first && todo != first.Keys ==> p != 0 && forall t <- first :: t in todo || p <= t
      decreases |todo|
    {
      var id :| id in todo;
      if p == 0 || id < p { p := id; }
      todo := todo - {id};
    }
  }

  /** AlignFragmentToMediaStartWithTimescales; None stands for its error. The input is left alone. */
  method AlignFragment(media: array<byte>, start: real, timescales: map<nat, nat>) returns (out: Option<array<byte>>)
    ensures Aligned(media[..], start, timescales, if out.None? then None else Some(out.value[..]))
  {
    if media.Length == 0 { return Some(media); }
    var copy := new byte[media.Length](i requires 0 <= i < media.Length reads media => media[i]);
    assert copy[..] == media[..];
    var first := FirstTfdtWalk(copy, 0, copy.Length, TopLevel, map[]);
    assert first == FirstOf(media[..]);
    if first.None? { return None; }
    if first.value == map[] { return Some(copy); }
    var p := PrimaryTrack(first.value);
    var deltas := Deltas(first.value, DeltaSec(first.value, p, start, timescales), timescales);
    var ok := ApplyDeltas(copy, 0, copy.Length, TopLevel, deltas);
    ghost var spec := AlignWith(media[..], start, timescales, p);
    assert ok == spec.Some? && (ok ==> copy[..] == spec.value);
    out := if ok then Some(copy) else None;
  }
}
