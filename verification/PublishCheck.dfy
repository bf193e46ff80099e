/**
 * mp4/hls_validate.go and mp4/hls_publish.go: the monotonicity check as the source runs it, a nested walk that updates
 * the last time seen, and the whole check of a fragment in memory and of a file on disk.
 */
module PublishCheck {
  import opened Wrappers
  import opened Bytes
  import opened BoxTree
  import opened Tfdt
  import opened FirstTimes
  import opened AlignInPlace
  import opened FastReader

  /** What the check makes of the boxes from `off` on, starting from the last time it has seen. */
  ghost function LastFrom(d: seq<byte>, off: nat, end: int, level: Level, last: Option<nat>): Option<Option<nat>> {
    match Tree(d, off, end, level)
    case None => None
    case Some(ns) => LastTime(d, ns, last)
  }

  /** What its callback makes of one box and, where it walks them, of its children. */
  ghost function LastAt(d: seq<byte>, n: Node, last: Option<nat>): Option<Option<nat>> {
    match n.visit
    case Fail => None
    case Into(inner) =>
      if inner.InTraf? && inner.track != 1 then Some(last) else LastFrom(d, n.off + 8, n.off + n.size, inner, last)
    case Skip => LastTime(d, [n], last)
  }

  lemma {:induction false} OtherTracksIgnored(d: seq<byte>, ns: seq<Node>, last: Option<nat>)
    requires forall n <- ns :: n.level.InTraf? && n.level.track != 1
    ensures LastTime(d, ns, last) == Some(last)
  {
    if ns != [] {
      assert ns[0] in ns;
      OtherTracksIgnored(d, ns[1..], last);
    }
  }

  lemma LastOfOne(d: seq<byte>, n: Node, last: Option<nat>)
    ensures LastTime(d, [n], last) ==
            if !IsTfdt(n) || n.level.track != 1 then Some(last)
            else if NodeTicks(d, n).None? || (last.Some? && NodeTicks(d, n).value < last.value) then None
            else Some(NodeTicks(d, n))
  {
    assert [n][1..] == [];
    assert forall l :: LastTime(d, [], l) == Some(l);
  }

  /** The times of a box and of its children, before those of the boxes after it. */
  lemma LastOfBox(d: seq<byte>, n: Node, kids: seq<Node>, rest: seq<Node>, last: Option<nat>)
    ensures LastTime(d, [n] + kids + rest, last) ==
            match LastTime(d, [n] + kids, last)
            case None => None
            case Some(l) => LastTime(d, rest, l)
  {
    LastTimeConcat(d, [n] + kids, rest, last);
  }

  lemma LastOfParent(d: seq<byte>, n: Node, kids: seq<Node>, last: Option<nat>)
    requires !IsTfdt(n)
    ensures LastTime(d, [n] + kids, last) == LastTime(d, kids, last)
  {
    LastOfOne(d, n, last);
    LastTimeConcat(d, [n], kids, last);
  }

  lemma LastAtIs(d: seq<byte>, off: nat, end: int, level: Level, last: Option<nat>, n: Node)
    requires HasHeader(d, off, end) && n.size >= 8 && n == NodeAt(d, off, end, level) && Kids(d, n).Some?
    ensures LastAt(d, n, last) == LastTime(d, [n] + Kids(d, n).value, last)
  {
    var kids := Kids(d, n).value;
    if n.visit.Into? {
      LastOfParent(d, n, kids, last);
      if n.visit.level.InTraf? && n.visit.level.track != 1 {
        TrafParses(d, off + 8, off + n.size, 1, n.visit.level.track);
        OtherTracksIgnored(d, kids, last);
      }
    } else {
      assert [n] + kids == [n];
    }
  }

  /** One turn of the walk. */
  lemma LastTurn(d: seq<byte>, off: nat, end: int, level: Level, last: Option<nat>)
    requires HasHeader(d, off, end) && U32(d, off) >= 8
    ensures LastFrom(d, off, end, level, last) ==
            match LastAt(d, NodeAt(d, off, end, level), last)
            case None => None
            case Some(l) => LastFrom(d, off + U32(d, off), end, level, l)
  {
    var n := NodeAt(d, off, end, level);
    if IsTraf(n) {
      TrafParses(d, off + 8, off + n.size, 1, n.visit.level.track);
    }
    var kids, rest := Kids(d, n), Tree(d, off + n.size, end, level);
    if kids.Some? && rest.Some? {
      TreeFrom(d, off, end, level, kids.value, rest.value);
      LastAtIs(d, off, end, level, last, n);
      LastOfBox(d, n, kids.value, rest.value, last);
    }
  }

  /** The walk of one level. */
  method MonotonicWalk(data: array<byte>, start: nat, end: int, level: Level, seen: Option<nat>)
    returns (last: Option<Option<nat>>)
    ensures last == LastFrom(data[..], start, end, level, seen)
    decreases 2 - Depth(level), data.Length - start, 1
  {
    var off: nat, now: Option<nat> := start, seen;
    while off + 8 <= end && off + 8 <= data.Length
      invariant start <= off
      invariant LastFrom(data[..], off, end, level, now) == LastFrom(data[..], start, end, level, seen)
      decreases data.Length - off
    {
      var size := ReadU32(data, off);
      if size < 8 { return None; }
      var next := MonotonicAtBox(data, off, size, end, level, now);
      LastTurn(data[..], off, end, level, now);
      if next.None? { return None; }
      now := next.value;
      off := off + size;
    }
    last := Some(now);
  }

  /** The callback of one level. */
  method MonotonicAtBox(data: array<byte>, off: nat, size: nat, ghost end: int, level: Level, last: Option<nat>)
    returns (next: Option<Option<nat>>)
    requires HasHeader(data[..], off, end) && size == U32(data[..], off) && size >= 8
    ensures next == LastAt(data[..], NodeAt(data[..], off, end, level), last)
    decreases 2 - Depth(level), data.Length - off, 0
  {
    next := Some(last);
    var typ := ReadU32(data, off + 4);
    ghost var n := NodeAt(data[..], off, end, level);
    LastOfOne(data[..], n, last);
    match level {
      case TopLevel =>
        if typ == MOOF { next := MonotonicWalk(data, off + 8, off + size, InMoof, last); }
      case InMoof =>
        if typ == TRAF {
          var track := TfhdTrackId(data, off + 8, off + size);
          if track.None? {
            next := None;
          } else if track.value == 1 {
            next := MonotonicWalk(data, off + 8, off + size, InTraf(1), last);
          }
        }
      case InTraf(track) =>
        if typ == TFDT && track == 1 {
          var ticks := ReadTicks(data, off, size);
          if ticks.None? {
            next := None;
          } else if last.Some? && ticks.value < last.value {
            next := None;
          } else {
            next := Some(ticks);
          }
        }
    }
  }

  /** A fragment in memory is publishable exactly when it has a time and track 1 never steps back. */
  method PublishableFragment(data: array<byte>) returns (ok: bool)
    ensures ok == Publishable(data[..])
  {
    if data.Length < MIN_FRAGMENT_BYTES { return false; }
    var first := FirstTfdtWalk(data, 0, data.Length, TopLevel, map[]);
    assert first == FirstOf(data[..]);
    if first.None? || |first.value| == 0 { return false; }
    var last := MonotonicWalk(data, 0, data.Length, TopLevel, None);
    ok := last.Some?;
  }

  /** The check of a file on disk, which reads nothing but its top-level moofs. */
  method PublishableReaderAt(file: array<byte>) returns (ok: bool)
    ensures ok == PublishableByReader(file[..])
  {
    if file.Length < MIN_FRAGMENT_BYTES { return false; }
    var moof := ReadTopLevelMoofBoxes(file);
    if moof.None? || |moof.value| < MIN_FRAGMENT_BYTES { return false; }
    var m := moof.value;
    var buf := new byte[|m|](i requires 0 <= i < |m| => m[i]);
    assert buf[..] == m;
    ok := PublishableFragment(buf);
  }
}
