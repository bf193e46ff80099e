/**
 * The nested box walk of mp4/tfdt.go. The callbacks of the source descend from the file into
 * each moof, from a moof into each traf, and from a traf to its tfdt; here the level of a walk
 * says which callback runs. A 4-character box type is the big-endian number of its 4 bytes.
 */
module BoxTree {
  import opened Wrappers
  import opened Bytes

  const MOOF: nat := 0x6d6f_6f66
  const TRAF: nat := 0x7472_6166
  const TFHD: nat := 0x7466_6864
  const TFDT: nat := 0x7466_6474

  datatype Level = TopLevel | InMoof | InTraf(track: nat)

  /** What the callback of a level does with one box: fail, pass over it, or walk its children. */
  datatype Visit = Fail | Skip | Into(level: Level)

  /** One visited box. `limit` is where the walk that met it was told to end. */
  datatype Node = Node(level: Level, off: nat, size: nat, typ: nat, limit: int, visit: Visit)

  function Depth(level: Level): nat {
    match level
    case TopLevel => 0
    case InMoof => 1
    case InTraf(_) => 2
  }

  /** The loop condition of walkAtoms: a whole 8-byte header is left in the range and the buffer. */
  predicate HasHeader(d: seq<byte>, off: nat, end: int) {
    off + 8 <= end && off + 8 <= |d|
  }

  /** The track of a traf whose children lie in [off, end): the last tfhd wins, `id` if there is none. */
  function TrackId(d: seq<byte>, off: nat, end: int, id: nat): Option<nat>
    decreases |d| - off
  {
    if !HasHeader(d, off, end) then Some(id)
    else if U32(d, off) < 8 then None
    else if U32(d, off + 4) != TFHD then TrackId(d, off + U32(d, off), end, id)
    else if off + 16 > |d| then None
    else TrackId(d, off + U32(d, off), end, U32(d, off + 12))
  }

  function Callback(d: seq<byte>, off: nat, level: Level): (v: Visit)
    requires off + 8 <= |d|
    ensures v.Into? ==> Depth(v.level) == Depth(level) + 1
  {
    match level
    case TopLevel => if U32(d, off + 4) == MOOF then Into(InMoof) else Skip
    case InMoof =>
      if U32(d, off + 4) != TRAF then Skip else
      (match TrackId(d, off + 8, off + U32(d, off), 1)
       case None => Fail
       case Some(track) => Into(InTraf(track)))
    case InTraf(_) => Skip
  }

  function NodeAt(d: seq<byte>, off: nat, end: int, level: Level): (n: Node)
    requires HasHeader(d, off, end)
  {
    Node(level, off, U32(d, off), U32(d, off + 4), end, Callback(d, off, level))
  }

  /** Every box the walk visits, parents before children; None when a size below 8 or a cut tfhd stops it. */
  function Tree(d: seq<byte>, off: nat, end: int, level: Level): Option<seq<Node>>
    decreases 2 - Depth(level), |d| - off, 1
  {
    if !HasHeader(d, off, end) then Some([])
    else if U32(d, off) < 8 then None
    else
      var n := NodeAt(d, off, end, level);
      var kids := Kids(d, n);
      var rest := Tree(d, off + n.size, end, level);
      if kids.None? || rest.None? then None else Some([n] + kids.value + rest.value)
  }

  predicate Descends(n: Node) {
    n.visit.Into? ==> Depth(n.visit.level) == Depth(n.level) + 1
  }

  function Kids(d: seq<byte>, n: Node): Option<seq<Node>>
    requires Descends(n)
    decreases 2 - Depth(n.level), |d| - n.off, 0
  {
    match n.visit
    case Fail => None
    case Skip => Some([])
    case Into(level) => Tree(d, n.off + 8, n.off + n.size, level)
  }

  function FileTree(d: seq<byte>): Option<seq<Node>> {
    Tree(d, 0, |d|, TopLevel)
  }

  predicate IsTfdt(n: Node) {
    n.level.InTraf? && n.typ == TFDT
  }

  /**
   * A box ISO/IEC 14496-12 would accept where the walk met it: inside its parent, a tfhd holding
   * its track_ID (8.8.7), a version 1 tfdt holding its 64-bit time (8.8.12) below 2^63.
   */
  predicate Sound(d: seq<byte>, n: Node) {
    && (n.level != TopLevel || n.typ == MOOF ==> n.off + n.size <= n.limit)
    && (n.level.InTraf? && n.typ == TFHD ==> n.size >= 16)
    && (IsTfdt(n) && n.size >= 16 && n.off + 9 <= |d| && d[n.off + 8] == 1 ==>
          n.size >= 20 && (n.off + 20 <= |d| ==> U64(d, n.off + 12) < TWO_63))
  }

  predicate AllSound(d: seq<byte>, ns: seq<Node>) {
    forall n <- ns :: Sound(d, n)
  }

  /** A file whose boxes nest: the whole walk succeeds and every box it visits is sound. */
  predicate WellNested(d: seq<byte>) {
    FileTree(d).Some? && AllSound(d, FileTree(d).value)
  }

  // ---- The walk reads nothing outside its range, and does not care where the range lies. ----

  predicate Moved(n: Node, n': Node, k: int) {
    n'.off == n.off + k && n'.limit == n.limit + k
    && n'.level == n.level && n'.size == n.size && n'.typ == n.typ && n'.visit == n.visit
  }

  predicate AllMoved(ns: seq<Node>, ns': seq<Node>, k: int) {
    |ns| == |ns'| && forall i :: 0 <= i < |ns| ==> Moved(ns[i], ns'[i], k)
  }

  /** d' holds the bytes [off, end) of d, k places further on. */
  predicate Copied(d: seq<byte>, d': seq<byte>, k: int, off: nat, end: int) {
    && end <= |d| && end + k <= |d'| && off + k >= 0
    && forall i {:trigger d[i]} :: off <= i < end ==> d[i] == d'[i + k]
  }

  lemma CopiedU32(d: seq<byte>, d': seq<byte>, k: int, off: nat, end: int, i: nat)
    requires Copied(d, d', k, off, end) && off <= i && i + 4 <= end
    ensures U32(d', i + k) == U32(d, i)
  {
    assert d[i] == d'[i + k] && d[i + 1] == d'[i + 1 + k] && d[i + 2] == d'[i + 2 + k] && d[i + 3] == d'[i + 3 + k];
  }

  lemma {:induction false} TrackIdMoves(d: seq<byte>, d': seq<byte>, k: int, off: nat, end: int, id: nat, track: nat)
    requires Copied(d, d', k, off, end)
    requires Tree(d, off, end, InTraf(track)).Some? && AllSound(d, Tree(d, off, end, InTraf(track)).value)
    ensures TrackId(d', off + k, end + k, id) == TrackId(d, off, end, id)
    decreases |d| - off
  {
    if HasHeader(d, off, end) {
      CopiedU32(d, d', k, off, end, off);
      CopiedU32(d, d', k, off, end, off + 4);
      var n := NodeAt(d, off, end, InTraf(track));
      var ns := Tree(d, off, end, InTraf(track)).value;
      assert ns[0] == n && ns[1..] == Tree(d, off + n.size, end, InTraf(track)).value;
      assert Sound(d, n);
      var id' := id;
      if n.typ == TFHD {
        CopiedU32(d, d', k, off, end, off + 12);
        id' := U32(d, off + 12);
      }
      if off + n.size <= end {
        TrackIdMoves(d, d', k, off + n.size, end, id', track);
      }
    }
  }

  /** One step of the walk, with the soundness of its parts. */
  lemma TreeStep(d: seq<byte>, off: nat, end: int, level: Level)
    requires HasHeader(d, off, end)
    requires Tree(d, off, end, level).Some?
    ensures var n := NodeAt(d, off, end, level);
      && n.size >= 8 && !n.visit.Fail? && Kids(d, n).Some? && Tree(d, off + n.size, end, level).Some?
      && Tree(d, off, end, level).value == [n] + Kids(d, n).value + Tree(d, off + n.size, end, level).value
      && (AllSound(d, Tree(d, off, end, level).value) ==>
            Sound(d, n) && AllSound(d, Kids(d, n).value) && AllSound(d, Tree(d, off + n.size, end, level).value))
  {
    var n := NodeAt(d, off, end, level);
    var kids, rest := Kids(d, n).value, Tree(d, off + n.size, end, level).value;
    var ns := Tree(d, off, end, level).value;
    if AllSound(d, ns) {
      assert n in ns;
      forall m | m in kids + rest ensures Sound(d, m) { assert m in ns; }
    }
  }

  lemma AllMovedConcat(n: Node, kids: seq<Node>, rest: seq<Node>, n': Node, kids': seq<Node>, rest': seq<Node>, k: int)
    requires Moved(n, n', k) && AllMoved(kids, kids', k) && AllMoved(rest, rest', k)
    ensures AllMoved([n] + kids + rest, [n'] + kids' + rest', k)
  {
  }

  lemma NodeMoves(d: seq<byte>, d': seq<byte>, k: int, off: nat, end: int, level: Level)
    requires Copied(d, d', k, off, end)
    requires HasHeader(d, off, end)
    requires Tree(d, off, end, level).Some? && AllSound(d, Tree(d, off, end, level).value)
    ensures HasHeader(d', off + k, end + k)
    ensures Moved(NodeAt(d, off, end, level), NodeAt(d', off + k, end + k, level), k)
  {
    TreeStep(d, off, end, level);
    CopiedU32(d, d', k, off, end, off);
    CopiedU32(d, d', k, off, end, off + 4);
    var n := NodeAt(d, off, end, level);
    if level == InMoof && n.typ == TRAF {
      TrackIdMoves(d, d', k, off + 8, off + n.size, 1, n.visit.level.track);
    }
  }

  /** The tree of a range whose first box, its children and its rest have all been parsed. */
  lemma TreeFrom(d: seq<byte>, off: nat, end: int, level: Level, kids: seq<Node>, rest: seq<Node>)
    requires HasHeader(d, off, end) && U32(d, off) >= 8
    requires Kids(d, NodeAt(d, off, end, level)) == Some(kids)
    requires Tree(d, off + U32(d, off), end, level) == Some(rest)
    ensures Tree(d, off, end, level) == Some([NodeAt(d, off, end, level)] + kids + rest)
  {
  }

  lemma PartsMoved(d: seq<byte>, d': seq<byte>, k: int, off: nat, end: int, level: Level, kids': seq<Node>, rest': seq<Node>)
    requires HasHeader(d, off, end) && off + k >= 0 && HasHeader(d', off + k, end + k)
    requires Tree(d, off, end, level).Some?
    requires var n, n' := NodeAt(d, off, end, level), NodeAt(d', off + k, end + k, level);
      && Moved(n, n', k) && Kids(d', n') == Some(kids') && Tree(d', off + k + n.size, end + k, level) == Some(rest')
      && Kids(d, n).Some? && AllMoved(Kids(d, n).value, kids', k)
      && Tree(d, off + n.size, end, level).Some? && AllMoved(Tree(d, off + n.size, end, level).value, rest', k)
    ensures Tree(d', off + k, end + k, level).Some?
    ensures AllMoved(Tree(d, off, end, level).value, Tree(d', off + k, end + k, level).value, k)
  {
    TreeStep(d, off, end, level);
    var n, n' := NodeAt(d, off, end, level), NodeAt(d', off + k, end + k, level);
    AllMovedConcat(n, Kids(d, n).value, Tree(d, off + n.size, end, level).value, n', kids', rest', k);
    TreeFrom(d', off + k, end + k, level, kids', rest');
  }

  /** The tree of [off, end) depends on its own bytes only: copied elsewhere, they parse to the same boxes. */
  lemma {:induction false} TreeMoves(d: seq<byte>, d': seq<byte>, k: int, off: nat, end: int, level: Level)
    requires Copied(d, d', k, off, end)
    requires Tree(d, off, end, level).Some? && AllSound(d, Tree(d, off, end, level).value)
    ensures Tree(d', off + k, end + k, level).Some?
    ensures AllMoved(Tree(d, off, end, level).value, Tree(d', off + k, end + k, level).value, k)
    decreases 2 - Depth(level), |d| - off, 1
  {
    if HasHeader(d, off, end) {
      TreeStep(d, off, end, level);
      NodeMoves(d, d', k, off, end, level);
      var n, n' := NodeAt(d, off, end, level), NodeAt(d', off + k, end + k, level);
      KidsMove(d, d', k, n, n');
      RestMoves(d, d', k, off + n.size, end, level);
      PartsMoved(d, d', k, off, end, level, Kids(d', n').value, Tree(d', off + k + n.size, end + k, level).value);
    }
  }

  lemma {:induction false} KidsMove(d: seq<byte>, d': seq<byte>, k: int, n: Node, n': Node)
    requires n.size >= 8 && Moved(n, n', k) && !n.visit.Fail? && Descends(n)
    requires n.visit.Into? ==> Copied(d, d', k, n.off + 8, n.off + n.size)
    requires Kids(d, n).Some? && AllSound(d, Kids(d, n).value)
    ensures Kids(d', n').Some? && AllMoved(Kids(d, n).value, Kids(d', n').value, k)
    decreases 2 - Depth(n.level), |d| - n.off, 0
  {
    if n.visit.Into? {
      TreeMoves(d, d', k, n.off + 8, n.off + n.size, n.visit.level);
    }
  }

  lemma {:induction false} RestMoves(d: seq<byte>, d': seq<byte>, k: int, off: nat, end: int, level: Level)
    requires off + k >= 0 && end <= |d| && end + k <= |d'|
    requires off <= end ==> Copied(d, d', k, off, end)
    requires Tree(d, off, end, level).Some? && AllSound(d, Tree(d, off, end, level).value)
    ensures Tree(d', off + k, end + k, level).Some?
    ensures AllMoved(Tree(d, off, end, level).value, Tree(d', off + k, end + k, level).value, k)
    decreases 2 - Depth(level), |d| - off, 2
  {
    if off <= end {
      TreeMoves(d, d', k, off, end, level);
    }
  }
}
