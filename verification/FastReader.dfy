/**
 * mp4/hls_reader.go: judging a segment file by its top-level moof boxes alone, and why that is
 * as good as judging the whole file.
 */
module FastReader {
  import opened Wrappers
  import opened Bytes
  import opened BoxTree
  import opened Tfdt
  import opened FirstTimes
  import opened AlignInPlace

  const MAX_MOOF_BYTES: nat := 0x40_0000

  /** readTopLevelMoofBoxes, from `off` on: the moof boxes one after the other. */
  function Moofs(f: seq<byte>, off: nat): Option<seq<byte>>
    decreases |f| - off
  {
    if off + 8 > |f| then Some([])
    else
      var size := if U32(f, off) == 0 then |f| - off else U32(f, off);
      if size < 8 || off + size > |f| then None
      else if U32(f, off + 4) != MOOF then Moofs(f, off + size)
      else if size > MAX_MOOF_BYTES then None
      else
        match Moofs(f, off + size)
        case None => None
        case Some(rest) => Some(f[off..off + size] + rest)
  }

  /** PublishableHLSSegmentReaderAt. */
  predicate PublishableByReader(f: seq<byte>) {
    && |f| >= MIN_FRAGMENT_BYTES
    && Moofs(f, 0).Some? && |Moofs(f, 0).value| >= MIN_FRAGMENT_BYTES
    && Publishable(Moofs(f, 0).value)
  }

  ghost function Prepend(read: seq<byte>, rest: Option<seq<byte>>): Option<seq<byte>> {
    match rest
    case None => None
    case Some(moofs) => Some(read + moofs)
  }

  /** One turn of the loop, on a box that fits. */
  lemma ReadTurn(f: seq<byte>, off: nat, size: nat, read: seq<byte>)
    requires off + 8 <= |f| && size == (if U32(f, off) == 0 then |f| - off else U32(f, off))
    requires 8 <= size && off + size <= |f| && (U32(f, off + 4) == MOOF ==> size <= MAX_MOOF_BYTES)
    ensures var box := if U32(f, off + 4) == MOOF then f[off..off + size] else [];
      Prepend(read, Moofs(f, off)) == Prepend(read + box, Moofs(f, off + size))
  {
    var rest := Moofs(f, off + size);
    if rest.Some? {
      assert read + (f[off..off + size] + rest.value) == (read + f[off..off + size]) + rest.value;
      assert read + [] == read;
    }
  }

  method ReadTopLevelMoofBoxes(file: array<byte>) returns (moof: Option<seq<byte>>)
    ensures moof == Moofs(file[..], 0)
  {
    var off: nat, read := 0, [];
    ghost var f := file[..];
    assert Prepend(read, Moofs(f, 0)) == Moofs(f, 0) by {
      if Moofs(f, 0).Some? { assert [] + Moofs(f, 0).value == Moofs(f, 0).value; }
    }
    while off + 8 <= file.Length
      invariant Prepend(read, Moofs(f, off)) == Moofs(f, 0)
      decreases file.Length - off
    {
      var size := ReadU32(file, off);
      var typ := ReadU32(file, off + 4);
      if size == 0 { size := file.Length - off; }
      if size < 8 || off + size > file.Length { return None; }
      if typ == MOOF && size > MAX_MOOF_BYTES { return None; }
      ReadTurn(f, off, size, read);
      if typ == MOOF {
        read := read + file[off..off + size];
      } else {
        assert read + [] == read;
      }
      off := off + size;
    }
    assert read + [] == read;
    moof := Some(read);
  }

  // ---- The two checks agree. ----

  /** Every top-level box lies inside the file, and no moof is larger than the reader takes. */
  predicate TopBoxesFit(f: seq<byte>, ns: seq<Node>) {
    forall n <- ns :: n.level == TopLevel ==> n.off + n.size <= |f| && (n.typ == MOOF ==> n.size <= 4194304)
  }

  function MoofBytes(ns: seq<Node>): nat {
    if ns == [] then 0
    else (if ns[0].level == TopLevel && ns[0].typ == MOOF then ns[0].size else 0) + MoofBytes(ns[1..])
  }

  lemma {:induction false} MoofBytesConcat(a: seq<Node>, b: seq<Node>)
    ensures MoofBytes(a + b) == MoofBytes(a) + MoofBytes(b)
  {
    if a == [] {
      assert a + b == b;
    } else {
      assert (a + b)[1..] == a[1..] + b;
      MoofBytesConcat(a[1..], b);
    }
  }

  lemma {:induction false} NoMoofBytes(ns: seq<Node>)
    requires forall n <- ns :: n.level != TopLevel
    ensures MoofBytes(ns) == 0
  {
    if ns != [] {
      assert ns[0] in ns;
      NoMoofBytes(ns[1..]);
    }
  }

  lemma {:induction false} Deeper(d: seq<byte>, off: nat, end: int, level: Level)
    requires Tree(d, off, end, level).Some?
    ensures forall n <- Tree(d, off, end, level).value :: Depth(n.level) >= Depth(level)
    decreases 2 - Depth(level), |d| - off
  {
    if HasHeader(d, off, end) {
      TreeStep(d, off, end, level);
      var n := NodeAt(d, off, end, level);
      if n.visit.Into? { Deeper(d, off + 8, off + n.size, n.visit.level); }
      Deeper(d, off + n.size, end, level);
    }
  }

  /** A box and what it says move together with its bytes. */
  lemma NodeMovesWithBytes(d: seq<byte>, d': seq<byte>, k: int, lo: nat, hi: int, n: Node, n': Node)
    requires Copied(d, d', k, lo, hi) && Moved(n, n', k) && Sound(d, n)
    requires lo <= n.off && (IsTfdt(n) ==> n.off + n.size <= hi && n.size >= 8)
    ensures Sound(d', n') && (IsTfdt(n) ==> NodeTicks(d', n') == NodeTicks(d, n))
  {
    assert n.off + 9 <= hi ==> d'[n.off + 8 + k] == d[n.off + 8];
    if IsTfdt(n) && n.size >= 16 {
      CopiedU32(d, d', k, lo, hi, n.off + 12);
      if d[n.off + 8] == 1 { CopiedU32(d, d', k, lo, hi, n.off + 16); }
    }
  }

  /** The boxes ns of d and ns' of d' tell the folds the same. */
  predicate SameNews(d: seq<byte>, ns: seq<Node>, d': seq<byte>, ns': seq<Node>) {
    |ns| == |ns'| && forall i :: 0 <= i < |ns| ==>
      && ns'[i].level == ns[i].level && ns'[i].typ == ns[i].typ && ns'[i].visit == ns[i].visit
      && (IsTfdt(ns[i]) ==> NodeTicks(d', ns'[i]) == NodeTicks(d, ns[i]))
  }

  lemma AllMoveWithBytes(d: seq<byte>, d': seq<byte>, k: int, lo: nat, hi: int, ns: seq<Node>, ns': seq<Node>)
    requires Copied(d, d', k, lo, hi) && AllMoved(ns, ns', k) && AllSound(d, ns) && Within(ns, lo, hi)
    requires forall n <- ns :: n.size >= 8
    ensures AllSound(d', ns') && SameNews(d, ns, d', ns')
  {
    forall i | 0 <= i < |ns|
      ensures Sound(d', ns'[i]) && (IsTfdt(ns[i]) ==> NodeTicks(d', ns'[i]) == NodeTicks(d, ns[i]))
    {
      assert ns[i] in ns && Moved(ns[i], ns'[i], k);
      NodeMovesWithBytes(d, d', k, lo, hi, ns[i], ns'[i]);
    }
  }

  lemma {:induction false} FirstSame(d: seq<byte>, ns: seq<Node>, d': seq<byte>, ns': seq<Node>, first: map<nat, nat>, skip: bool)
    requires SameNews(d, ns, d', ns')
    ensures First(d', ns', first, skip) == First(d, ns, first, skip)
  {
    if ns != [] {
      var n := ns[0];
      if !n.level.InTraf? {
        FirstSame(d, ns[1..], d', ns'[1..], first, IsTraf(n) && n.visit.level.track in first);
      } else if n.typ != TFDT || skip {
        FirstSame(d, ns[1..], d', ns'[1..], first, skip);
      } else if NodeTicks(d, n).Some? {
        FirstSame(d, ns[1..], d', ns'[1..], first[n.level.track := NodeTicks(d, n).value], skip);
      }
    }
  }

  lemma {:induction false} LastTimeSame(d: seq<byte>, ns: seq<Node>, d': seq<byte>, ns': seq<Node>, last: Option<nat>)
    requires SameNews(d, ns, d', ns')
    ensures LastTime(d', ns', last) == LastTime(d, ns, last)
  {
    if ns != [] {
      var n := ns[0];
      if !IsTfdt(n) || n.level.track != 1 {
        LastTimeSame(d, ns[1..], d', ns'[1..], last);
      } else if NodeTicks(d, n).Some? {
        LastTimeSame(d, ns[1..], d', ns'[1..], NodeTicks(d, n));
      }
    }
  }

  lemma {:induction false} LastTimeConcat(d: seq<byte>, a: seq<Node>, b: seq<Node>, last: Option<nat>)
    ensures LastTime(d, a + b, last) ==
            match LastTime(d, a, last)
            case None => None
            case Some(t) => LastTime(d, b, t)
  {
    if a == [] {
      assert a + b == b;
    } else {
      assert (a + b)[1..] == a[1..] + b;
      if !IsTfdt(a[0]) || a[0].level.track != 1 {
        LastTimeConcat(d, a[1..], b, last);
      } else if NodeTicks(d, a[0]).Some? {
        LastTimeConcat(d, a[1..], b, NodeTicks(d, a[0]));
      }
    }
  }

  lemma {:induction false} SizesAtLeast8(d: seq<byte>, off: nat, end: int, level: Level)
    requires Tree(d, off, end, level).Some?
    ensures forall n <- Tree(d, off, end, level).value :: n.size >= 8
    decreases 2 - Depth(level), |d| - off
  {
    if HasHeader(d, off, end) {
      TreeStep(d, off, end, level);
      var n := NodeAt(d, off, end, level);
      if n.visit.Into? { SizesAtLeast8(d, off + 8, off + n.size, n.visit.level); }
      SizesAtLeast8(d, off + n.size, end, level);
    }
  }

  /** The children of a moof, copied elsewhere. */
  lemma ChildrenMove(f: seq<byte>, m: seq<byte>, k: int, off: nat, end: nat, level: Level) returns (kids': seq<Node>)
    requires Copied(f, m, k, off, end)
    requires Tree(f, off, end, level).Some? && AllSound(f, Tree(f, off, end, level).value)
    ensures Tree(m, off + k, end + k, level) == Some(kids')
    ensures AllSound(m, kids') && SameNews(f, Tree(f, off, end, level).value, m, kids')
  {
    TreeMoves(f, m, k, off, end, level);
    TreeWithin(f, off, end, level);
    SizesAtLeast8(f, off, end, level);
    kids' := Tree(m, off + k, end + k, level).value;
    AllMoveWithBytes(f, m, k, off, end, Tree(f, off, end, level).value, kids');
  }

  lemma SameNewsConcat(d: seq<byte>, a: seq<Node>, b: seq<Node>, d': seq<byte>, a': seq<Node>, b': seq<Node>)
    requires SameNews(d, a, d', a') && SameNews(d, b, d', b')
    ensures SameNews(d, a + b, d', a' + b')
  {
  }

  /** The moof of f at off, where it now stands: at the front of m. */
  lemma MoofHead(f: seq<byte>, off: nat, rest: seq<byte>, n: Node, m: seq<byte>) returns (kids': seq<Node>)
    requires HasHeader(f, off, |f|) && n == NodeAt(f, off, |f|, TopLevel) && n.typ == MOOF && n.size >= 8
    requires off + n.size <= |f| && Kids(f, n).Some? && AllSound(f, Kids(f, n).value)
    requires m == f[off..off + n.size] + rest
    ensures HasHeader(m, 0, |m|) && U32(m, 0) == n.size && U32(m, 4) == MOOF
    ensures Tree(m, 8, n.size, InMoof) == Some(kids') && AllSound(m, kids') && SameNews(f, Kids(f, n).value, m, kids')
  {
    var k := -(off as int);
    assert Copied(f, m, k, off, off + n.size);
    CopiedU32(f, m, k, off, off + n.size, off);
    CopiedU32(f, m, k, off, off + n.size, off + 4);
    kids' := ChildrenMove(f, m, k, off + 8, off + n.size, InMoof);
  }

  /** The moofs after it. */
  lemma MoofTail(head: seq<byte>, rest: seq<byte>, m: seq<byte>) returns (tail: seq<Node>)
    requires WellNested(rest) && m == head + rest
    ensures Tree(m, |head|, |m|, TopLevel) == Some(tail) && AllSound(m, tail) && SameNews(rest, FileTree(rest).value, m, tail)
  {
    assert Copied(rest, m, |head|, 0, |rest|);
    tail := ChildrenMove(rest, m, |head|, 0, |rest|, TopLevel);
  }

  /** A moof of f at off followed by the moofs `rest`: one well-nested file, whose boxes are theirs, moved. */
  lemma MoofThenRest(f: seq<byte>, off: nat, rest: seq<byte>, n: Node) returns (m: seq<byte>, head: seq<Node>, tail: seq<Node>)
    requires HasHeader(f, off, |f|) && n == NodeAt(f, off, |f|, TopLevel) && n.typ == MOOF && n.size >= 8
    requires off + n.size <= |f| && Kids(f, n).Some? && AllSound(f, Kids(f, n).value)
    requires WellNested(rest)
    ensures m == f[off..off + n.size] + rest && FileTree(m) == Some(head + tail) && WellNested(m)
    ensures SameNews(f, [n] + Kids(f, n).value, m, head) && SameNews(rest, FileTree(rest).value, m, tail)
  {
    m := f[off..off + n.size] + rest;
    var kids' := MoofHead(f, off, rest, n, m);
    tail := MoofTail(f[off..off + n.size], rest, m);
    var n' := NodeAt(m, 0, |m|, TopLevel);
    TreeFrom(m, 0, |m|, TopLevel, kids', tail);
    head := [n'] + kids';
    SameNewsConcat(f, [n], Kids(f, n).value, m, [n'], kids');
    SoundJoins(m, n', kids', tail);
  }

  lemma SoundJoins(m: seq<byte>, n: Node, kids: seq<Node>, tail: seq<Node>)
    requires Sound(m, n) && AllSound(m, kids) && AllSound(m, tail)
    ensures AllSound(m, [n] + kids + tail)
  {
    forall x | x in [n] + kids + tail ensures Sound(m, x) {
      assert x == n || x in kids || x in tail;
    }
  }

  lemma MoofKept(f: seq<byte>, off: nat, rest: seq<byte>, n: Node)
    requires HasHeader(f, off, |f|) && n == NodeAt(f, off, |f|, TopLevel) && n.typ == MOOF && n.size >= 8
    requires off + n.size <= |f| && Kids(f, n).Some? && AllSound(f, Kids(f, n).value)
    requires WellNested(rest)
    ensures WellNested(f[off..off + n.size] + rest)
  {
    var m, head, tail := MoofThenRest(f, off, rest, n);
  }

  // ---- Induction over the top-level boxes of the file. ----

  lemma TopStep(f: seq<byte>, off: nat)
    requires HasHeader(f, off, |f|) && Tree(f, off, |f|, TopLevel).Some? && AllSound(f, Tree(f, off, |f|, TopLevel).value)
    ensures var n := NodeAt(f, off, |f|, TopLevel);
      && n.size >= 8 && Kids(f, n).Some? && AllSound(f, Kids(f, n).value) && (n.typ == MOOF ==> off + n.size <= |f|)
      && Tree(f, off + n.size, |f|, TopLevel).Some? && AllSound(f, Tree(f, off + n.size, |f|, TopLevel).value)
      && Tree(f, off, |f|, TopLevel).value == [n] + Kids(f, n).value + Tree(f, off + n.size, |f|, TopLevel).value
      && (TopBoxesFit(f, Tree(f, off, |f|, TopLevel).value) <==>
            off + n.size <= |f| && (n.typ == MOOF ==> n.size <= MAX_MOOF_BYTES)
            && TopBoxesFit(f, Tree(f, off + n.size, |f|, TopLevel).value))
      && MoofBytes(Tree(f, off, |f|, TopLevel).value) ==
           (if n.typ == MOOF then n.size else 0) + MoofBytes(Tree(f, off + n.size, |f|, TopLevel).value)
  {
    TreeStep(f, off, |f|, TopLevel);
    var n := NodeAt(f, off, |f|, TopLevel);
    var kids, rest, ns := Kids(f, n).value, Tree(f, off + n.size, |f|, TopLevel).value, Tree(f, off, |f|, TopLevel).value;
    if n.visit.Into? { Deeper(f, off + 8, off + n.size, InMoof); }
    assert n in ns && forall x <- rest :: x in ns;
    assert forall x <- ns :: x == n || x in kids || x in rest;
    NoMoofBytes(kids);
    MoofBytesConcat([n] + kids, rest);
    MoofBytesConcat([n], kids);
    assert MoofBytes([n]) == (if n.typ == MOOF then n.size else 0) + MoofBytes([n][1..]);
  }

  /** The reader gets through exactly the files whose top-level boxes fit; what it keeps is a well-nested file. */
  lemma {:induction false} MoofsParse(f: seq<byte>, off: nat)
    requires Tree(f, off, |f|, TopLevel).Some? && AllSound(f, Tree(f, off, |f|, TopLevel).value)
    ensures Moofs(f, off).Some? <==> TopBoxesFit(f, Tree(f, off, |f|, TopLevel).value)
    ensures Moofs(f, off).Some? ==>
              WellNested(Moofs(f, off).value) && |Moofs(f, off).value| == MoofBytes(Tree(f, off, |f|, TopLevel).value)
    decreases |f| - off
  {
    if HasHeader(f, off, |f|) {
      TopStep(f, off);
      var n := NodeAt(f, off, |f|, TopLevel);
      MoofsParse(f, off + n.size);
      if n.typ == MOOF && Moofs(f, off).Some? {
        MoofKept(f, off, Moofs(f, off + n.size).value, n);
      }
    }
  }

  lemma FirstJoins(f: seq<byte>, head: seq<Node>, rest: seq<Node>, m: seq<byte>, head': seq<Node>, tail: seq<Node>,
                   moofs: seq<byte>, ms: seq<Node>, first: map<nat, nat>)
    requires SameNews(f, head, m, head') && SameNews(moofs, ms, m, tail)
    requires rest == [] || rest[0].level == TopLevel
    requires ms == [] || ms[0].level == TopLevel
    requires First(f, head, first, false).Some? ==>
               var known := First(f, head, first, false).value;
               First(moofs, ms, known, false) == First(f, rest, known, false)
    ensures First(m, head' + tail, first, false) == First(f, head + rest, first, false)
  {
    FirstConcat(f, head, rest, first, false);
    FirstConcat(m, head', tail, first, false);
    FirstSame(f, head, m, head', first, false);
    if First(f, head, first, false).Some? {
      FirstSame(moofs, ms, m, tail, First(f, head, first, false).value, false);
    }
  }

  /** The two readings of a file from `off` on: its own boxes, and the moofs kept from it. */
  ghost predicate Readings(f: seq<byte>, off: nat, ns: seq<Node>, moofs: seq<byte>, ms: seq<Node>) {
    && Tree(f, off, |f|, TopLevel) == Some(ns) && AllSound(f, ns)
    && Moofs(f, off) == Some(moofs) && FileTree(moofs) == Some(ms) && AllSound(moofs, ms)
    && (ns == [] || ns[0].level == TopLevel) && (ms == [] || ms[0].level == TopLevel)
  }

  lemma ReadingsOf(f: seq<byte>, off: nat) returns (ns: seq<Node>, moofs: seq<byte>, ms: seq<Node>)
    requires Tree(f, off, |f|, TopLevel).Some? && AllSound(f, Tree(f, off, |f|, TopLevel).value)
    requires Moofs(f, off).Some?
    ensures Readings(f, off, ns, moofs, ms)
  {
    MoofsParse(f, off);
    ns, moofs := Tree(f, off, |f|, TopLevel).value, Moofs(f, off).value;
    ms := FileTree(moofs).value;
    if ns != [] { SameLevel(f, off, |f|, TopLevel); }
    if ms != [] { SameLevel(moofs, 0, |moofs|, TopLevel); }
  }

  lemma MoofsStep(f: seq<byte>, off: nat)
    requires off + 8 <= |f| && U32(f, off) >= 8 && Moofs(f, off).Some?
    ensures var next := off + U32(f, off);
      && next <= |f| && Moofs(f, next).Some?
      && Moofs(f, off).value == (if U32(f, off + 4) == MOOF then f[off..next] else []) + Moofs(f, next).value
  {
  }

  /** The first top-level box from `off` on, with its children, and the boxes after it. */
  lemma HeadAndRest(f: seq<byte>, off: nat, ns: seq<Node>) returns (n: Node, kids: seq<Node>, rest: seq<Node>)
    requires HasHeader(f, off, |f|) && Tree(f, off, |f|, TopLevel) == Some(ns) && AllSound(f, ns)
    ensures n == NodeAt(f, off, |f|, TopLevel) && n.size >= 8 && Kids(f, n) == Some(kids) && AllSound(f, kids)
    ensures Tree(f, off + n.size, |f|, TopLevel) == Some(rest) && AllSound(f, rest) && ns == [n] + kids + rest
    ensures n.typ == MOOF ==> off + n.size <= |f|
    ensures n.typ != MOOF ==> kids == []
  {
    TopStep(f, off);
    n := NodeAt(f, off, |f|, TopLevel);
    kids, rest := Kids(f, n).value, Tree(f, off + n.size, |f|, TopLevel).value;
  }

  /** One top-level box: the readings from it on are made of the readings from the next box on. */
  lemma ReadingsStep(f: seq<byte>, off: nat, ns: seq<Node>, moofs: seq<byte>, ms: seq<Node>)
    returns (next: nat, head: seq<Node>, rest: seq<Node>, moofs1: seq<byte>, ms1: seq<Node>, head': seq<Node>, tail: seq<Node>)
    requires HasHeader(f, off, |f|) && Readings(f, off, ns, moofs, ms)
    ensures next > off && Readings(f, next, rest, moofs1, ms1) && head != [] && ns == head + rest
    ensures head[0].typ == MOOF ==>
              ms == head' + tail && SameNews(f, head, moofs, head') && SameNews(moofs1, ms1, moofs, tail)
    ensures head[0].typ != MOOF ==> head == [head[0]] && head[0].level == TopLevel && moofs1 == moofs && ms1 == ms
  {
    var n, kids, rest0 := HeadAndRest(f, off, ns);
    MoofsStep(f, off);
    next := off + n.size;
    rest, moofs1, ms1 := ReadingsOf(f, next);
    head, head', tail := [n] + kids, [], [];
    if n.typ == MOOF {
      head', tail := MoofReadings(f, off, moofs, moofs1, n, kids);
    }
  }

  lemma MoofReadings(f: seq<byte>, off: nat, moofs: seq<byte>, moofs1: seq<byte>, n: Node, kids: seq<Node>)
    returns (head': seq<Node>, tail: seq<Node>)
    requires HasHeader(f, off, |f|) && n == NodeAt(f, off, |f|, TopLevel) && n.typ == MOOF && n.size >= 8
    requires off + n.size <= |f| && Kids(f, n) == Some(kids) && AllSound(f, kids)
    requires WellNested(moofs1) && moofs == f[off..off + n.size] + moofs1
    ensures FileTree(moofs) == Some(head' + tail)
    ensures SameNews(f, [n] + kids, moofs, head') && SameNews(moofs1, FileTree(moofs1).value, moofs, tail)
  {
    var m;
    m, head', tail := MoofThenRest(f, off, moofs1, n);
  }

  /** The first times found in the kept moofs are those found in the file. */
  lemma {:induction false} MoofsFirst(f: seq<byte>, off: nat, ns: seq<Node>, moofs: seq<byte>, ms: seq<Node>, first: map<nat, nat>)
    requires Readings(f, off, ns, moofs, ms)
    ensures First(moofs, ms, first, false) == First(f, ns, first, false)
    decreases |f| - off
  {
    if HasHeader(f, off, |f|) {
      var next, head, rest, moofs1, ms1, head', tail := ReadingsStep(f, off, ns, moofs, ms);
      if head[0].typ == MOOF {
        if First(f, head, first, false).Some? {
          MoofsFirst(f, next, rest, moofs1, ms1, First(f, head, first, false).value);
        }
        FirstJoins(f, head, rest, moofs, head', tail, moofs1, ms1, first);
      } else {
        MoofsFirst(f, next, rest, moofs1, ms1, first);
        assert ns[1..] == rest;
      }
    }
  }

  lemma LastTimeJoins(f: seq<byte>, head: seq<Node>, rest: seq<Node>, m: seq<byte>, head': seq<Node>, tail: seq<Node>,
                      moofs: seq<byte>, ms: seq<Node>, last: Option<nat>)
    requires SameNews(f, head, m, head') && SameNews(moofs, ms, m, tail)
    requires LastTime(f, head, last).Some? ==>
               var t := LastTime(f, head, last).value; LastTime(moofs, ms, t) == LastTime(f, rest, t)
    ensures LastTime(m, head' + tail, last) == LastTime(f, head + rest, last)
  {
    LastTimeConcat(f, head, rest, last);
    LastTimeConcat(m, head', tail, last);
    LastTimeSame(f, head, m, head', last);
    if LastTime(f, head, last).Some? {
      LastTimeSame(moofs, ms, m, tail, LastTime(f, head, last).value);
    }
  }

  /** So is the last time of track 1. */
  lemma {:induction false} MoofsLastTime(f: seq<byte>, off: nat, ns: seq<Node>, moofs: seq<byte>, ms: seq<Node>, last: Option<nat>)
    requires Readings(f, off, ns, moofs, ms)
    ensures LastTime(moofs, ms, last) == LastTime(f, ns, last)
    decreases |f| - off
  {
    if HasHeader(f, off, |f|) {
      var next, head, rest, moofs1, ms1, head', tail := ReadingsStep(f, off, ns, moofs, ms);
      if head[0].typ == MOOF {
        if LastTime(f, head, last).Some? {
          MoofsLastTime(f, next, rest, moofs1, ms1, LastTime(f, head, last).value);
        }
        LastTimeJoins(f, head, rest, moofs, head', tail, moofs1, ms1, last);
      } else {
        MoofsLastTime(f, next, rest, moofs1, ms1, last);
        assert ns[1..] == rest;
      }
    }
  }

  /**
   * The fast reader refines the full check: on a well-nested file it accepts exactly the
   * publishable ones whose top-level boxes fit and whose moofs have at least 64 bytes together.
   */
  lemma ReaderRefinesFullCheck(f: seq<byte>)
    requires WellNested(f)
    ensures PublishableByReader(f) <==>
            Publishable(f) && TopBoxesFit(f, FileTree(f).value) && MoofBytes(FileTree(f).value) >= MIN_FRAGMENT_BYTES
  {
    MoofsParse(f, 0);
    if Moofs(f, 0).Some? {
      var ns, moofs, ms := ReadingsOf(f, 0);
      MoofsFirst(f, 0, ns, moofs, ms, map[]);
      MoofsLastTime(f, 0, ns, moofs, ms, None);
      MoofsShort(f, 0);
    }
  }

  lemma {:induction false} MoofsShort(f: seq<byte>, off: nat)
    requires Moofs(f, off).Some?
    ensures |Moofs(f, off).value| <= if off <= |f| then |f| - off else 0
    decreases |f| - off
  {
    if off + 8 <= |f| {
      MoofsShort(f, off + if U32(f, off) == 0 then |f| - off else U32(f, off));
    }
  }
}
