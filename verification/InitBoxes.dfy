/**
 * mp4/init_validate.go: the flat box list of a buffer, and why no strict prefix of an init
 * segment that ends in its moov can pass for a complete one.
 */
module InitBoxes {
  import opened Wrappers
  import opened Bytes

  const FTYP: nat := 0x6674_7970
  const STYP: nat := 0x7374_7970
  const MOOV: nat := 0x6d6f_6f76
  const TRAK: nat := 0x7472_616b
  const MVEX: nat := 0x6d76_6578

  /** mp4Box: the type and the payload bounds [start, end); end is a Go int and can be anything up to the buffer's. */
  datatype Box = Box(typ: nat, start: nat, end: int)

  /** What a call comes to: a result, an index out of range, or no end within the turns it is given. */
  datatype Outcome<+T> = Returns(value: T) | Panics | StillRuns

  /** The header length of the box at off: 16 with a 64-bit largesize, else 8. */
  function HeaderAt(data: seq<byte>, off: nat): nat
    requires off + 8 <= |data|
  {
    if U32(data, off) == 1 then 16 else 8
  }

  predicate HeaderFits(data: seq<byte>, off: nat) {
    off + 8 <= |data| && off + HeaderAt(data, off) <= |data|
  }

  /** The size the header claims; a size of 0 reaches to the end of the buffer. */
  function SizeAt(data: seq<byte>, off: nat): nat
    requires HeaderFits(data, off)
  {
    if U32(data, off) == 1 then U64(data, off + 8)
    else if U32(data, off) == 0 then |data| - off
    else U32(data, off)
  }

  // ---- The walk in Go's int. ----

  /** The end of the box at off, as Go's 64-bit int adds it up. */
  function EndAt(data: seq<byte>, off: nat): (end: int)
    requires HeaderFits(data, off)
  {
    Wrap64(off + Wrap64(SizeAt(data, off)))
  }

  function BoxAt(data: seq<byte>, off: nat): Box
    requires HeaderFits(data, off)
  {
    Box(U32(data, off + 4), off + HeaderAt(data, off), EndAt(data, off))
  }

  /** The box at off is taken into the list. */
  predicate Takes(data: seq<byte>, off: nat) {
    HeaderFits(data, off) && SizeAt(data, off) >= HeaderAt(data, off) && EndAt(data, off) <= |data|
  }

  function Push(b: Box, rest: Outcome<Option<seq<Box>>>): Outcome<Option<seq<Box>>> {
    if rest.Returns? && rest.value.Some? then Returns(Some([b] + rest.value.value)) else rest
  }

  /** walkBoxes from off on, in at most that many turns of its loop. */
  function Walk(data: seq<byte>, off: int, turns: nat): Outcome<Option<seq<Box>>>
    decreases turns
  {
    if off >= |data| then Returns(Some([]))
    else if turns == 0 then StillRuns
    else if off < 0 then if Wrap64(|data| - off) < 8 then Returns(None) else Panics
    else if !Takes(data, off) then Returns(None)
    else Push(BoxAt(data, off), Walk(data, EndAt(data, off), turns - 1))
  }

  lemma {:induction false} MoreTurns(data: seq<byte>, off: int, few: nat, turns: nat)
    requires few <= turns && !Walk(data, off, few).StillRuns?
    ensures Walk(data, off, turns) == Walk(data, off, few)
    decreases few
  {
    if off < |data| && 0 <= off && Takes(data, off) {
      MoreTurns(data, EndAt(data, off), few - 1, turns - 1);
    }
  }

  predicate EndsIn(data: seq<byte>, turns: nat) {
    !Walk(data, 0, turns).StillRuns?
  }

  /** walkBoxes: what it comes to in enough turns. */
  ghost function Walked(data: seq<byte>): Outcome<Option<seq<Box>>> {
    if exists turns: nat :: EndsIn(data, turns) then
      var turns: nat :| EndsIn(data, turns);
      Walk(data, 0, turns)
    else StillRuns
  }

  lemma WalkedIn(data: seq<byte>, turns: nat)
    requires EndsIn(data, turns)
    ensures Walked(data) == Walk(data, 0, turns)
  {
    var enough: nat :| EndsIn(data, enough) && Walk(data, 0, enough) == Walked(data);
    if enough <= turns {
      MoreTurns(data, 0, enough, turns);
    } else {
      MoreTurns(data, 0, turns, enough);
    }
  }

  // ---- The walk in unbounded numbers, and when the two agree. ----

  /** The boxes from off on; None when a box is cut short. */
  function Boxes(data: seq<byte>, off: nat): Option<seq<Box>>
    decreases |data| - off
  {
    if off >= |data| then Some([])
    else if !HeaderFits(data, off) then None
    else
      var end := off + SizeAt(data, off);
      if SizeAt(data, off) < HeaderAt(data, off) || end > |data| then None
      else
        match Boxes(data, end)
        case None => None
        case Some(rest) => Some([Box(U32(data, off + 4), off + HeaderAt(data, off), end)] + rest)
  }

  /** No box on the walk ends past the largest int. */
  predicate InInt(data: seq<byte>, off: nat)
    decreases |data| - off
  {
    HeaderFits(data, off) && SizeAt(data, off) >= HeaderAt(data, off) ==>
      off + SizeAt(data, off) < TWO_63 && InInt(data, off + SizeAt(data, off))
  }

  /** Within the largest int the end is the sum; past it, it falls back below the box itself. */
  lemma EndWraps(data: seq<byte>, off: nat)
    requires HeaderFits(data, off) && |data| < TWO_63
    ensures off + SizeAt(data, off) < TWO_63 ==> EndAt(data, off) == off + SizeAt(data, off)
    ensures off + SizeAt(data, off) >= TWO_63 ==> EndAt(data, off) == off + SizeAt(data, off) - TWO_64 < off
  {
  }

  /** With every end within the int, the loop returns the list of the boxes, or finds one cut short. */
  lemma {:induction false} WalkIsBoxes(data: seq<byte>, off: nat, turns: nat)
    requires |data| < TWO_63 && InInt(data, off) && turns + off >= |data|
    ensures Walk(data, off, turns) == Returns(Boxes(data, off))
    decreases turns
  {
    if off < |data| && HeaderFits(data, off) {
      EndWraps(data, off);
      if Takes(data, off) {
        WalkIsBoxes(data, EndAt(data, off), turns - 1);
      }
    }
  }

  lemma WalkedIsBoxes(data: seq<byte>)
    requires |data| < TWO_63 && InInt(data, 0)
    ensures Walked(data) == Returns(Boxes(data, 0))
  {
    WalkIsBoxes(data, 0, |data|);
    WalkedIn(data, |data|);
  }

  /** A buffer that parses has every end inside it. */
  lemma {:induction false} ParsedInInt(data: seq<byte>, off: nat)
    requires |data| < TWO_63 && Boxes(data, off).Some?
    ensures InInt(data, off)
    decreases |data| - off
  {
    if HeaderFits(data, off) {
      ParsedInInt(data, off + SizeAt(data, off));
    }
  }

  /** The offset after that many turns; None once the loop has ended. */
  function OffsetAfter(data: seq<byte>, off: int, turns: nat): Option<int>
    decreases turns
  {
    if turns == 0 then Some(off)
    else if 0 <= off < |data| && Takes(data, off) then OffsetAfter(data, EndAt(data, off), turns - 1)
    else None
  }

  /** No turn of the loop takes the offset back, or leaves it where it is. */
  ghost predicate Forward(data: seq<byte>, off: int) {
    forall k: nat ::
      OffsetAfter(data, off, k).Some? && OffsetAfter(data, off, k + 1).Some? ==>
        OffsetAfter(data, off, k).value < OffsetAfter(data, off, k + 1).value
  }

  lemma ForwardStops(data: seq<byte>, off: int)
    requires !(0 <= off < |data| && Takes(data, off))
    ensures Forward(data, off)
  {}

  lemma ForwardTurn(data: seq<byte>, off: nat)
    requires off < |data| && Takes(data, off)
    ensures Forward(data, off) <==> off < EndAt(data, off) && Forward(data, EndAt(data, off))
  {
    var end := EndAt(data, off);
    assert forall k: nat :: OffsetAfter(data, off, k + 1) == OffsetAfter(data, end, k);
    if Forward(data, off) {
      assert OffsetAfter(data, off, 0) == Some(off) && OffsetAfter(data, off, 0 + 1) == Some(end);
      forall k: nat | OffsetAfter(data, end, k).Some? && OffsetAfter(data, end, k + 1).Some?
        ensures OffsetAfter(data, end, k).value < OffsetAfter(data, end, k + 1).value
      {
        assert OffsetAfter(data, off, (k + 1) + 1) == OffsetAfter(data, end, k + 1);
      }
    }
    if off < end && Forward(data, end) {
      forall k: nat | OffsetAfter(data, off, k).Some? && OffsetAfter(data, off, k + 1).Some?
        ensures OffsetAfter(data, off, k).value < OffsetAfter(data, off, k + 1).value
      {
        if k > 0 {
          assert OffsetAfter(data, off, k) == OffsetAfter(data, end, k - 1);
          assert OffsetAfter(data, off, k + 1) == OffsetAfter(data, end, k - 1 + 1);
        }
      }
    }
  }

  lemma {:induction false} ForwardFrom(data: seq<byte>, off: nat)
    requires |data| < TWO_63
    ensures Forward(data, off) <==> InInt(data, off)
    decreases |data| - off
  {
    if HeaderFits(data, off) && SizeAt(data, off) >= HeaderAt(data, off) {
      EndWraps(data, off);
      if off + SizeAt(data, off) < TWO_63 {
        ForwardFrom(data, off + SizeAt(data, off));
      }
      if Takes(data, off) {
        ForwardTurn(data, off);
      } else {
        ForwardStops(data, off);
      }
    } else {
      ForwardStops(data, off);
    }
  }

  /** The walk ends without stepping back if and only if no box on it ends past the largest int. */
  lemma ForwardIffInInt(data: seq<byte>)
    requires |data| < TWO_63
    ensures Forward(data, 0) <==> InInt(data, 0)
    ensures Forward(data, 0) ==> Walked(data) == Returns(Boxes(data, 0))
  {
    ForwardFrom(data, 0);
    if InInt(data, 0) {
      WalkedIsBoxes(data);
    }
  }

  /** The bytes of a box of the given 64-bit size. */
  function Large(size: nat): seq<byte>
    requires size < TWO_64
  {
    [0, 0, 0, 1, 0x66, 0x72, 0x65, 0x65] + Be64(size)
  }

  function Looping(): seq<byte> {
    [0, 0, 0, 8, 0x66, 0x72, 0x65, 0x65] + Large(TWO_64 - 8)
  }

  lemma LargeAt(d: seq<byte>, off: nat, size: nat)
    requires size < TWO_64 && off + 16 <= |d| && d[off..off + 16] == Large(size)
    ensures HeaderFits(d, off) && SizeAt(d, off) == size && HeaderAt(d, off) == 16
  {
    var b, s := d[off..off + 16], Be64(size);
    assert forall k :: 0 <= k < 16 ==> d[off + k] == b[k];
    assert U32(d, off) == 1;
    assert forall k :: 0 <= k < 8 ==> d[off + 8 + k] == b[8 + k] == s[k];
    assert U32(d, off + 8) == U32(s, 0) && U32(d, off + 12) == U32(s, 4);
  }

  lemma LoopSizes()
    ensures |Looping()| == 24
    ensures Takes(Looping(), 0) && EndAt(Looping(), 0) == 8
    ensures Takes(Looping(), 8) && EndAt(Looping(), 8) == 0
  {
    var d := Looping();
    assert U32(d, 0) == 8;
    assert d[8..8 + 16] == Large(TWO_64 - 8);
    LargeAt(d, 8, TWO_64 - 8);
    EndWraps(d, 8);
  }

  lemma WalkTurn(data: seq<byte>, off: nat, turns: nat)
    requires off < |data| && Takes(data, off)
    ensures Walk(data, off, turns)
         == if turns == 0 then StillRuns else Push(BoxAt(data, off), Walk(data, EndAt(data, off), turns - 1))
  {}

  /** Two boxes that lead to each other. */
  predicate Circle(d: seq<byte>) {
    0 < 8 < |d| < TWO_63 && Takes(d, 0) && EndAt(d, 0) == 8 && Takes(d, 8) && EndAt(d, 8) == 0
  }

  lemma {:induction false} CircleRuns(d: seq<byte>, turns: nat)
    requires Circle(d)
    ensures Walk(d, 0, turns).StillRuns? && Walk(d, 8, turns).StillRuns?
  {
    WalkTurn(d, 0, turns);
    WalkTurn(d, 8, turns);
    if turns > 0 {
      CircleRuns(d, turns - 1);
    }
  }

  lemma CircleNeverEnds(d: seq<byte>)
    requires Circle(d)
    ensures Walked(d).StillRuns? && !InInt(d, 0)
  {
    forall turns: nat ensures !EndsIn(d, turns) {
      CircleRuns(d, turns);
    }
    if InInt(d, 0) {
      WalkedIsBoxes(d);
    }
  }

  /** A free box, then one whose 64-bit size is 8 short of 2^64: its end is 0, and the walk begins again for ever. */
  lemma WalkCanLoop()
    ensures |Looping()| == 24 && Walked(Looping()).StillRuns? && !InInt(Looping(), 0)
  {
    LoopSizes();
    CircleNeverEnds(Looping());
  }

  lemma WalkNegative(d: seq<byte>, off: int)
    requires -TWO_63 <= off < 0 && |d| < TWO_63
    ensures Walk(d, off, 1) == if |d| - off >= TWO_63 then Returns(None) else if |d| - off < 8 then Returns(None) else Panics
  {}

  /**
   * One box of a 64-bit size from 2^63 on: the walk goes on at a negative offset. Next to 2^63 the overflow of the next
   * length check hides that.
   */
  lemma WalkCanPanic(size: nat)
    requires TWO_63 <= size < TWO_64
    ensures Walked(Large(size)) == if size <= TWO_63 + 16 then Returns(None) else Panics
  {
    var d := Large(size);
    assert d[0..0 + 16] == d;
    LargeAt(d, 0, size);
    EndWraps(d, 0);
    WalkNegative(d, EndAt(d, 0));
    WalkTurn(d, 0, 2);
    WalkedIn(d, 2);
  }

  // ---- The loop of the source. ----

  /** The header at off: whether it is whole, its type, its length and the size it claims. */
  method ReadHeader(data: array<byte>, off: nat) returns (whole: bool, typ: nat, header: nat, size: nat)
    requires off + 8 <= data.Length
    ensures whole == HeaderFits(data[..], off)
    ensures whole ==> typ == U32(data[..], off + 4) && header == HeaderAt(data[..], off) && size == SizeAt(data[..], off)
  {
    ghost var d := data[..];
    size := U32(data[off..off + 4], 0);
    assert size == U32(d, off);
    typ := U32(data[off + 4..off + 8], 0);
    assert typ == U32(d, off + 4);
    header := 8;
    if size == 1 {
      if data.Length - off < 16 { return false, typ, 16, 0; }
      assert data[off + 8..off + 16] == d[off + 8..off + 16];
      size := U64(data[off + 8..off + 16], 0);
      assert size == U64(d, off + 8);
      header := 16;
    } else if size == 0 {
      size := data.Length - off;
    }
    whole := true;
  }

  /** The outcome of the rest of a walk, put behind the boxes read so far. */
  ghost function Resume(read: seq<Box>, rest: Outcome<Option<seq<Box>>>): Outcome<Option<seq<Box>>> {
    if rest.Returns? && rest.value.Some? then Returns(Some(read + rest.value.value)) else rest
  }

  lemma ResumeNothing(rest: Outcome<Option<seq<Box>>>)
    ensures Resume([], rest) == rest
  {
    if rest.Returns? && rest.value.Some? {
      assert [] + rest.value.value == rest.value.value;
    }
  }

  lemma ResumePush(read: seq<Box>, b: Box, rest: Outcome<Option<seq<Box>>>)
    ensures Resume(read, Push(b, rest)) == Resume(read + [b], rest)
  {
    if rest.Returns? && rest.value.Some? {
      assert read + ([b] + rest.value.value) == (read + [b]) + rest.value.value;
    }
  }

  /** One turn of the loop moves a box from the rest of the walk to the ones read. */
  lemma TurnTaken(d: seq<byte>, off: nat, turns: nat, read: seq<Box>)
    requires off < |d| && Takes(d, off) && !Walk(d, off, turns).StillRuns?
    ensures turns > 0 && !Walk(d, EndAt(d, off), turns - 1).StillRuns?
    ensures Resume(read, Walk(d, off, turns)) == Resume(read + [BoxAt(d, off)], Walk(d, EndAt(d, off), turns - 1))
  {
    WalkTurn(d, off, turns);
    ResumePush(read, BoxAt(d, off), Walk(d, EndAt(d, off), turns - 1));
  }

  /** The box at off, if its header is whole, its size covers the header and its end is not past the buffer. */
  method ReadBox(data: array<byte>, off: nat) returns (b: Option<Box>)
    requires off + 8 <= data.Length
    ensures b == if Takes(data[..], off) then Some(BoxAt(data[..], off)) else None
  {
    var whole, typ, header, size := ReadHeader(data, off);
    if !whole { return None; }
    var end := Wrap64(off + Wrap64(size));
    if size < header || end > data.Length { return None; }
    b := Some(Box(typ, off + header, end));
  }

  /** A call that ends nowhere has no result to promise; every other input is allowed. */
  method WalkBoxes(data: array<byte>) returns (o: Outcome<Option<seq<Box>>>)
    requires data.Length < TWO_63 && !Walked(data[..]).StillRuns?
    ensures o == Walked(data[..])
  {
    var off: int, read := 0, [];
    ghost var d := data[..];
    ghost var turns: nat :| EndsIn(d, turns) && Walk(d, 0, turns) == Walked(d);
    ResumeNothing(Walk(d, 0, turns));
    while off < data.Length
      invariant -TWO_63 <= off && !Walk(d, off, turns).StillRuns?
      invariant Resume(read, Walk(d, off, turns)) == Walked(d)
      decreases turns
    {
      if Wrap64(data.Length - off) < 8 { return Returns(None); }
      if off < 0 { return Panics; }
      var b := ReadBox(data, off);
      if b.None? { return Returns(None); }
      TurnTaken(d, off, turns, read);
      read := read + [b.value];
      off := b.value.end;
      turns := turns - 1;
    }
    assert read + [] == read;
    o := Returns(Some(read));
  }

  // ---- Completeness of an init segment. ----

  predicate Has(boxes: seq<Box>, typ: nat) {
    exists b <- boxes :: b.typ == typ
  }

  lemma HasNext(boxes: seq<Box>, i: nat, typ: nat)
    requires i < |boxes|
    ensures Has(boxes[..i + 1], typ) == (Has(boxes[..i], typ) || boxes[i].typ == typ)
  {
    assert boxes[..i + 1] == boxes[..i] + [boxes[i]];
    if boxes[i].typ == typ {
      assert boxes[i] in boxes[..i + 1];
    }
    if Has(boxes[..i], typ) {
      var b :| b in boxes[..i] && b.typ == typ;
      assert b in boxes[..i + 1];
    }
  }

  /** moovChildrenComplete. */
  ghost function MoovVerdict(moov: seq<byte>): Outcome<bool> {
    match Walked(moov)
    case Returns(None) => Returns(false)
    case Returns(Some(children)) => Returns(Has(children, TRAK) && Has(children, MVEX))
    case Panics => Panics
    case StillRuns => StillRuns
  }

  /** The payload of b can be cut out of the buffer. */
  predicate Sliceable(data: seq<byte>, b: Box) {
    b.start <= b.end <= |data|
  }

  /** What the moovs of a list come to: the verdict on the last one, unless one of them has none. */
  ghost function Checked(data: seq<byte>, boxes: seq<Box>): Outcome<bool> {
    if boxes == [] then Returns(false)
    else
      var before, b := Checked(data, boxes[..|boxes| - 1]), boxes[|boxes| - 1];
      if before.Returns? && b.typ == MOOV then
        if Sliceable(data, b) then MoovVerdict(data[b.start..b.end]) else Panics
      else before
  }

  ghost predicate Typed(boxes: seq<Box>) {
    Has(boxes, FTYP) || Has(boxes, STYP)
  }

  /** The loop of InitSegmentComplete over a parsed list. */
  ghost function Verdict(data: seq<byte>, boxes: seq<Box>): Outcome<bool> {
    var moovs := Checked(data, boxes);
    if moovs.Returns? then Returns(Typed(boxes) && moovs.value) else moovs
  }

  /** InitSegmentComplete. */
  ghost function InitVerdict(data: seq<byte>): Outcome<bool> {
    match Walked(data)
    case Returns(None) => Returns(false)
    case Returns(Some(boxes)) => Verdict(data, boxes)
    case Panics => Panics
    case StillRuns => StillRuns
  }

  method MoovChildrenComplete(moov: array<byte>) returns (o: Outcome<bool>)
    requires moov.Length < TWO_63 && !MoovVerdict(moov[..]).StillRuns?
    ensures o == MoovVerdict(moov[..])
  {
    var walked := WalkBoxes(moov);
    if walked.Panics? { return Panics; }
    if walked.value.None? { return Returns(false); }
    var children := walked.value.value;
    var trak, mvex := false, false;
    for i := 0 to |children|
      invariant trak == Has(children[..i], TRAK) && mvex == Has(children[..i], MVEX)
    {
      HasNext(children, i, TRAK);
      HasNext(children, i, MVEX);
      if children[i].typ == TRAK {
        trak := true;
      } else if children[i].typ == MVEX {
        mvex := true;
      }
    }
    assert children[..|children|] == children;
    o := Returns(trak && mvex);
  }

  lemma CheckedNext(data: seq<byte>, boxes: seq<Box>, i: nat)
    requires i < |boxes|
    ensures Checked(data, boxes[..i + 1])
         == if Checked(data, boxes[..i]).Returns? && boxes[i].typ == MOOV then
              if Sliceable(data, boxes[i]) then MoovVerdict(data[boxes[i].start..boxes[i].end]) else Panics
            else Checked(data, boxes[..i])
  {
    assert boxes[..i + 1][..i] == boxes[..i];
  }

  /** A moov without a verdict ends the loop there. */
  lemma {:induction false} CheckedStops(data: seq<byte>, boxes: seq<Box>, i: nat)
    requires i <= |boxes| && !Checked(data, boxes[..i]).Returns?
    ensures Checked(data, boxes) == Checked(data, boxes[..i])
    decreases |boxes| - i
  {
    if i < |boxes| {
      CheckedNext(data, boxes, i);
      CheckedStops(data, boxes, i + 1);
    } else {
      assert boxes[..i] == boxes;
    }
  }

  method MoovAt(data: array<byte>, b: Box) returns (o: Outcome<bool>)
    requires b.start <= b.end <= data.Length < TWO_63 && !MoovVerdict(data[b.start..b.end]).StillRuns?
    ensures o == MoovVerdict(data[b.start..b.end])
  {
    var payload := new byte[b.end - b.start](j requires 0 <= j < b.end - b.start reads data => data[b.start + j]);
    assert payload[..] == data[b.start..b.end];
    o := MoovChildrenComplete(payload);
  }

  lemma TypedNext(boxes: seq<Box>, i: nat)
    requires i < |boxes|
    ensures Typed(boxes[..i + 1]) == (Typed(boxes[..i]) || boxes[i].typ == FTYP || boxes[i].typ == STYP)
  {
    HasNext(boxes, i, FTYP);
    HasNext(boxes, i, STYP);
  }

  /** The loop over the boxes of a parsed list. */
  method CheckBoxes(data: array<byte>, boxes: seq<Box>) returns (o: Outcome<bool>)
    requires data.Length < TWO_63 && !Checked(data[..], boxes).StillRuns?
    ensures o == Verdict(data[..], boxes)
  {
    ghost var d := data[..];
    var haveType, moovOK := false, false;
    for i := 0 to |boxes|
      invariant haveType == Typed(boxes[..i])
      invariant Checked(d, boxes[..i]) == Returns(moovOK)
    {
      var b := boxes[i];
      TypedNext(boxes, i);
      CheckedNext(d, boxes, i);
      if b.typ == FTYP || b.typ == STYP {
        haveType := true;
      } else if b.typ == MOOV {
        if b.end < b.start || b.end > data.Length {
          CheckedStops(d, boxes, i + 1);
          return Panics;
        }
        assert d[b.start..b.end] == data[b.start..b.end];
        if !Checked(d, boxes[..i + 1]).Returns? {
          CheckedStops(d, boxes, i + 1);
        }
        var verdict := MoovAt(data, b);
        if verdict.Panics? { return Panics; }
        moovOK := verdict.value;
      }
    }
    assert boxes[..|boxes|] == boxes;
    o := Returns(haveType && moovOK);
  }

  method InitComplete(data: array<byte>) returns (o: Outcome<bool>)
    requires data.Length < TWO_63 && !InitVerdict(data[..]).StillRuns?
    ensures o == InitVerdict(data[..])
  {
    var walked := WalkBoxes(data);
    if walked.Panics? { return Panics; }
    if walked.value.None? || |walked.value.value| == 0 { return Returns(false); }
    o := CheckBoxes(data, walked.value.value);
  }

  /** The last moov of a list. */
  function LastMoov(boxes: seq<Box>): (moov: Option<Box>)
    ensures moov.Some? <==> Has(boxes, MOOV)
    ensures moov.Some? ==> moov.value in boxes && moov.value.typ == MOOV
  {
    if boxes == [] then None
    else if boxes[|boxes| - 1].typ == MOOV then Some(boxes[|boxes| - 1])
    else
      assert boxes == boxes[..|boxes| - 1] + [boxes[|boxes| - 1]];
      LastMoov(boxes[..|boxes| - 1])
  }

  /** When every moov has a verdict, a list is complete if and only if it holds a type box and its last moov is complete. */
  lemma {:induction false} LastMoovDecides(data: seq<byte>, boxes: seq<Box>)
    requires Checked(data, boxes).Returns?
    ensures LastMoov(boxes).Some? ==> Sliceable(data, LastMoov(boxes).value)
    ensures Checked(data, boxes).value <==>
      LastMoov(boxes).Some? && MoovVerdict(data[LastMoov(boxes).value.start..LastMoov(boxes).value.end]) == Returns(true)
    decreases |boxes|
  {
    if boxes != [] {
      LastMoovDecides(data, boxes[..|boxes| - 1]);
    }
  }

  // ---- Tiling and truncation. ----

  /** No size-0 box on the walk. */
  predicate NoOpenBox(data: seq<byte>, off: nat)
    decreases |data| - off
  {
    HeaderFits(data, off) ==>
      U32(data, off) != 0 && (SizeAt(data, off) >= 8 ==> NoOpenBox(data, off + SizeAt(data, off)))
  }

  /** The parsed boxes lie end to end, from the first byte to the last. */
  lemma {:induction false} BoxesTile(data: seq<byte>, off: nat)
    requires off <= |data| && Boxes(data, off).Some?
    ensures var bs := Boxes(data, off).value;
      && (bs == [] <==> off == |data|)
      && (bs != [] ==> bs[0].start in {off + 8, off + 16} && bs[|bs| - 1].end == |data|)
      && (forall i :: 0 <= i < |bs| - 1 ==> bs[i + 1].start in {bs[i].end + 8, bs[i].end + 16})
      && (forall i :: 0 <= i < |bs| ==> bs[i].start <= bs[i].end && off + 8 <= bs[i].end)
    decreases |data| - off
  {
    if off < |data| {
      var end := off + SizeAt(data, off);
      BoxesTile(data, end);
      var bs, rest := Boxes(data, off).value, Boxes(data, end).value;
      assert forall i :: 0 <= i < |rest| ==> bs[i + 1] == rest[i];
    }
  }

  lemma {:induction false} BoxesInside(data: seq<byte>, off: nat)
    requires Boxes(data, off).Some?
    ensures forall b <- Boxes(data, off).value :: off < b.start <= b.end <= |data|
    decreases |data| - off
  {
    if off < |data| { BoxesInside(data, off + SizeAt(data, off)); }
  }

  ghost function Prepend(read: seq<Box>, rest: Option<seq<Box>>): Option<seq<Box>> {
    match rest
    case None => None
    case Some(boxes) => Some(read + boxes)
  }

  /** A box of size 0 reaches to the end of the buffer, whatever is in it, and is the last one of the list. */
  lemma OpenBoxIsLast(data: seq<byte>, off: nat)
    requires off + 8 <= |data| && U32(data, off) == 0
    ensures Boxes(data, off) == Some([Box(U32(data, off + 4), off + 8, |data|)])
  {
    assert Boxes(data, |data|) == Some([]);
    assert SizeAt(data, off) == |data| - off && HeaderAt(data, off) == 8;
    var b := Box(U32(data, off + 4), off + 8, |data|);
    assert [b] + [] == [b];
  }

  /** The number of boxes that end at or before n. */
  function CountTo(bs: seq<Box>, n: nat): (k: nat)
    ensures k <= |bs|
  {
    if bs == [] || bs[0].end > n then 0 else 1 + CountTo(bs[1..], n)
  }

  predicate Boundary(bs: seq<Box>, off: int, n: nat) {
    n == off || exists b <- bs :: b.end == n
  }

  lemma HeaderInPrefix(data: seq<byte>, off: nat, n: nat)
    requires off + 8 <= n <= |data|
    ensures U32(data[..n], off) == U32(data, off) && U32(data[..n], off + 4) == U32(data, off + 4)
    ensures off + 16 <= n ==> U64(data[..n], off + 8) == U64(data, off + 8)
  {
  }

  lemma {:induction false} EndsAfter(data: seq<byte>, off: nat)
    requires Boxes(data, off).Some?
    ensures forall b <- Boxes(data, off).value :: b.end > off
    decreases |data| - off
  {
    if off < |data| { EndsAfter(data, off + SizeAt(data, off)); }
  }

  lemma BoundaryStep(bs: seq<Box>, off: nat, n: nat)
    requires bs != [] && off < n && forall b <- bs[1..] :: b.end > bs[0].end
    ensures Boundary(bs, off, n) <==> n >= bs[0].end && Boundary(bs[1..], bs[0].end, n)
  {
    assert bs == [bs[0]] + bs[1..];
    if Boundary(bs, off, n) {
      var b :| b in bs && b.end == n;
      assert b == bs[0] || b in bs[1..];
    }
  }

  /** The first box of a prefix p: there when it ends inside p, else cut short. */
  lemma PrefixStep(data: seq<byte>, off: nat, n: nat, p: seq<byte>)
    requires off < n <= |data| && p == data[..n] && NoOpenBox(data, off) && Boxes(data, off).Some?
    ensures var bs := Boxes(data, off).value;
      Boxes(p, off) == if bs[0].end <= n then Prepend([bs[0]], Boxes(p, bs[0].end)) else None
  {
    if off + 8 <= n { HeaderInPrefix(data, off, n); }
  }

  /** A prefix parses exactly when it ends on a box boundary, and then to the boxes it holds. */
  lemma {:induction false} PrefixParses(data: seq<byte>, off: nat, n: nat)
    requires off <= n <= |data| && Boxes(data, off).Some? && NoOpenBox(data, off)
    ensures Boxes(data[..n], off).Some? <==> Boundary(Boxes(data, off).value, off, n)
    ensures Boxes(data[..n], off).Some? ==>
              Boxes(data[..n], off).value == Boxes(data, off).value[..CountTo(Boxes(data, off).value, n)]
    decreases |data| - off
  {
    EndsAfter(data, off);
    if off < n {
      var end := off + SizeAt(data, off);
      var bs, rest := Boxes(data, off).value, Boxes(data, end).value;
      assert bs[0].end == end && bs[1..] == rest;
      PrefixStep(data, off, n, data[..n]);
      EndsAfter(data, end);
      BoundaryStep(bs, off, n);
      if end <= n {
        PrefixParses(data, end, n);
        assert bs[..1 + CountTo(rest, n)] == [bs[0]] + rest[..CountTo(rest, n)];
      }
    }
  }

  lemma {:induction false} PrefixInInt(data: seq<byte>, off: nat, n: nat)
    requires off <= n <= |data| < TWO_63 && Boxes(data, off).Some? && NoOpenBox(data, off)
    ensures InInt(data[..n], off)
    decreases |data| - off
  {
    if HeaderFits(data[..n], off) {
      HeaderInPrefix(data, off, n);
      var end := off + SizeAt(data, off);
      if end <= n {
        PrefixInInt(data, end, n);
      }
    }
  }

  lemma {:induction false} SameVerdict(data: seq<byte>, n: nat, bs: seq<Box>)
    requires n <= |data| && forall b <- bs :: b.start <= b.end <= n
    ensures Checked(data[..n], bs) == Checked(data, bs)
    decreases |bs|
  {
    if bs != [] {
      var b := bs[|bs| - 1];
      assert b in bs;
      SameVerdict(data, n, bs[..|bs| - 1]);
      assert data[..n][b.start..b.end] == data[b.start..b.end];
    }
  }

  lemma {:induction false} CountedEnd(bs: seq<Box>, n: nat)
    ensures forall b <- bs[..CountTo(bs, n)] :: b.end <= n
    decreases |bs|
  {
    if CountTo(bs, n) > 0 {
      CountedEnd(bs[1..], n);
      assert bs[..CountTo(bs, n)] == [bs[0]] + bs[1..][..CountTo(bs[1..], n)];
    }
  }

  /** What a prefix of n bytes of a parsed buffer looks like to a reader of the init segment. */
  lemma PrefixComplete(data: seq<byte>, n: nat)
    requires n <= |data| < TWO_63 && Boxes(data, 0).Some? && NoOpenBox(data, 0)
    ensures var bs := Boxes(data, 0).value;
      InitVerdict(data[..n]) == if Boundary(bs, 0, n) then Verdict(data, bs[..CountTo(bs, n)]) else Returns(false)
  {
    PrefixParses(data, 0, n);
    PrefixInInt(data, 0, n);
    WalkedIsBoxes(data[..n]);
    BoxesInside(data, 0);
    var bs := Boxes(data, 0).value;
    CountedEnd(bs, n);
    SameVerdict(data, n, bs[..CountTo(bs, n)]);
  }

  lemma CountsAll(bs: seq<Box>, n: nat)
    requires CountTo(bs, n) == |bs| && bs != []
    ensures bs[|bs| - 1].end <= n
  {
    CountedEnd(bs, n);
    assert bs[|bs| - 1] in bs[..CountTo(bs, n)];
  }

  lemma {:induction false} NoMoov(data: seq<byte>, bs: seq<Box>)
    requires !Has(bs, MOOV)
    ensures Checked(data, bs) == Returns(false)
    decreases |bs|
  {
    if bs != [] {
      assert bs[|bs| - 1] in bs;
      NoMoov(data, bs[..|bs| - 1]);
    }
  }

  /** A truncated init segment is never taken for a finished one, when its only moov is its last box. */
  lemma TruncationDetected(data: seq<byte>, n: nat)
    requires n < |data| < TWO_63 && Boxes(data, 0).Some? && NoOpenBox(data, 0)
    requires var bs := Boxes(data, 0).value;
      bs != [] && bs[|bs| - 1].typ == MOOV && forall i :: 0 <= i < |bs| - 1 ==> bs[i].typ != MOOV
    ensures InitVerdict(data[..n]) == Returns(false)
  {
    PrefixComplete(data, n);
    BoxesTile(data, 0);
    var bs := Boxes(data, 0).value;
    if CountTo(bs, n) == |bs| { CountsAll(bs, n); }
    assert !Has(bs[..CountTo(bs, n)], MOOV);
    NoMoov(data, bs[..CountTo(bs, n)]);
  }
}
