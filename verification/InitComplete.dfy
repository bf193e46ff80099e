/** What a complete init segment is, said of its bytes: the boxes it must have, by name. */
module InitComplete {
  import opened Wrappers
  import opened Bytes
  import opened InitBoxes

  /** The number a box type of four characters is. */
  function Code(name: string): nat
    requires |name| == 4
  {
    name[0] as int * 0x100_0000 + name[1] as int * 0x1_0000 + name[2] as int * 0x100 + name[3] as int
  }

  ghost predicate Holds(boxes: seq<Box>, name: string)
    requires |name| == 4
  {
    exists b <- boxes :: b.typ == Code(name)
  }

  /** The box at i is the last of the list of its name. */
  ghost predicate IsLast(boxes: seq<Box>, i: nat, name: string)
    requires |name| == 4
  {
    i < |boxes| && boxes[i].typ == Code(name) && forall j :: i < j < |boxes| ==> boxes[j].typ != Code(name)
  }

  /** No box of the buffer, or of a moov in it, ends past the largest int. */
  ghost predicate WithinInt(data: seq<byte>) {
    && |data| < TWO_63 && InInt(data, 0)
    && (Boxes(data, 0).Some? ==>
          forall b <- Boxes(data, 0).value ::
            b.typ == Code("moov") && 0 <= b.start <= b.end <= |data| ==> InInt(data[b.start..b.end], 0))
  }

  /** The payload of a box parses to a list that has a trak and an mvex. */
  ghost predicate HoldsTracks(data: seq<byte>, b: Box) {
    && 0 <= b.start <= b.end <= |data|
    && var children := Boxes(data[b.start..b.end], 0);
       children.Some? && Holds(children.value, "trak") && Holds(children.value, "mvex")
  }

  /** A finished init segment: it parses, has a type box, and its last moov holds a track and says it is fragmented. */
  ghost predicate Finished(data: seq<byte>) {
    && Boxes(data, 0).Some?
    && var bs := Boxes(data, 0).value;
       && (Holds(bs, "ftyp") || Holds(bs, "styp"))
       && exists i: nat :: IsLast(bs, i, "moov") && HoldsTracks(data, bs[i])
  }

  lemma Names()
    ensures Code("ftyp") == FTYP && Code("styp") == STYP && Code("moov") == MOOV && Code("trak") == TRAK && Code("mvex") == MVEX
  {}

  lemma MoovVerdictIs(data: seq<byte>, b: Box)
    requires 0 <= b.start <= b.end <= |data| < TWO_63 && InInt(data[b.start..b.end], 0)
    ensures MoovVerdict(data[b.start..b.end]) == Returns(HoldsTracks(data, b))
  {
    Names();
    WalkedIsBoxes(data[b.start..b.end]);
  }

  lemma {:induction false} AllReturn(data: seq<byte>, bs: seq<Box>)
    requires |data| < TWO_63 && forall b <- bs :: b.start <= b.end <= |data|
    requires forall b <- bs :: b.typ == MOOV ==> InInt(data[b.start..b.end], 0)
    ensures Checked(data, bs).Returns?
    decreases |bs|
  {
    if bs != [] {
      var b := bs[|bs| - 1];
      assert b in bs;
      AllReturn(data, bs[..|bs| - 1]);
      if b.typ == MOOV {
        MoovVerdictIs(data, b);
      }
    }
  }

  lemma {:induction false} LastIs(bs: seq<Box>, i: nat)
    requires IsLast(bs, i, "moov")
    ensures LastMoov(bs) == Some(bs[i])
    decreases |bs|
  {
    Names();
    if i < |bs| - 1 {
      LastIs(bs[..|bs| - 1], i);
    }
  }

  lemma {:induction false} LastExists(bs: seq<Box>) returns (i: nat)
    requires LastMoov(bs).Some?
    ensures IsLast(bs, i, "moov")
    decreases |bs|
  {
    Names();
    if bs[|bs| - 1].typ == MOOV {
      i := |bs| - 1;
    } else {
      i := LastExists(bs[..|bs| - 1]);
    }
  }

  /**
    * Within the int InitSegmentComplete always answers, and it answers true if and only if the segment is finished: the
    * buffer parses, some box is an ftyp or a styp, and the last moov parses to a list with a trak and an mvex.
    */
  lemma CompleteIff(data: seq<byte>)
    requires WithinInt(data)
    ensures InitVerdict(data) == Returns(Finished(data))
  {
    Names();
    WalkedIsBoxes(data);
    if Boxes(data, 0).Some? {
      var bs := Boxes(data, 0).value;
      BoxesInside(data, 0);
      AllReturn(data, bs);
      LastMoovDecides(data, bs);
      if LastMoov(bs).Some? {
        var i := LastExists(bs);
        LastIs(bs, i);
        MoovVerdictIs(data, bs[i]);
      }
      if i: nat :| IsLast(bs, i, "moov") {
        LastIs(bs, i);
      }
    }
  }

  // ---- three init segments, byte for byte

  /** An ftyp, and a moov with the given payload. */
  function Init(payload: seq<byte>): seq<byte>
    requires |payload| <= 24
  {
    [0, 0, 0, 8, 0x66, 0x74, 0x79, 0x70, 0, 0, 0, (8 + |payload|) as byte, 0x6d, 0x6f, 0x6f, 0x76] + payload
  }

  const TRAK_BOX: seq<byte> := [0, 0, 0, 8, 0x74, 0x72, 0x61, 0x6b]
  const MVEX_BOX: seq<byte> := [0, 0, 0, 8, 0x6d, 0x76, 0x65, 0x78]

  lemma OneBox(data: seq<byte>, off: nat, rest: seq<Box>)
    requires off + 8 <= |data| && 8 <= U32(data, off) <= |data| - off && Boxes(data, off + U32(data, off)) == Some(rest)
    ensures Boxes(data, off) == Some([Box(U32(data, off + 4), off + 8, off + U32(data, off))] + rest)
  {}

  /** The boxes of such an init: the type box and the moov around its payload. */
  lemma InitParses(payload: seq<byte>)
    requires |payload| <= 24
    ensures var d := Init(payload);
      && Boxes(d, 0) == Some([Box(FTYP, 8, 8), Box(MOOV, 16, |d|)])
      && |d| == 16 + |payload| && d[16..|d|] == payload
  {
    var d := Init(payload);
    assert U32(d, 0) == 8 && U32(d, 4) == FTYP && U32(d, 8) == 8 + |payload| && U32(d, 12) == MOOV;
    assert Boxes(d, |d|) == Some([]);
    var ftyp, moov := Box(FTYP, 8, 8), Box(MOOV, 16, |d|);
    OneBox(d, 8, []);
    assert [moov] + [] == [moov];
    OneBox(d, 0, [moov]);
    assert [ftyp] + [moov] == [ftyp, moov];
  }

  /** A type box and one moov: finished exactly when the moov's payload parses and has a trak and an mvex. */
  lemma TwoBoxes(d: seq<byte>, ftyp: Box, moov: Box, children: seq<Box>)
    requires |d| < TWO_63 && Boxes(d, 0) == Some([ftyp, moov]) && ftyp.typ == FTYP && moov.typ == MOOV
    requires 0 <= moov.start <= moov.end <= |d| && Boxes(d[moov.start..moov.end], 0) == Some(children)
    ensures InitVerdict(d) == Returns(Holds(children, "trak") && Holds(children, "mvex"))
  {
    ParsedInInt(d, 0);
    ParsedInInt(d[moov.start..moov.end], 0);
    TypeThenMoov(ftyp, moov);
    CompleteIff(d);
  }

  lemma TypeThenMoov(ftyp: Box, moov: Box)
    requires ftyp.typ == FTYP && moov.typ == MOOV
    ensures var bs := [ftyp, moov];
      Holds(bs, "ftyp") && IsLast(bs, 1, "moov") && !IsLast(bs, 0, "moov") && forall b <- bs :: b == ftyp || b == moov
  {
    var bs := [ftyp, moov];
    Names();
    assert bs[0] in bs;
  }

  lemma InitAnswer(payload: seq<byte>, children: seq<Box>)
    requires |payload| <= 16 && Boxes(payload, 0) == Some(children)
    ensures InitVerdict(Init(payload)) == Returns(Holds(children, "trak") && Holds(children, "mvex"))
  {
    var d := Init(payload);
    InitParses(payload);
    TwoBoxes(d, Box(FTYP, 8, 8), Box(MOOV, 16, |d|), children);
  }

  lemma OnePayload(d: seq<byte>, typ: nat)
    requires |d| == 8 && U32(d, 0) == 8 && U32(d, 4) == typ
    ensures Boxes(d, 0) == Some([Box(typ, 8, 8)])
  {
    assert Boxes(d, 8) == Some([]);
    OneBox(d, 0, []);
    assert [Box(typ, 8, 8)] + [] == [Box(typ, 8, 8)];
  }

  lemma TwoPayloads(d: seq<byte>, first: nat, second: nat)
    requires |d| == 16 && U32(d, 0) == 8 && U32(d, 4) == first && U32(d, 8) == 8 && U32(d, 12) == second
    ensures Boxes(d, 0) == Some([Box(first, 8, 8), Box(second, 16, 16)])
  {
    assert Boxes(d, 16) == Some([]);
    OneBox(d, 8, []);
    assert [Box(second, 16, 16)] + [] == [Box(second, 16, 16)];
    OneBox(d, 0, [Box(second, 16, 16)]);
    assert [Box(first, 8, 8)] + [Box(second, 16, 16)] == [Box(first, 8, 8), Box(second, 16, 16)];
  }

  lemma PayloadsParse()
    ensures |TRAK_BOX| == |MVEX_BOX| == 8
    ensures Boxes(TRAK_BOX, 0) == Some([Box(TRAK, 8, 8)])
    ensures Boxes(MVEX_BOX, 0) == Some([Box(MVEX, 8, 8)])
    ensures Boxes(TRAK_BOX + MVEX_BOX, 0) == Some([Box(TRAK, 8, 8), Box(MVEX, 16, 16)])
  {
    var t, m := TRAK_BOX, MVEX_BOX;
    assert U32(t, 0) == 8 && U32(t, 4) == TRAK && U32(m, 0) == 8 && U32(m, 4) == MVEX;
    OnePayload(t, TRAK);
    OnePayload(m, MVEX);
    assert U32(t + m, 0) == 8 && U32(t + m, 4) == TRAK && U32(t + m, 8) == 8 && U32(t + m, 12) == MVEX;
    TwoPayloads(t + m, TRAK, MVEX);
  }

  /** An init with a track that says it is fragmented is complete; without the one or the other it is not. */
  lemma ThreeInits()
    ensures |TRAK_BOX| == |MVEX_BOX| == 8
    ensures InitVerdict(Init(TRAK_BOX + MVEX_BOX)) == Returns(true)
    ensures InitVerdict(Init(TRAK_BOX)) == Returns(false)
    ensures InitVerdict(Init(MVEX_BOX)) == Returns(false)
  {
    Names();
    PayloadsParse();
    var both := [Box(TRAK, 8, 8), Box(MVEX, 16, 16)];
    assert both[0] in both && both[1] in both;
    InitAnswer(TRAK_BOX + MVEX_BOX, both);
    InitAnswer(TRAK_BOX, [Box(TRAK, 8, 8)]);
    InitAnswer(MVEX_BOX, [Box(MVEX, 8, 8)]);
  }

  // ---- outside the int

  /** A moov that gives no answer leaves the whole init without one. */
  lemma MoovDecides(payload: seq<byte>)
    requires |payload| <= 24 && !MoovVerdict(payload).Returns?
    ensures InitVerdict(Init(payload)) == MoovVerdict(payload)
  {
    var d := Init(payload);
    var ftyp, moov := Box(FTYP, 8, 8), Box(MOOV, 16, |d|);
    InitParses(payload);
    ParsedInInt(d, 0);
    WalkedIsBoxes(d);
    assert [ftyp, moov][..1] == [ftyp] && [ftyp][..0] == [];
    assert Checked(d, [ftyp]) == Returns(false);
  }

  /**
    * What the check comes to on bytes that lead the walk out of the int, in the buffer itself or in its moov: it runs for
    * ever, or it panics, or next to 2^63 it answers no after all.
    */
  lemma OutsideTheInt(size: nat)
    requires TWO_63 <= size < TWO_64
    ensures InitVerdict(Looping()) == StillRuns && InitVerdict(Init(Looping())) == StillRuns
    ensures InitVerdict(Large(size)) == if size <= TWO_63 + 16 then Returns(false) else Panics
    ensures size > TWO_63 + 16 ==> InitVerdict(Init(Large(size))) == Panics
  {
    WalkCanLoop();
    WalkCanPanic(size);
    MoovDecides(Looping());
    if size > TWO_63 + 16 {
      MoovDecides(Large(size));
    }
  }
}
