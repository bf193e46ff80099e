/** A fragment written out in full, to tie the names of the encoder and its readers to the format they stand for. */
module FragmentLiteral {
  import opened Wrappers
  import opened Bytes
  import opened BoxTree
  import opened FragmentEncoding
  import opened Durations
  import opened DurationRoundTrip

  // ---- a fragment

  /**
    * A moof with one traf of track 2: a default sample duration of 10, a run of three samples without durations, and a run
    * with a data offset and one sample of duration 5 and size 9.
    */
  const FRAGMENT: seq<byte> :=
    [0, 0, 0, 80, 'm' as byte, 'o' as byte, 'o' as byte, 'f' as byte] + TRAF_BYTES

  const TRAF_BYTES: seq<byte> :=
    [0, 0, 0, 72, 't' as byte, 'r' as byte, 'a' as byte, 'f' as byte] + (HEADER_BYTES + (PLAIN_BYTES + TIMED_BYTES))

  const HEADER_BYTES: seq<byte> :=
    [0, 0, 0, 20, 't' as byte, 'f' as byte, 'h' as byte, 'd' as byte, 0, 0, 0, 8, 0, 0, 0, 2, 0, 0, 0, 10]

  const PLAIN_BYTES: seq<byte> := [0, 0, 0, 16, 't' as byte, 'r' as byte, 'u' as byte, 'n' as byte, 0, 0, 0, 0, 0, 0, 0, 3]

  const TIMED_BYTES: seq<byte> := [0, 0, 0, 28, 't' as byte, 'r' as byte, 'u' as byte, 'n' as byte] + TIMED_PAYLOAD

  const TIMED_PAYLOAD: seq<byte> := [0, 0, 3, 1, 0, 0, 0, 1, 0, 0, 0, 7, 0, 0, 0, 5, 0, 0, 0, 9]

  const HEADER := TrackHeader(2, None, None, Some(10), None, None, 0)
  const PLAIN := Run(None, None, false, false, false, false, [Sample(1, 1, 1, 1), Sample(1, 1, 1, 1), Sample(1, 1, 1, 1)])
  const TIMED := Run(Some(7), None, true, true, false, false, [Sample(5, 9, 0, 0)])
  const TRAF_OF := TrackFragment(HEADER, [RunBox(PLAIN), RunBox(TIMED)])

  lemma BoxIs(typ: nat, payload: seq<byte>, size: nat)
    requires typ < TWO_32 && 8 + |payload| == size < TWO_32
    ensures FitsBox(RawBox(typ, payload)) && BoxBytes(RawBox(typ, payload)) == Be32(size) + (Be32(typ) + payload)
  {}

  lemma HeaderPayloadIs()
    ensures ValidHeader(HEADER) && HeaderPayload(HEADER) == [0, 0, 0, 8, 0, 0, 0, 2, 0, 0, 0, 10]
  {}

  lemma HeaderBytes()
    ensures ValidHeader(HEADER) && BoxBytes(HeaderBox(HEADER)) == HEADER_BYTES && |HEADER_BYTES| == 20
  {
    HeaderPayloadIs();
    BoxIs(TFHD, HeaderPayload(HEADER), 20);
    HeaderName();
    Joined(['t' as byte, 'f' as byte, 'h' as byte, 'd' as byte], HeaderPayload(HEADER), 20);
  }

  lemma HeaderName()
    ensures Be32(20) == [0, 0, 0, 20] && Be32(TFHD) == ['t' as byte, 'f' as byte, 'h' as byte, 'd' as byte]
  {}

  lemma TrunName()
    ensures Be32(TRUN) == ['t' as byte, 'r' as byte, 'u' as byte, 'n' as byte]
    ensures Be32(16) == [0, 0, 0, 16] && Be32(28) == [0, 0, 0, 28]
  {}

  lemma PlainPayloadIs()
    ensures ValidRun(PLAIN) && RunPayload(PLAIN) == [0, 0, 0, 0, 0, 0, 0, 3]
  {}

  lemma PlainBytes()
    ensures ValidRun(PLAIN) && |RunPayload(PLAIN)| == 8 && BoxBytes(RawBox(TRUN, RunPayload(PLAIN))) == PLAIN_BYTES
  {
    PlainPayloadIs();
    TrunName();
    BoxIs(TRUN, RunPayload(PLAIN), 16);
    Joined(['t' as byte, 'r' as byte, 'u' as byte, 'n' as byte], RunPayload(PLAIN), 16);
  }

  lemma TimedPayloadIs()
    ensures ValidRun(TIMED)
    ensures RunPayload(TIMED) == TIMED_PAYLOAD && |TIMED_PAYLOAD| == 20
  {}

  lemma NamedBox(typ: nat, payload: seq<byte>, name: seq<byte>, size: byte)
    requires typ < TWO_32 && |name| == 4 && Be32(typ) == name && 8 + |payload| == size as nat
    requires Be32(size as nat) == [0, 0, 0, size]
    ensures BoxBytes(RawBox(typ, payload)) == [0, 0, 0, size, name[0], name[1], name[2], name[3]] + payload
  {
    BoxIs(typ, payload, size as nat);
    Joined(name, payload, size);
  }

  lemma TrunBytes(r: Run, payload: seq<byte>, size: byte)
    requires ValidRun(r) && RunPayload(r) == payload && 8 + |payload| == size as nat && size < 100
    ensures BoxBytes(RawBox(TRUN, payload)) == [0, 0, 0, size, 't' as byte, 'r' as byte, 'u' as byte, 'n' as byte] + payload
  {
    TrunName();
    assert Be32(size as nat) == [0, 0, 0, size];
    NamedBox(TRUN, payload, ['t' as byte, 'r' as byte, 'u' as byte, 'n' as byte], size);
  }

  lemma TimedBytes()
    ensures ValidRun(TIMED) && |RunPayload(TIMED)| == 20 && BoxBytes(RawBox(TRUN, RunPayload(TIMED))) == TIMED_BYTES
  {
    TimedPayloadIs();
    TrunBytes(TIMED, TIMED_PAYLOAD, 28);
  }

  lemma OneBoxBytes(box: RawBox)
    requires FitsBox(box)
    ensures AllFit([box]) && BoxesBytes([box]) == BoxBytes(box)
  {
    assert BoxesBytes([box]) == BoxBytes(box) + BoxesBytes([]);
  }

  lemma TwoBoxesBytes(a: RawBox, b: RawBox)
    requires FitsBox(a) && FitsBox(b)
    ensures AllFit([a, b]) && BoxesBytes([a, b]) == BoxBytes(a) + BoxBytes(b)
  {
    OneBoxBytes(b);
    assert [a, b][1..] == [b];
  }

  lemma ThreeBoxesBytes(a: RawBox, b: RawBox, c: RawBox)
    requires FitsBox(a) && FitsBox(b) && FitsBox(c)
    ensures AllFit([a, b, c]) && BoxesBytes([a, b, c]) == BoxBytes(a) + (BoxBytes(b) + BoxBytes(c))
  {
    TwoBoxesBytes(b, c);
    assert [a, b, c][1..] == [b, c];
  }

  lemma TrafChildren(h: TrackHeader, p: Run, t: Run)
    requires ValidHeader(h) && ValidRun(p) && ValidRun(t) && |RunPayload(p)| < 100 && |RunPayload(t)| < 100
    ensures var traf := TrackFragment(h, [RunBox(p), RunBox(t)]);
      && ValidChildren(traf.children)
      && TrafBoxes(traf) == [HeaderBox(h), RawBox(TRUN, RunPayload(p)), RawBox(TRUN, RunPayload(t))]
  {
    var cs := [RunBox(p), RunBox(t)];
    assert cs[1..] == [RunBox(t)] && [RunBox(t)][1..] == [];
    assert forall c <- cs :: c == RunBox(p) || c == RunBox(t);
    assert ChildBoxes([RunBox(t)]) == [RawBox(TRUN, RunPayload(t))];
    assert ChildBoxes(cs) == [RawBox(TRUN, RunPayload(p)), RawBox(TRUN, RunPayload(t))];
  }

  lemma TrafPrinted(h: TrackHeader, p: Run, t: Run, bytes: seq<byte>)
    requires ValidHeader(h) && ValidRun(p) && ValidRun(t) && |RunPayload(p)| < 100 && |RunPayload(t)| < 100
    requires bytes == BoxBytes(HeaderBox(h)) + (BoxBytes(RawBox(TRUN, RunPayload(p))) + BoxBytes(RawBox(TRUN, RunPayload(t))))
    requires |bytes| < 1000
    ensures var traf := TrackFragment(h, [RunBox(p), RunBox(t)]);
      ValidTraf(traf) && BoxBytes(MoofChildBox(TrafBox(traf))) == Be32(8 + |bytes|) + (Be32(TRAF) + bytes)
  {
    TrafChildren(h, p, t);
    ThreeBoxesBytes(HeaderBox(h), RawBox(TRUN, RunPayload(p)), RawBox(TRUN, RunPayload(t)));
    TrafBoxIs(TrackFragment(h, [RunBox(p), RunBox(t)]), bytes);
  }

  lemma TrafBoxIs(traf: TrackFragment, bytes: seq<byte>)
    requires ValidHeader(traf.header) && ValidChildren(traf.children) && BoxesBytes(TrafBoxes(traf)) == bytes && |bytes| < 1000
    ensures ValidTraf(traf) && BoxBytes(MoofChildBox(TrafBox(traf))) == Be32(8 + |bytes|) + (Be32(TRAF) + bytes)
  {
    BoxIs(TRAF, bytes, 8 + |bytes|);
  }

  lemma TrafIsPrinted()
    ensures ValidTraf(TRAF_OF) && BoxBytes(MoofChildBox(TrafBox(TRAF_OF))) == TRAF_BYTES && |TRAF_BYTES| == 72
  {
    HeaderBytes();
    PlainBytes();
    TimedBytes();
    TrafPrinted(HEADER, PLAIN, TIMED, HEADER_BYTES + (PLAIN_BYTES + TIMED_BYTES));
    TrafName();
    Joined(['t' as byte, 'r' as byte, 'a' as byte, 'f' as byte], HEADER_BYTES + (PLAIN_BYTES + TIMED_BYTES), 72);
  }

  lemma TrafName()
    ensures Be32(TRAF) == ['t' as byte, 'r' as byte, 'a' as byte, 'f' as byte] && Be32(72) == [0, 0, 0, 72]
    ensures Be32(MOOF) == ['m' as byte, 'o' as byte, 'o' as byte, 'f' as byte] && Be32(80) == [0, 0, 0, 80]
  {}

  lemma Joined(name: seq<byte>, payload: seq<byte>, size: byte)
    requires |name| == 4
    ensures [0, 0, 0, size] + (name + payload) == [0, 0, 0, size, name[0], name[1], name[2], name[3]] + payload
  {}

  function FileOf(traf: TrackFragment): seq<FileBox> {
    [MoofBox([TrafBox(traf)])]
  }

  lemma FilePrinted(traf: TrackFragment, bytes: seq<byte>)
    requires ValidTraf(traf) && bytes == BoxBytes(MoofChildBox(TrafBox(traf))) && |bytes| < 2000
    ensures ValidFile(FileOf(traf)) && Encode(FileOf(traf)) == Be32(8 + |bytes|) + (Be32(MOOF) + bytes)
  {
    var ms := [TrafBox(traf)];
    var moof := MoofBox(ms);
    assert ms[1..] == [] && MoofBoxes(ms) == [MoofChildBox(ms[0])];
    OneBoxBytes(MoofChildBox(ms[0]));
    assert FileOf(traf)[1..] == [] && FileBoxes(FileOf(traf)) == [FileBoxRaw(moof)];
    OneBoxBytes(FileBoxRaw(moof));
    BoxIs(MOOF, bytes, 8 + |bytes|);
  }

  lemma FileIsPrinted()
    ensures ValidFile(FileOf(TRAF_OF)) && Encode(FileOf(TRAF_OF)) == FRAGMENT
  {
    TrafIsPrinted();
    FilePrinted(TRAF_OF, TRAF_BYTES);
    TrafName();
    Joined(['m' as byte, 'o' as byte, 'o' as byte, 'f' as byte], TRAF_BYTES, 80);
  }

  lemma FileLasts(traf: TrackFragment, t: nat)
    ensures FileTotal(FileOf(traf), t) == TrafTotal(traf, t)
  {
    var ms := [TrafBox(traf)];
    assert ms[1..] == [] && MoofTotal(ms, t) == TrafTotal(traf, t);
    assert FileOf(traf) == [MoofBox(ms)] && FileOf(traf)[1..] == [];
  }

  lemma TrafLasts(t: nat)
    ensures TrafTotal(TRAF_OF, t) == if t == 2 then 35 else 0
  {
    var p, q := RunBox(PLAIN), RunBox(TIMED);
    assert TIMED.samples[1..] == [] && SumDurations(TIMED.samples) == 5;
    assert ChildDuration(p, Some(10)) == 30 && ChildDuration(q, Some(10)) == 5;
    assert [p, q][1..] == [q] && [q][1..] == [];
    assert ChildrenDuration([q], Some(10)) == 5;
    assert ChildrenDuration([p, q], Some(10)) == 35;
  }

  lemma ReadsAs(d: seq<byte>, fs: seq<FileBox>, t: nat, total: nat)
    requires ValidFile(fs) && Encode(fs) == d && FileTotal(fs, t) == total < TWO_64
    ensures Get(FragmentTicks(d), t) == total
  {
    DurationsInvertEncoding(fs, t);
    Fits64(FileTotal(fs, t));
  }

  lemma Fits64(n: nat)
    requires n < TWO_64
    ensures n % TWO_64 == n
  {}

  /** The bytes above are read as three default durations and one of its own: 35 ticks of track 2, and no other track. */
  lemma FragmentLasts(t: nat)
    ensures Get(FragmentTicks(FRAGMENT), t) == if t == 2 then 35 else 0
  {
    FileIsPrinted();
    TrafLasts(t);
    FileLasts(TRAF_OF, t);
    ReadsAs(FRAGMENT, FileOf(TRAF_OF), t, if t == 2 then 35 else 0);
  }


  /** A moof that holds a box of size 0. */
  const BROKEN: seq<byte> := [0, 0, 0, 16, 'm' as byte, 'o' as byte, 'o' as byte, 'f' as byte, 0, 0, 0, 0, 'f' as byte, 'r' as byte, 'e' as byte, 'e' as byte]

  /** A moof whose traf holds such a box. */
  const BROKEN_TRAF: seq<byte> := [0, 0, 0, 24, 'm' as byte, 'o' as byte, 'o' as byte, 'f' as byte] + TRAF_OF_NONE

  const TRAF_OF_NONE: seq<byte> :=
    [0, 0, 0, 16, 't' as byte, 'r' as byte, 'a' as byte, 'f' as byte, 0, 0, 0, 0, 'f' as byte, 'r' as byte, 'e' as byte, 'e' as byte]

  /** Counting stops at a box that cannot be walked: nothing after such a moof is counted, not even a good fragment. */
  lemma NothingAfterBroken(rest: seq<byte>)
    ensures FragmentTicks(BROKEN + rest) == map[]
    ensures FragmentTicks(BROKEN_TRAF + rest) == map[]
  {
    BrokenTraf(rest);
    var d := BROKEN + rest;
    assert U32(d, 0) == 16 && U32(d, 4) == MOOF && U32(d, 8) == 0;
    assert TrackTicks(d, 8, 16, InMoof, map[]) == (map[], false);
  }

  lemma BrokenTraf(rest: seq<byte>)
    ensures FragmentTicks(BROKEN_TRAF + rest) == map[]
  {
    var d := BROKEN_TRAF + rest;
    assert U32(d, 0) == 24 && U32(d, 4) == MOOF && U32(d, 8) == 16 && U32(d, 12) == TRAF && U32(d, 16) == 0;
    assert TrackId(d, 16, 24, 1) == None;
    assert TrackTicks(d, 8, 24, InMoof, map[]) == (map[], false);
  }
}
