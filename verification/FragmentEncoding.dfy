/**
 * An encoder for fragments, independent of the readers of mp4/fragment.go, and what an encoded fragment means
 * (ISO/IEC 14496-12, 8.8.4 to 8.8.8).
 */
module FragmentEncoding {
  import opened Wrappers
  import opened Bytes
  import opened BoxTree

  const TRUN: nat := 0x7472_756e

  /** The fields of a tfhd; an optional field is present when its flag is set. */
  datatype TrackHeader = TrackHeader(track: nat, baseOffset: Option<nat>, description: Option<nat>, duration: Option<nat>,
                                     size: Option<nat>, flags: Option<nat>, high: byte)

  datatype Sample = Sample(duration: nat, size: nat, flags: nat, offset: nat)

  datatype Run = Run(dataOffset: Option<nat>, firstFlags: Option<nat>, hasDuration: bool, hasSize: bool, hasFlags: bool,
                     hasOffset: bool, samples: seq<Sample>)

  datatype TrafChild = RunBox(run: Run) | OtherInTraf(typ: nat, payload: seq<byte>)

  datatype TrackFragment = TrackFragment(header: TrackHeader, children: seq<TrafChild>)

  datatype MoofChild = TrafBox(traf: TrackFragment) | OtherInMoof(typ: nat, payload: seq<byte>)

  datatype FileBox = MoofBox(children: seq<MoofChild>) | OtherInFile(typ: nat, payload: seq<byte>)

  predicate Fits32(x: Option<nat>) {
    x.Some? ==> x.value < TWO_32
  }

  predicate ValidHeader(h: TrackHeader) {
    h.track < TWO_32 && (h.baseOffset.Some? ==> h.baseOffset.value < TWO_64)
    && Fits32(h.description) && Fits32(h.duration) && Fits32(h.size) && Fits32(h.flags)
  }

  predicate ValidSamples(samples: seq<Sample>) {
    forall s <- samples :: s.duration < TWO_32 && s.size < TWO_32 && s.flags < TWO_32 && s.offset < TWO_32
  }

  predicate ValidRun(r: Run) {
    && Fits32(r.dataOffset) && Fits32(r.firstFlags) && |r.samples| < TWO_32
    && ValidSamples(r.samples)
  }

  function Opt32(x: Option<nat>): (b: seq<byte>)
    requires Fits32(x)
  {
    if x.Some? then Be32(x.value) else []
  }

  function If32(present: bool, x: nat): (b: seq<byte>)
    requires x < TWO_32
  {
    if present then Be32(x) else []
  }

  function Weight(present: bool, weight: nat): nat {
    if present then weight else 0
  }

  /** A box by its type and payload. */
  datatype RawBox = RawBox(typ: nat, payload: seq<byte>)

  predicate FitsBox(b: RawBox) {
    b.typ < TWO_32 && 8 + |b.payload| < TWO_32
  }

  predicate AllFit(bs: seq<RawBox>) {
    forall b <- bs :: FitsBox(b)
  }

  function Size(b: RawBox): nat {
    8 + |b.payload|
  }

  function Length(bs: seq<RawBox>): nat {
    if bs == [] then 0 else Size(bs[0]) + Length(bs[1..])
  }

  function BoxBytes(box: RawBox): (b: seq<byte>)
    requires FitsBox(box)
    ensures |b| == Size(box)
  {
    Be32(8 + |box.payload|) + (Be32(box.typ) + box.payload)
  }

  function BoxesBytes(bs: seq<RawBox>): (b: seq<byte>)
    requires AllFit(bs)
    ensures |b| == Length(bs)
  {
    if bs == [] then [] else BoxBytes(bs[0]) + BoxesBytes(bs[1..])
  }

  function HeaderPayload(h: TrackHeader): seq<byte>
    requires ValidHeader(h)
  {
    var low := Weight(h.baseOffset.Some?, 0x1) + Weight(h.description.Some?, 0x2) + Weight(h.duration.Some?, 0x8)
               + Weight(h.size.Some?, 0x10) + Weight(h.flags.Some?, 0x20);
    var base := if h.baseOffset.Some? then Be64(h.baseOffset.value) else [];
    [0, h.high, 0, low as byte]
    + (Be32(h.track) + (base + (Opt32(h.description) + (Opt32(h.duration) + (Opt32(h.size) + Opt32(h.flags))))))
  }

  function SampleBytes(r: Run, s: Sample): (b: seq<byte>)
    requires s.duration < TWO_32 && s.size < TWO_32 && s.flags < TWO_32 && s.offset < TWO_32
  {
    If32(r.hasDuration, s.duration) + (If32(r.hasSize, s.size) + (If32(r.hasFlags, s.flags) + If32(r.hasOffset, s.offset)))
  }

  function SamplesBytes(r: Run, samples: seq<Sample>): seq<byte>
    requires ValidSamples(samples)
  {
    if samples == [] then [] else SampleBytes(r, samples[0]) + SamplesBytes(r, samples[1..])
  }

  function RunPayload(r: Run): seq<byte>
    requires ValidRun(r)
  {
    var low := Weight(r.dataOffset.Some?, 0x1) + Weight(r.firstFlags.Some?, 0x4);
    var mid := Weight(r.hasDuration, 0x1) + Weight(r.hasSize, 0x2) + Weight(r.hasFlags, 0x4) + Weight(r.hasOffset, 0x8);
    [0, 0, mid as byte, low as byte]
    + (Be32(|r.samples|) + (Opt32(r.dataOffset) + (Opt32(r.firstFlags) + SamplesBytes(r, r.samples))))
  }

  function ChildBox(c: TrafChild): RawBox
    requires c.RunBox? ==> ValidRun(c.run)
  {
    match c
    case RunBox(r) => RawBox(TRUN, RunPayload(r))
    case OtherInTraf(typ, payload) => RawBox(typ, payload)
  }

  predicate ValidChild(c: TrafChild) {
    && (c.RunBox? ==> ValidRun(c.run))
    && FitsBox(ChildBox(c))
    && (c.OtherInTraf? ==> c.typ != TFHD && c.typ != TRUN)
  }

  predicate ValidChildren(cs: seq<TrafChild>) {
    forall c <- cs :: ValidChild(c)
  }

  function ChildBoxes(cs: seq<TrafChild>): (bs: seq<RawBox>)
    requires ValidChildren(cs)
    ensures AllFit(bs)
  {
    if cs == [] then []
    else
      assert cs[0] in cs;
      [ChildBox(cs[0])] + ChildBoxes(cs[1..])
  }

  function HeaderBox(h: TrackHeader): (b: RawBox)
    requires ValidHeader(h)
    ensures FitsBox(b)
  {
    RawBox(TFHD, HeaderPayload(h))
  }

  function TrafBoxes(t: TrackFragment): (bs: seq<RawBox>)
    requires ValidHeader(t.header) && ValidChildren(t.children)
    ensures AllFit(bs)
  {
    [HeaderBox(t.header)] + ChildBoxes(t.children)
  }

  predicate ValidTraf(t: TrackFragment) {
    ValidHeader(t.header) && ValidChildren(t.children) && 8 + Length(TrafBoxes(t)) < TWO_32
  }

  predicate ValidMoofChild(m: MoofChild) {
    match m
    case TrafBox(t) => ValidTraf(t)
    case OtherInMoof(typ, payload) => typ != TRAF && FitsBox(RawBox(typ, payload))
  }

  function MoofChildBox(m: MoofChild): (b: RawBox)
    requires ValidMoofChild(m)
    ensures FitsBox(b)
  {
    match m
    case TrafBox(t) => RawBox(TRAF, BoxesBytes(TrafBoxes(t)))
    case OtherInMoof(typ, payload) => RawBox(typ, payload)
  }

  predicate ValidMoof(ms: seq<MoofChild>) {
    forall m <- ms :: ValidMoofChild(m)
  }

  function MoofBoxes(ms: seq<MoofChild>): (bs: seq<RawBox>)
    requires ValidMoof(ms)
    ensures AllFit(bs)
  {
    if ms == [] then []
    else
      assert ms[0] in ms;
      [MoofChildBox(ms[0])] + MoofBoxes(ms[1..])
  }

  predicate ValidFileBox(f: FileBox) {
    match f
    case MoofBox(ms) => ValidMoof(ms) && 8 + Length(MoofBoxes(ms)) < TWO_32
    case OtherInFile(typ, payload) => typ != MOOF && FitsBox(RawBox(typ, payload))
  }

  function FileBoxRaw(f: FileBox): (b: RawBox)
    requires ValidFileBox(f)
    ensures FitsBox(b)
  {
    match f
    case MoofBox(ms) => RawBox(MOOF, BoxesBytes(MoofBoxes(ms)))
    case OtherInFile(typ, payload) => RawBox(typ, payload)
  }

  predicate ValidFile(fs: seq<FileBox>) {
    forall f <- fs :: ValidFileBox(f)
  }

  function FileBoxes(fs: seq<FileBox>): (bs: seq<RawBox>)
    requires ValidFile(fs)
    ensures AllFit(bs)
  {
    if fs == [] then [] else [FileBoxRaw(fs[0])] + FileBoxes(fs[1..])
  }

  /** The bytes of a fragment file. */
  function Encode(fs: seq<FileBox>): seq<byte>
    requires ValidFile(fs)
  {
    BoxesBytes(FileBoxes(fs))
  }

  // ---- What the fragment means: the sum of its determinable sample durations. ----

  function SumDurations(samples: seq<Sample>): nat {
    if samples == [] then 0 else samples[0].duration + SumDurations(samples[1..])
  }

  function RunDuration(r: Run, default: Option<nat>): nat {
    if r.hasDuration then SumDurations(r.samples)
    else if default.Some? then default.value * |r.samples|
    else 0
  }

  function ChildDuration(c: TrafChild, default: Option<nat>): nat {
    if c.RunBox? then RunDuration(c.run, default) else 0
  }

  function ChildrenDuration(cs: seq<TrafChild>, default: Option<nat>): nat {
    if cs == [] then 0 else ChildDuration(cs[0], default) + ChildrenDuration(cs[1..], default)
  }

  /** The determinable time of a traf, when it belongs to the track. */
  function TrafTotal(t: TrackFragment, track: nat): nat {
    if t.header.track == track then ChildrenDuration(t.children, t.header.duration) else 0
  }

  function MoofTotal(ms: seq<MoofChild>, track: nat): nat {
    if ms == [] then 0 else (if ms[0].TrafBox? then TrafTotal(ms[0].traf, track) else 0) + MoofTotal(ms[1..], track)
  }

  /** The determinable time of a track over the whole file. */
  function FileTotal(fs: seq<FileBox>, track: nat): nat {
    if fs == [] then 0 else (if fs[0].MoofBox? then MoofTotal(fs[0].children, track) else 0) + FileTotal(fs[1..], track)
  }
}
