/** Duration decoding inverts encoding: bits, fields, boxes, then trafs, moofs and the file. */
module DurationRoundTrip {
  import opened Wrappers
  import opened Bytes
  import opened BoxTree
  import opened FragmentEncoding
  import opened Durations

  // ---- The readers invert the encoder: flags and fields. ----

  lemma MultipleGrows(a: nat, b: nat, mask: nat)
    ensures a <= b ==> a * mask <= b * mask
  {}

  lemma Quotient(f: nat, mask: nat, q: nat, low: nat)
    requires mask > 0 && f == q * mask + low && low < mask
    ensures f / mask == q
  {
    var r := f / mask;
    assert r * mask <= f < r * mask + mask;
    MultipleGrows(r + 1, q, mask);
    MultipleGrows(q + 1, r, mask);
  }

  /** A flag word taken apart at one bit. */
  lemma BitIs(f: nat, mask: nat, high: nat, bit: bool, low: nat)
    requires mask > 0 && f == (2 * high + Weight(bit, 1)) * mask + low && low < mask
    ensures Bit(f, mask) == bit
  {
    Quotient(f, mask, 2 * high + Weight(bit, 1), low);
  }

  lemma HeaderBits(high: nat, base: bool, desc: bool, dur: bool, size: bool, flags: bool)
    ensures var f := high * 0x1_0000 + Weight(base, 0x1) + Weight(desc, 0x2) + Weight(dur, 0x8) + Weight(size, 0x10)
                     + Weight(flags, 0x20);
      Bit(f, 0x1) == base && Bit(f, 0x2) == desc && Bit(f, 0x8) == dur
  {
    var f := high * 0x1_0000 + Weight(base, 0x1) + Weight(desc, 0x2) + Weight(dur, 0x8) + Weight(size, 0x10)
             + Weight(flags, 0x20);
    BitIs(f, 0x1, high * 0x8000 + Weight(flags, 0x10) + Weight(size, 0x8) + Weight(dur, 0x4) + Weight(desc, 0x1), base, 0);
    BitIs(f, 0x2, high * 0x4000 + Weight(flags, 0x8) + Weight(size, 0x4) + Weight(dur, 0x2), desc, Weight(base, 0x1));
    BitIs(f, 0x8, high * 0x1000 + Weight(flags, 0x2) + Weight(size, 0x1), dur, Weight(desc, 0x2) + Weight(base, 0x1));
  }

  lemma RunLowBits(data: bool, first: bool, dur: bool, rest: nat)
    ensures var f := (2 * rest + Weight(dur, 0x1)) * 0x100 + Weight(data, 0x1) + Weight(first, 0x4);
      Bit(f, 0x1) == data && Bit(f, 0x4) == first && Bit(f, 0x100) == dur
  {
    var f := (2 * rest + Weight(dur, 0x1)) * 0x100 + Weight(data, 0x1) + Weight(first, 0x4);
    BitIs(f, 0x1, (2 * rest + Weight(dur, 0x1)) * 0x80 + Weight(first, 0x2), data, 0);
    BitIs(f, 0x4, (2 * rest + Weight(dur, 0x1)) * 0x20, first, Weight(data, 0x1));
    BitIs(f, 0x100, rest, dur, Weight(data, 0x1) + Weight(first, 0x4));
  }

  lemma RunHighBits(low: nat, size: bool, flags: bool, offset: bool)
    requires low < 0x200
    ensures var f := Weight(size, 0x200) + Weight(flags, 0x400) + Weight(offset, 0x800) + low;
      Bit(f, 0x200) == size && Bit(f, 0x400) == flags && Bit(f, 0x800) == offset
  {
    var f := Weight(size, 0x200) + Weight(flags, 0x400) + Weight(offset, 0x800) + low;
    BitIs(f, 0x200, Weight(flags, 0x1) + Weight(offset, 0x2), size, low);
    BitIs(f, 0x400, Weight(offset, 0x1), flags, low + Weight(size, 0x200));
    BitIs(f, 0x800, 0, offset, low + Weight(size, 0x200) + Weight(flags, 0x400));
  }

  /** d holds the bytes b at off. */
  predicate At(d: seq<byte>, off: nat, b: seq<byte>) {
    off + |b| <= |d| && d[off..off + |b|] == b
  }

  lemma AtSplit(d: seq<byte>, off: nat, a: seq<byte>, b: seq<byte>)
    requires At(d, off, a + b)
    ensures At(d, off, a) && At(d, off + |a|, b)
  {
    var n := |a + b|;
    forall i | 0 <= i < |a| ensures d[off + i] == a[i] { assert d[off..off + n][i] == (a + b)[i]; }
    forall i | 0 <= i < |b| ensures d[off + |a| + i] == b[i] { assert d[off..off + n][|a| + i] == (a + b)[|a| + i]; }
  }

  lemma U32At(d: seq<byte>, off: nat, v: nat)
    requires v < TWO_32 && At(d, off, Be32(v))
    ensures U32(d, off) == v
  {
    forall i | 0 <= i < 4 ensures d[off + i] == Be32(v)[i] {
      assert d[off..off + 4][i] == Be32(v)[i];
    }
  }

  /** d holds the box b at off. */
  predicate AtBox(d: seq<byte>, off: nat, b: RawBox) {
    && off + Size(b) <= |d|
    && U32(d, off) == Size(b)
    && U32(d, off + 4) == b.typ
    && At(d, off + 8, b.payload)
  }

  predicate AtBoxes(d: seq<byte>, off: nat, bs: seq<RawBox>)
    decreases |bs|
  {
    off <= |d| && (bs == [] || (AtBox(d, off, bs[0]) && AtBoxes(d, off + Size(bs[0]), bs[1..])))
  }

  lemma BoxAt(d: seq<byte>, off: nat, b: RawBox)
    requires FitsBox(b) && At(d, off, BoxBytes(b))
    ensures AtBox(d, off, b)
  {
    AtSplit(d, off, Be32(8 + |b.payload|), Be32(b.typ) + b.payload);
    U32At(d, off, 8 + |b.payload|);
    AtSplit(d, off + 4, Be32(b.typ), b.payload);
    U32At(d, off + 4, b.typ);
  }

  lemma {:induction false} BoxesAt(d: seq<byte>, off: nat, bs: seq<RawBox>)
    requires AllFit(bs) && At(d, off, BoxesBytes(bs))
    ensures AtBoxes(d, off, bs)
    decreases |bs|
  {
    if bs != [] {
      AtSplit(d, off, BoxBytes(bs[0]), BoxesBytes(bs[1..]));
      BoxAt(d, off, bs[0]);
      BoxesAt(d, off + Size(bs[0]), bs[1..]);
    }
  }

  lemma FlagsAt(d: seq<byte>, off: nat, a: byte, b: byte, c: byte, rest: seq<byte>)
    requires At(d, off + 8, [0, a, b, c] + rest)
    ensures off + 12 <= |d| && Flags(d, off) == a as int * 0x1_0000 + b as int * 0x100 + c as int
    ensures At(d, off + 12, rest)
  {
    AtSplit(d, off + 8, [0, a, b, c], rest);
    var four := d[off + 8..off + 12];
    assert four[1] == a && four[2] == b && four[3] == c;
  }

  /** The optional fields of a tfhd up to its default duration. */
  lemma HeaderFieldsAt(d: seq<byte>, off: nat, h: TrackHeader)
    requires ValidHeader(h)
    requires var base := if h.baseOffset.Some? then Be64(h.baseOffset.value) else [];
      At(d, off, Be32(h.track) + (base + (Opt32(h.description) + (Opt32(h.duration) + (Opt32(h.size) + Opt32(h.flags))))))
    ensures off + 4 <= |d| && U32(d, off) == h.track
    ensures var cursor := off + 4 + (if h.baseOffset.Some? then 8 else 0) + (if h.description.Some? then 4 else 0);
      h.duration.Some? ==> cursor + 4 <= |d| && U32(d, cursor) == h.duration.value
  {
    var base := if h.baseOffset.Some? then Be64(h.baseOffset.value) else [];
    FieldsAt(d, off, Be32(h.track), base, Opt32(h.description), Opt32(h.duration), Opt32(h.size) + Opt32(h.flags));
    U32At(d, off, h.track);
    if h.duration.Some? { U32At(d, off + 4 + |base| + |Opt32(h.description)|, h.duration.value); }
  }

  lemma FieldsAt(d: seq<byte>, off: nat, track: seq<byte>, base: seq<byte>, description: seq<byte>, duration: seq<byte>,
                 tail: seq<byte>)
    requires At(d, off, track + (base + (description + (duration + tail)))) && |track| == 4
    ensures At(d, off, track) && At(d, off + 4 + |base| + |description|, duration)
  {
    AtSplit(d, off, track, base + (description + (duration + tail)));
    AtSplit(d, off + 4, base, description + (duration + tail));
    AtSplit(d, off + 4 + |base|, description, duration + tail);
    AtSplit(d, off + 4 + |base| + |description|, duration, tail);
  }

  function HeaderLow(h: TrackHeader): nat {
    Weight(h.baseOffset.Some?, 0x1) + Weight(h.description.Some?, 0x2) + Weight(h.duration.Some?, 0x8)
    + Weight(h.size.Some?, 0x10) + Weight(h.flags.Some?, 0x20)
  }

  function HeaderFields(h: TrackHeader): seq<byte>
    requires ValidHeader(h)
  {
    var base := if h.baseOffset.Some? then Be64(h.baseOffset.value) else [];
    Be32(h.track) + (base + (Opt32(h.description) + (Opt32(h.duration) + (Opt32(h.size) + Opt32(h.flags)))))
  }

  lemma HeaderFlagsAt(d: seq<byte>, off: nat, h: TrackHeader)
    requires ValidHeader(h) && At(d, off + 8, HeaderPayload(h))
    ensures off + 12 <= |d| && At(d, off + 12, HeaderFields(h))
    ensures Flags(d, off) == h.high as nat * 0x1_0000 + HeaderLow(h)
  {
    FlagsAt(d, off, h.high, 0, HeaderLow(h) as byte, HeaderFields(h));
  }

  lemma HeaderPayloadSize(h: TrackHeader)
    requires ValidHeader(h)
    ensures |HeaderPayload(h)| == 8 + Weight(h.baseOffset.Some?, 8) + Weight(h.description.Some?, 4)
                                  + Weight(h.duration.Some?, 4) + Weight(h.size.Some?, 4) + Weight(h.flags.Some?, 4)
  {}

  /** The tfhd gives back its track and its default duration. */
  lemma HeaderDecodes(d: seq<byte>, off: nat, h: TrackHeader)
    requires ValidHeader(h) && AtBox(d, off, HeaderBox(h))
    ensures off + 16 <= |d| && U32(d, off) >= 16
    ensures U32(d, off + 12) == h.track && TfhdDefault(d, off, U32(d, off)) == h.duration
  {
    HeaderPayloadSize(h);
    HeaderFlagsAt(d, off, h);
    HeaderBits(h.high as nat, h.baseOffset.Some?, h.description.Some?, h.duration.Some?, h.size.Some?, h.flags.Some?);
    HeaderFieldsAt(d, off + 12, h);
  }

  lemma {:induction false} SumDurationsBound(samples: seq<Sample>)
    requires ValidSamples(samples)
    ensures SumDurations(samples) <= |samples| * (TWO_32 - 1)
  {
    if samples != [] {
      assert samples[0] in samples;
      SumDurationsBound(samples[1..]);
    }
  }

  lemma SampleAt(d: seq<byte>, cursor: nat, r: Run, s: Sample, rest: seq<byte>)
    requires s.duration < TWO_32 && s.size < TWO_32 && s.flags < TWO_32 && s.offset < TWO_32
    requires r.hasDuration && At(d, cursor, SampleBytes(r, s) + rest)
    ensures cursor + 4 <= |d| && U32(d, cursor) == s.duration
    ensures var stride := 4 + Weight(r.hasSize, 4) + Weight(r.hasFlags, 4) + Weight(r.hasOffset, 4);
      |SampleBytes(r, s)| == stride && At(d, cursor + stride, rest)
  {
    var fields := If32(r.hasSize, s.size) + (If32(r.hasFlags, s.flags) + If32(r.hasOffset, s.offset));
    AtSplit(d, cursor, SampleBytes(r, s), rest);
    AtSplit(d, cursor, Be32(s.duration), fields);
    U32At(d, cursor, s.duration);
  }

  lemma SumSamplesStep(d: seq<byte>, cursor: nat, end: nat, stride: nat, count: nat, total: nat)
    requires count > 0 && cursor + 4 <= end && cursor + 4 <= |d| && total + U32(d, cursor) < TWO_64
    ensures SumSamples(d, cursor, end, stride, count, total)
         == SumSamples(d, cursor + stride, end, stride, count - 1, total + U32(d, cursor))
  {
    SumSamplesTurn(d, cursor, end, stride, count, total);
    NoWrap(total + U32(d, cursor));
  }

  lemma NoWrap(x: nat)
    requires x < TWO_64
    ensures x % TWO_64 == x
  {}

  /** The durations of the samples lie `stride` bytes apart from `cursor` on, each before `end`. */
  predicate AtSamples(d: seq<byte>, cursor: nat, end: nat, stride: nat, samples: seq<Sample>)
    decreases |samples|
  {
    samples == []
    || (cursor + 4 <= end && cursor + 4 <= |d| && U32(d, cursor) == samples[0].duration
        && AtSamples(d, cursor + stride, end, stride, samples[1..]))
  }

  lemma FirstSample(d: seq<byte>, cursor: nat, r: Run, samples: seq<Sample>, stride: nat)
    requires samples != [] && ValidSamples(samples) && r.hasDuration && At(d, cursor, SamplesBytes(r, samples))
    requires stride == 4 + Weight(r.hasSize, 4) + Weight(r.hasFlags, 4) + Weight(r.hasOffset, 4)
    ensures cursor + 4 <= |d| && U32(d, cursor) == samples[0].duration
    ensures At(d, cursor + stride, SamplesBytes(r, samples[1..]))
    ensures |SamplesBytes(r, samples)| == stride + |SamplesBytes(r, samples[1..])|
  {
    assert samples[0] in samples;
    SampleAt(d, cursor, r, samples[0], SamplesBytes(r, samples[1..]));
  }

  lemma {:induction false} SamplesAt(d: seq<byte>, cursor: nat, end: nat, r: Run, samples: seq<Sample>, stride: nat)
    requires ValidSamples(samples) && r.hasDuration && At(d, cursor, SamplesBytes(r, samples))
    requires cursor + |SamplesBytes(r, samples)| <= end
    requires stride == 4 + Weight(r.hasSize, 4) + Weight(r.hasFlags, 4) + Weight(r.hasOffset, 4)
    ensures AtSamples(d, cursor, end, stride, samples)
    decreases |samples|
  {
    if samples != [] {
      FirstSample(d, cursor, r, samples, stride);
      SamplesAt(d, cursor + stride, end, r, samples[1..], stride);
    }
  }

  /** The sample loop sums the durations, and its uint64 never wraps. */
  lemma {:induction false} SamplesDecode(d: seq<byte>, cursor: nat, end: nat, samples: seq<Sample>, stride: nat, total: nat)
    requires AtSamples(d, cursor, end, stride, samples) && total + SumDurations(samples) < TWO_64
    ensures SumSamples(d, cursor, end, stride, |samples|, total) == Some(total + SumDurations(samples))
    decreases |samples|
  {
    if samples != [] {
      SumSamplesStep(d, cursor, end, stride, |samples|, total);
      SamplesDecode(d, cursor + stride, end, samples[1..], stride, total + samples[0].duration);
    }
  }

  lemma ProductBound(a: nat, b: nat)
    requires a < TWO_32 && b < TWO_32
    ensures a * b < TWO_64
  {
    var room := TWO_32 - 1 - b;
    assert a * room >= 0;
    assert a * b == a * (TWO_32 - 1) - a * room;
  }

  lemma RunDurationBound(r: Run, default: Option<nat>)
    requires ValidRun(r) && Fits32(default)
    ensures RunDuration(r, default) < TWO_64
  {
    if r.hasDuration {
      SumDurationsBound(r.samples);
    } else if default.Some? {
      ProductBound(default.value, |r.samples|);
    }
  }

  function RunTail(r: Run): seq<byte>
    requires ValidRun(r)
  {
    Opt32(r.dataOffset) + (Opt32(r.firstFlags) + SamplesBytes(r, r.samples))
  }

  function LowFlags(r: Run): nat {
    Weight(r.dataOffset.Some?, 0x1) + Weight(r.firstFlags.Some?, 0x4)
  }

  function MidFlags(r: Run): nat {
    Weight(r.hasDuration, 0x1) + Weight(r.hasSize, 0x2) + Weight(r.hasFlags, 0x4) + Weight(r.hasOffset, 0x8)
  }

  lemma CountAt(d: seq<byte>, off: nat, mid: byte, low: byte, count: nat, tail: seq<byte>)
    requires count < TWO_32 && At(d, off + 8, [0, 0, mid, low] + (Be32(count) + tail))
    ensures off + 16 <= |d| && Flags(d, off) == mid as int * 0x100 + low as int && U32(d, off + 12) == count
    ensures At(d, off + 16, tail)
  {
    FlagsAt(d, off, 0, mid, low, Be32(count) + tail);
    AtSplit(d, off + 12, Be32(count), tail);
    U32At(d, off + 12, count);
  }

  lemma TailAt(d: seq<byte>, off: nat, a: Option<nat>, b: Option<nat>, samples: seq<byte>)
    requires Fits32(a) && Fits32(b) && At(d, off, Opt32(a) + (Opt32(b) + samples))
    ensures var cursor := off + (if a.Some? then 4 else 0) + (if b.Some? then 4 else 0);
      At(d, cursor, samples) && cursor + |samples| == off + |Opt32(a) + (Opt32(b) + samples)|
  {
    AtSplit(d, off, Opt32(a), Opt32(b) + samples);
    AtSplit(d, off + |Opt32(a)|, Opt32(b), samples);
  }

  lemma RunFlags(r: Run, flags: nat)
    requires flags == MidFlags(r) * 0x100 + LowFlags(r)
    ensures Bit(flags, 0x1) == r.dataOffset.Some? && Bit(flags, 0x4) == r.firstFlags.Some?
    ensures Bit(flags, 0x100) == r.hasDuration
    ensures Stride(flags) == 4 + Weight(r.hasSize, 4) + Weight(r.hasFlags, 4) + Weight(r.hasOffset, 4)
  {
    RunLowBits(r.dataOffset.Some?, r.firstFlags.Some?, r.hasDuration,
               Weight(r.hasSize, 0x1) + Weight(r.hasFlags, 0x2) + Weight(r.hasOffset, 0x4));
    RunHighBits(Weight(r.hasDuration, 0x100) + LowFlags(r), r.hasSize, r.hasFlags, r.hasOffset);
  }

  lemma NonZeroProduct(a: nat, b: nat)
    ensures a * b == 0 <==> a == 0 || b == 0
  {
  }

  lemma TrunTicksDecodes(d: seq<byte>, off: nat, size: nat, r: Run, default: Option<nat>, cursor: nat)
    requires ValidRun(r) && RunDuration(r, default) < TWO_64
    requires off + 16 <= |d| && size >= 16 && U32(d, off + 12) == |r.samples|
    requires Bit(Flags(d, off), 0x1) == r.dataOffset.Some? && Bit(Flags(d, off), 0x4) == r.firstFlags.Some?
    requires Bit(Flags(d, off), 0x100) == r.hasDuration
    requires cursor == off + 16 + (if r.dataOffset.Some? then 4 else 0) + (if r.firstFlags.Some? then 4 else 0)
    requires r.hasDuration ==>
      SumSamples(d, cursor, off + size, Stride(Flags(d, off)), |r.samples|, 0) == Some(SumDurations(r.samples))
    ensures TrunTicks(d, off, size, default) == if RunDuration(r, default) == 0 then None else Some(RunDuration(r, default))
  {
    if !r.hasDuration && default.Some? { NonZeroProduct(default.value, |r.samples|); }
  }

  function Cursor(off: nat, r: Run): nat {
    off + 16 + (if r.dataOffset.Some? then 4 else 0) + (if r.firstFlags.Some? then 4 else 0)
  }

  lemma RunHeadAt(d: seq<byte>, off: nat, r: Run)
    requires ValidRun(r) && At(d, off + 8, RunPayload(r))
    ensures off + 16 <= |d| && Flags(d, off) == MidFlags(r) * 0x100 + LowFlags(r) && U32(d, off + 12) == |r.samples|
    ensures At(d, Cursor(off, r), SamplesBytes(r, r.samples))
    ensures Cursor(off, r) + |SamplesBytes(r, r.samples)| == off + 8 + |RunPayload(r)|
  {
    CountAt(d, off, MidFlags(r) as byte, LowFlags(r) as byte, |r.samples|, RunTail(r));
    TailAt(d, off + 16, r.dataOffset, r.firstFlags, SamplesBytes(r, r.samples));
  }

  lemma RunSamples(d: seq<byte>, off: nat, size: nat, r: Run)
    requires ValidRun(r) && r.hasDuration && off + 12 <= |d|
    requires Flags(d, off) == MidFlags(r) * 0x100 + LowFlags(r)
    requires At(d, Cursor(off, r), SamplesBytes(r, r.samples))
    requires Cursor(off, r) + |SamplesBytes(r, r.samples)| == off + size
    ensures SumSamples(d, Cursor(off, r), off + size, Stride(Flags(d, off)), |r.samples|, 0) == Some(SumDurations(r.samples))
  {
    RunFlags(r, Flags(d, off));
    RunDurationBound(r, None);
    SamplesAt(d, Cursor(off, r), off + size, r, r.samples, Stride(Flags(d, off)));
    SamplesDecode(d, Cursor(off, r), off + size, r.samples, Stride(Flags(d, off)), 0);
  }

  /** A trun gives back its duration, which fits the uint64; a duration of 0 counts as unknown. */
  lemma RunDecodes(d: seq<byte>, off: nat, size: nat, r: Run, default: Option<nat>)
    requires ValidRun(r) && Fits32(default) && At(d, off + 8, RunPayload(r)) && size == 8 + |RunPayload(r)|
    ensures RunDuration(r, default) < TWO_64
    ensures TrunTicks(d, off, size, default) == if RunDuration(r, default) == 0 then None else Some(RunDuration(r, default))
  {
    RunHeadAt(d, off, r);
    RunFlags(r, Flags(d, off));
    RunDurationBound(r, default);
    if r.hasDuration {
      RunSamples(d, off, size, r);
    }
    TrunTicksDecodes(d, off, size, r, default, Cursor(off, r));
  }

  // ---- The walks invert the encoder: trafs, moofs and the file. ----

  lemma PassTrackId(d: seq<byte>, off: nat, end: nat, id: nat)
    requires HasHeader(d, off, end) && U32(d, off) >= 8 && U32(d, off + 4) != TFHD
    ensures TrackId(d, off, end, id) == TrackId(d, off + U32(d, off), end, id)
  {}

  lemma PassDefault(d: seq<byte>, off: nat, end: nat, default: Option<nat>)
    requires HasHeader(d, off, end) && U32(d, off) >= 8 && U32(d, off + 4) != TFHD
    ensures DefaultDuration(d, off, end, default) == DefaultDuration(d, off + U32(d, off), end, default)
  {}

  /** After its tfhd, a traf's boxes leave the track and the default duration alone. */
  lemma {:induction false} OthersKeepHeader(d: seq<byte>, off: nat, end: nat, bs: seq<RawBox>, id: nat, default: Option<nat>)
    requires AtBoxes(d, off, bs) && end == off + Length(bs) && forall b <- bs :: b.typ != TFHD
    ensures TrackId(d, off, end, id) == Some(id) && DefaultDuration(d, off, end, default) == default
    decreases |bs|
  {
    if bs != [] {
      assert bs[0] in bs;
      PassTrackId(d, off, end, id);
      PassDefault(d, off, end, default);
      OthersKeepHeader(d, off + Size(bs[0]), end, bs[1..], id, default);
    }
  }

  lemma {:induction false} ChildrenAreNotHeaders(cs: seq<TrafChild>)
    requires ValidChildren(cs)
    ensures forall b <- ChildBoxes(cs) :: b.typ != TFHD
  {
    if cs != [] {
      ChildrenAreNotHeaders(cs[1..]);
      assert ValidChild(cs[0]);
    }
  }

  lemma ModAdd(a: nat, b: nat, c: nat)
    ensures ((a + b) % TWO_64 + c) % TWO_64 == (a + (b + c)) % TWO_64
  {
  }

  /** The ticks the box at off adds to a traf's sum. */
  function TicksAt(d: seq<byte>, off: nat, default: Option<nat>): nat
    requires off + 8 <= |d|
  {
    var here := if U32(d, off + 4) == TRUN then TrunTicks(d, off, U32(d, off), default) else None;
    if here.Some? then here.value else 0
  }

  /** The boxes from off to end add the durations of the children, one by one. */
  predicate Yields(d: seq<byte>, off: nat, end: nat, cs: seq<TrafChild>, default: Option<nat>)
    decreases |cs|
  {
    if cs == [] then off == end
    else
      && HasHeader(d, off, end) && U32(d, off) >= 8
      && TicksAt(d, off, default) == ChildDuration(cs[0], default)
      && Yields(d, off + U32(d, off), end, cs[1..], default)
  }

  lemma ChildYields(d: seq<byte>, off: nat, c: TrafChild, default: Option<nat>)
    requires ValidChild(c) && AtBox(d, off, ChildBox(c)) && Fits32(default)
    ensures TicksAt(d, off, default) == ChildDuration(c, default)
  {
    if c.RunBox? {
      RunDecodes(d, off, U32(d, off), c.run, default);
    }
  }

  lemma FirstChild(d: seq<byte>, off: nat, cs: seq<TrafChild>)
    requires cs != [] && ValidChildren(cs) && AtBoxes(d, off, ChildBoxes(cs))
    ensures ValidChild(cs[0]) && AtBox(d, off, ChildBox(cs[0])) && AtBoxes(d, off + U32(d, off), ChildBoxes(cs[1..]))
    ensures U32(d, off) >= 8 && Length(ChildBoxes(cs)) == U32(d, off) + Length(ChildBoxes(cs[1..]))
  {
    assert cs[0] in cs;
    assert ChildBoxes(cs)[1..] == ChildBoxes(cs[1..]);
  }

  lemma {:induction false} ChildrenYield(d: seq<byte>, off: nat, end: nat, cs: seq<TrafChild>, default: Option<nat>)
    requires ValidChildren(cs) && AtBoxes(d, off, ChildBoxes(cs)) && end == off + Length(ChildBoxes(cs)) && Fits32(default)
    ensures Yields(d, off, end, cs, default)
    decreases |cs|
  {
    if cs != [] {
      FirstChild(d, off, cs);
      ChildYields(d, off, cs[0], default);
      ChildrenYield(d, off + U32(d, off), end, cs[1..], default);
    }
  }

  lemma SumTrunsStep(d: seq<byte>, off: nat, end: nat, default: Option<nat>, total: nat)
    requires HasHeader(d, off, end) && U32(d, off) >= 8 && total < TWO_64
    ensures SumTruns(d, off, end, default, total)
         == SumTruns(d, off + U32(d, off), end, default, (total + TicksAt(d, off, default)) % TWO_64)
  {}

  /** The truns of a traf add up, in uint64. */
  lemma {:induction false} ChildrenSum(d: seq<byte>, off: nat, end: nat, cs: seq<TrafChild>, default: Option<nat>, total: nat)
    requires Yields(d, off, end, cs, default) && total < TWO_64
    ensures SumTruns(d, off, end, default, total) == (total + ChildrenDuration(cs, default)) % TWO_64
    decreases |cs|
  {
    if cs != [] {
      var here := ChildDuration(cs[0], default);
      SumTrunsStep(d, off, end, default, total);
      ChildrenSum(d, off + U32(d, off), end, cs[1..], default, (total + here) % TWO_64);
      ModAdd(total, here, ChildrenDuration(cs[1..], default));
    }
  }

  lemma HeaderPasses(d: seq<byte>, off: nat, end: nat, track: nat, default: Option<nat>)
    requires HasHeader(d, off, end) && U32(d, off) >= 16 && U32(d, off + 4) == TFHD
    requires off + 16 <= |d| && U32(d, off + 12) == track && TfhdDefault(d, off, U32(d, off)) == default
    ensures TrackId(d, off, end, 1) == TrackId(d, off + U32(d, off), end, track)
    ensures DefaultDuration(d, off, end, None) == DefaultDuration(d, off + U32(d, off), end, default)
    ensures SumTruns(d, off, end, default, 0) == SumTruns(d, off + U32(d, off), end, default, 0)
  {}

  lemma FirstTrafBox(d: seq<byte>, off: nat, t: TrackFragment)
    requires ValidHeader(t.header) && ValidChildren(t.children) && AtBoxes(d, off, TrafBoxes(t))
    ensures AtBox(d, off, HeaderBox(t.header)) && AtBoxes(d, off + U32(d, off), ChildBoxes(t.children))
    ensures Length(TrafBoxes(t)) == U32(d, off) + Length(ChildBoxes(t.children))
  {
    assert TrafBoxes(t)[1..] == ChildBoxes(t.children);
  }

  lemma PayloadBoxes(d: seq<byte>, off: nat, typ: nat, bs: seq<RawBox>)
    requires AllFit(bs) && AtBox(d, off, RawBox(typ, BoxesBytes(bs)))
    ensures AtBoxes(d, off + 8, bs) && U32(d, off) == 8 + Length(bs)
  {
    BoxesAt(d, off + 8, bs);
  }

  /** What the walks of a traf need to know of its bytes: the header's fields, and the boxes after it. */
  lemma TrafLayout(d: seq<byte>, off: nat, t: TrackFragment)
    requires ValidTraf(t) && AtBox(d, off, RawBox(TRAF, BoxesBytes(TrafBoxes(t))))
    ensures var o := off + 8;
      && o + 16 <= |d| && U32(d, o) >= 16 && U32(d, o + 4) == TFHD && U32(d, o + 12) == t.header.track
      && TfhdDefault(d, o, U32(d, o)) == t.header.duration
      && AtBoxes(d, o + U32(d, o), ChildBoxes(t.children))
      && U32(d, off) == 8 + U32(d, o) + Length(ChildBoxes(t.children))
  {
    PayloadBoxes(d, off, TRAF, TrafBoxes(t));
    FirstTrafBox(d, off + 8, t);
    HeaderDecodes(d, off + 8, t.header);
  }

  lemma ChildrenKeepHeader(d: seq<byte>, off: nat, end: nat, cs: seq<TrafChild>, track: nat, default: Option<nat>)
    requires ValidChildren(cs) && AtBoxes(d, off, ChildBoxes(cs)) && end == off + Length(ChildBoxes(cs))
    ensures TrackId(d, off, end, track) == Some(track) && DefaultDuration(d, off, end, default) == default
  {
    ChildrenAreNotHeaders(cs);
    OthersKeepHeader(d, off, end, ChildBoxes(cs), track, default);
  }

  lemma ChildrenTicks(d: seq<byte>, off: nat, end: nat, cs: seq<TrafChild>, default: Option<nat>)
    requires ValidChildren(cs) && AtBoxes(d, off, ChildBoxes(cs)) && end == off + Length(ChildBoxes(cs)) && Fits32(default)
    ensures SumTruns(d, off, end, default, 0) == ChildrenDuration(cs, default) % TWO_64
  {
    ChildrenYield(d, off, end, cs, default);
    ChildrenSum(d, off, end, cs, default, 0);
  }

  /** A traf gives back its track and its determinable time. */
  lemma TrafDecodes(d: seq<byte>, off: nat, t: TrackFragment)
    requires ValidTraf(t) && AtBox(d, off, RawBox(TRAF, BoxesBytes(TrafBoxes(t))))
    ensures TrackId(d, off + 8, off + U32(d, off), 1) == Some(t.header.track)
    ensures TrafTicks(d, off + 8, off + U32(d, off)) == ChildrenDuration(t.children, t.header.duration) % TWO_64
  {
    TrafLayout(d, off, t);
    TrafWalks(d, off + 8, off + U32(d, off), t.children, t.header.track, t.header.duration);
  }

  lemma TrafWalks(d: seq<byte>, off: nat, end: nat, cs: seq<TrafChild>, track: nat, default: Option<nat>)
    requires ValidChildren(cs) && Fits32(default)
    requires off + 16 <= |d| && U32(d, off) >= 16 && U32(d, off + 4) == TFHD && U32(d, off + 12) == track
    requires TfhdDefault(d, off, U32(d, off)) == default
    requires AtBoxes(d, off + U32(d, off), ChildBoxes(cs)) && end == off + U32(d, off) + Length(ChildBoxes(cs))
    ensures TrackId(d, off, end, 1) == Some(track)
    ensures TrafTicks(d, off, end) == ChildrenDuration(cs, default) % TWO_64
  {
    HeaderPasses(d, off, end, track, default);
    ChildrenKeepHeader(d, off + U32(d, off), end, cs, track, default);
    ChildrenTicks(d, off + U32(d, off), end, cs, default);
  }

  // ---- Over moofs and the file. ----

  lemma AddTicksGet(ticks: map<nat, nat>, track: nat, sum: nat, t: nat)
    requires Get(ticks, t) < TWO_64
    ensures Get(AddTicks(ticks, track, sum % TWO_64), t)
         == (Get(ticks, t) + (if t == track then sum else 0)) % TWO_64
  {
    if t == track {
      ModAdd(sum, 0, Get(ticks, t));
    }
  }

  lemma TrackTicksPasses(d: seq<byte>, off: nat, end: nat, level: Level, ticks: map<nat, nat>)
    requires HasHeader(d, off, end) && U32(d, off) >= 8 && Callback(d, off, level).Skip?
    ensures TrackTicks(d, off, end, level, ticks) == TrackTicks(d, off + U32(d, off), end, level, ticks)
  {}

  lemma TrackTicksTraf(d: seq<byte>, off: nat, end: nat, ticks: map<nat, nat>, track: nat, more: nat)
    requires HasHeader(d, off, end) && U32(d, off) >= 8 && U32(d, off + 4) == TRAF
    requires TrackId(d, off + 8, off + U32(d, off), 1) == Some(track)
    requires TrafTicks(d, off + 8, off + U32(d, off)) == more
    ensures TrackTicks(d, off, end, InMoof, ticks)
         == TrackTicks(d, off + U32(d, off), end, InMoof, AddTicks(ticks, track, more))
  {}

  /** The ticks after one child of a moof. */
  function MoofStep(ticks: map<nat, nat>, m: MoofChild): map<nat, nat> {
    match m
    case TrafBox(t) => AddTicks(ticks, t.header.track, ChildrenDuration(t.children, t.header.duration) % TWO_64)
    case OtherInMoof(_, _) => ticks
  }

  lemma TrafStep(d: seq<byte>, off: nat, end: nat, ticks: map<nat, nat>, t: TrackFragment)
    requires HasHeader(d, off, end) && U32(d, off) >= 8 && U32(d, off + 4) == TRAF
    requires TrackId(d, off + 8, off + U32(d, off), 1) == Some(t.header.track)
    requires TrafTicks(d, off + 8, off + U32(d, off)) == ChildrenDuration(t.children, t.header.duration) % TWO_64
    ensures TrackTicks(d, off, end, InMoof, ticks)
         == TrackTicks(d, off + U32(d, off), end, InMoof, MoofStep(ticks, TrafBox(t)))
  {
    TrackTicksTraf(d, off, end, ticks, t.header.track, ChildrenDuration(t.children, t.header.duration) % TWO_64);
  }

  lemma MoofChildStep(d: seq<byte>, off: nat, end: nat, m: MoofChild, ticks: map<nat, nat>)
    requires ValidMoofChild(m) && AtBox(d, off, MoofChildBox(m)) && off + U32(d, off) <= end
    ensures TrackTicks(d, off, end, InMoof, ticks) == TrackTicks(d, off + U32(d, off), end, InMoof, MoofStep(ticks, m))
  {
    match m
    case TrafBox(t) =>
      TrafDecodes(d, off, t);
      TrafStep(d, off, end, ticks, t);
    case OtherInMoof(typ, payload) =>
      TrackTicksPasses(d, off, end, InMoof, ticks);
  }

  function MoofFold(ticks: map<nat, nat>, ms: seq<MoofChild>): map<nat, nat>
    decreases |ms|
  {
    if ms == [] then ticks else MoofFold(MoofStep(ticks, ms[0]), ms[1..])
  }

  lemma FirstMoofChild(d: seq<byte>, off: nat, ms: seq<MoofChild>)
    requires ms != [] && ValidMoof(ms) && AtBoxes(d, off, MoofBoxes(ms))
    ensures ValidMoofChild(ms[0]) && AtBox(d, off, MoofChildBox(ms[0]))
    ensures AtBoxes(d, off + U32(d, off), MoofBoxes(ms[1..]))
    ensures Length(MoofBoxes(ms)) == U32(d, off) + Length(MoofBoxes(ms[1..]))
  {
    assert ms[0] in ms;
    assert MoofBoxes(ms)[1..] == MoofBoxes(ms[1..]);
  }

  /** The walk of a moof goes through, child by child. */
  lemma {:induction false} MoofWalk(d: seq<byte>, off: nat, end: nat, ms: seq<MoofChild>, ticks: map<nat, nat>)
    requires ValidMoof(ms) && AtBoxes(d, off, MoofBoxes(ms)) && end == off + Length(MoofBoxes(ms))
    ensures TrackTicks(d, off, end, InMoof, ticks) == (MoofFold(ticks, ms), true)
    decreases |ms|
  {
    if ms != [] {
      FirstMoofChild(d, off, ms);
      MoofChildStep(d, off, end, ms[0], ticks);
      MoofWalk(d, off + U32(d, off), end, ms[1..], MoofStep(ticks, ms[0]));
    }
  }

  lemma MoofStepGet(ticks: map<nat, nat>, m: MoofChild, t: nat)
    requires Get(ticks, t) < TWO_64
    ensures Get(MoofStep(ticks, m), t) == (Get(ticks, t) + (if m.TrafBox? then TrafTotal(m.traf, t) else 0)) % TWO_64
  {
    if m.TrafBox? {
      AddTicksGet(ticks, m.traf.header.track, ChildrenDuration(m.traf.children, m.traf.header.duration), t);
    }
  }

  lemma {:induction false} MoofFoldGet(ticks: map<nat, nat>, ms: seq<MoofChild>, t: nat)
    requires Get(ticks, t) < TWO_64
    ensures Get(MoofFold(ticks, ms), t) == (Get(ticks, t) + MoofTotal(ms, t)) % TWO_64
    decreases |ms|
  {
    if ms != [] {
      MoofStepGet(ticks, ms[0], t);
      MoofFoldGet(MoofStep(ticks, ms[0]), ms[1..], t);
      ModAdd(Get(ticks, t), if ms[0].TrafBox? then TrafTotal(ms[0].traf, t) else 0, MoofTotal(ms[1..], t));
    }
  }

  function FileStep(ticks: map<nat, nat>, f: FileBox): map<nat, nat> {
    if f.MoofBox? then MoofFold(ticks, f.children) else ticks
  }

  function FileFold(ticks: map<nat, nat>, fs: seq<FileBox>): map<nat, nat>
    decreases |fs|
  {
    if fs == [] then ticks else FileFold(FileStep(ticks, fs[0]), fs[1..])
  }

  lemma TrackTicksMoof(d: seq<byte>, off: nat, end: nat, ticks: map<nat, nat>, inner: map<nat, nat>)
    requires HasHeader(d, off, end) && U32(d, off) >= 8 && U32(d, off + 4) == MOOF
    requires TrackTicks(d, off + 8, off + U32(d, off), InMoof, ticks) == (inner, true)
    ensures TrackTicks(d, off, end, TopLevel, ticks) == TrackTicks(d, off + U32(d, off), end, TopLevel, inner)
  {}

  lemma FileBoxStep(d: seq<byte>, off: nat, end: nat, f: FileBox, ticks: map<nat, nat>)
    requires ValidFileBox(f) && AtBox(d, off, FileBoxRaw(f)) && off + Size(FileBoxRaw(f)) <= end
    ensures TrackTicks(d, off, end, TopLevel, ticks)
         == TrackTicks(d, off + Size(FileBoxRaw(f)), end, TopLevel, FileStep(ticks, f))
  {
    match f
    case MoofBox(ms) =>
      PayloadBoxes(d, off, MOOF, MoofBoxes(ms));
      MoofWalk(d, off + 8, off + U32(d, off), ms, ticks);
      TrackTicksMoof(d, off, end, ticks, MoofFold(ticks, ms));
    case OtherInFile(typ, payload) =>
      TrackTicksPasses(d, off, end, TopLevel, ticks);
  }

  lemma FirstFileBox(d: seq<byte>, off: nat, fs: seq<FileBox>)
    requires fs != [] && ValidFile(fs) && AtBoxes(d, off, FileBoxes(fs))
    ensures ValidFileBox(fs[0]) && AtBox(d, off, FileBoxRaw(fs[0]))
    ensures AtBoxes(d, off + Size(FileBoxRaw(fs[0])), FileBoxes(fs[1..]))
    ensures Length(FileBoxes(fs)) == Size(FileBoxRaw(fs[0])) + Length(FileBoxes(fs[1..]))
  {
    assert fs[0] in fs;
    assert FileBoxes(fs)[1..] == FileBoxes(fs[1..]);
  }

  lemma {:induction false} FileWalk(d: seq<byte>, off: nat, end: nat, fs: seq<FileBox>, ticks: map<nat, nat>)
    requires ValidFile(fs) && AtBoxes(d, off, FileBoxes(fs)) && end == off + Length(FileBoxes(fs))
    ensures TrackTicks(d, off, end, TopLevel, ticks) == (FileFold(ticks, fs), true)
    decreases |fs|
  {
    if fs != [] {
      FirstFileBox(d, off, fs);
      FileBoxStep(d, off, end, fs[0], ticks);
      FileWalk(d, off + Size(FileBoxRaw(fs[0])), end, fs[1..], FileStep(ticks, fs[0]));
    }
  }

  lemma {:induction false} FileFoldGet(ticks: map<nat, nat>, fs: seq<FileBox>, t: nat)
    requires Get(ticks, t) < TWO_64
    ensures Get(FileFold(ticks, fs), t) == (Get(ticks, t) + FileTotal(fs, t)) % TWO_64
    decreases |fs|
  {
    if fs != [] {
      var here := if fs[0].MoofBox? then MoofTotal(fs[0].children, t) else 0;
      if fs[0].MoofBox? {
        MoofFoldGet(ticks, fs[0].children, t);
      }
      FileFoldGet(FileStep(ticks, fs[0]), fs[1..], t);
      ModAdd(Get(ticks, t), here, FileTotal(fs[1..], t));
    }
  }

  /**
   * Duration decoding inverts encoding: whatever boxes, flags and samples a fragment is printed with, each track's
   * count is the sum of its determinable sample durations, in uint64.
   */
  lemma DurationsInvertEncoding(fs: seq<FileBox>, t: nat)
    requires ValidFile(fs)
    ensures Get(FragmentTicks(Encode(fs)), t) == FileTotal(fs, t) % TWO_64
  {
    var d := Encode(fs);
    assert d[0..|d|] == d;
    BoxesAt(d, 0, FileBoxes(fs));
    FileWalk(d, 0, |d|, fs, map[]);
    FileFoldGet(map[], fs, t);
  }

  // ---- Spans. ----

  /** The seconds a track's samples last: their sum over its timescale, the one guessed when the init gives none. */
  function Seconds(fs: seq<FileBox>, timescales: map<nat, nat>, t: nat): real {
    Span(FileTotal(fs, t) % TWO_64, Get(timescales, t))
  }

  /** Below 2^64 ticks and with a timescale known, that is the sum over the timescale. */
  lemma SecondsExact(fs: seq<FileBox>, timescales: map<nat, nat>, t: nat)
    requires FileTotal(fs, t) < TWO_64 && Get(timescales, t) > 0
    ensures Seconds(fs, timescales, t) == FileTotal(fs, t) as real / Get(timescales, t) as real
  {
    assert FileTotal(fs, t) % TWO_64 == FileTotal(fs, t);
  }

  /** From bytes to seconds: an encoded file has a span for exactly the tracks that last, and it is what they last. */
  lemma SpansInvertEncoding(fs: seq<FileBox>, timescales: map<nat, nat>, t: nat)
    requires ValidFile(fs)
    ensures var spans := TrackSpans(FragmentTicks(Encode(fs)), timescales);
      && (t in spans <==> Seconds(fs, timescales, t) > 0.0)
      && (t in spans ==> spans[t] == Seconds(fs, timescales, t))
  {
    DurationsInvertEncoding(fs, t);
  }

  /** The greatest of all tracks' seconds: a bound from above that some track reaches. */
  ghost predicate GreatestSeconds(fs: seq<FileBox>, timescales: map<nat, nat>, m: real) {
    && (forall t: nat :: Seconds(fs, timescales, t) <= m)
    && exists t: nat :: Seconds(fs, timescales, t) == m
  }

  /** The least of the seconds of the tracks that last; 0 when none does. */
  ghost predicate LeastSeconds(fs: seq<FileBox>, timescales: map<nat, nat>, m: real) {
    && (forall t: nat :: Seconds(fs, timescales, t) > 0.0 ==> 0.0 < m <= Seconds(fs, timescales, t))
    && exists t: nat :: Seconds(fs, timescales, t) == m
  }

  /** FragmentDurationSecWithTimescales of an encoded file is the greatest of its tracks' seconds. */
  lemma LongestOfEncoding(fs: seq<FileBox>, timescales: map<nat, nat>, m: real)
    requires ValidFile(fs)
    ensures IsLongest(TrackSpans(FragmentTicks(Encode(fs)), timescales), m) <==> GreatestSeconds(fs, timescales, m)
  {
    forall t: nat
      ensures var spans := TrackSpans(FragmentTicks(Encode(fs)), timescales);
        && (t in spans <==> Seconds(fs, timescales, t) > 0.0)
        && (t in spans ==> spans[t] == Seconds(fs, timescales, t))
    {
      SpansInvertEncoding(fs, timescales, t);
    }
    assert Seconds(fs, timescales, 0) >= 0.0;
  }

  /** FragmentDurationMinSecWithTimescales of an encoded file is the least of the seconds of the tracks that last. */
  lemma ShortestOfEncoding(fs: seq<FileBox>, timescales: map<nat, nat>, m: real)
    requires ValidFile(fs)
    ensures IsShortest(TrackSpans(FragmentTicks(Encode(fs)), timescales), m) <==> LeastSeconds(fs, timescales, m)
  {
    forall t: nat
      ensures var spans := TrackSpans(FragmentTicks(Encode(fs)), timescales);
        && (t in spans <==> Seconds(fs, timescales, t) > 0.0)
        && (t in spans ==> spans[t] == Seconds(fs, timescales, t))
    {
      SpansInvertEncoding(fs, timescales, t);
    }
    assert Seconds(fs, timescales, 0) >= 0.0;
  }
}
