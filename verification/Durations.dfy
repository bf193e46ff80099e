/**
 * mp4/fragment.go and mp4/init_timescale.go: the decode time a fragment covers, track by track,
 * summed from its trun boxes (ISO/IEC 14496-12, 8.8.7 and 8.8.8).
 */
module Durations {
  import opened Wrappers
  import opened Bytes
  import opened BoxTree
  import opened FragmentEncoding

  /** The 24 flag bits of the full box at off. */
  function Flags(d: seq<byte>, off: nat): nat
    requires off + 12 <= |d|
  {
    d[off + 9] as int * 0x1_0000 + d[off + 10] as int * 0x100 + d[off + 11] as int
  }

  /** flags & mask != 0, for a mask of one bit. */
  predicate Bit(flags: nat, mask: nat)
    requires mask > 0
  {
    flags / mask % 2 == 1
  }

  /** tfhdDefaultSampleDuration. */
  function TfhdDefault(d: seq<byte>, off: nat, size: nat): Option<nat> {
    if off + 16 > |d| || size < 16 || !Bit(Flags(d, off), 0x8) then None
    else
      var cursor := off + 16 + (if Bit(Flags(d, off), 0x1) then 8 else 0) + (if Bit(Flags(d, off), 0x2) then 4 else 0);
      if cursor + 4 > off + size || cursor + 4 > |d| then None else Some(U32(d, cursor))
  }

  /** The bytes one sample takes in a trun with a sample duration in it. */
  function Stride(flags: nat): nat {
    4 + (if Bit(flags, 0x200) then 4 else 0) + (if Bit(flags, 0x400) then 4 else 0) + (if Bit(flags, 0x800) then 4 else 0)
  }

  /** The sample loop of trunDurationTicks, with its uint64 sum. */
  function SumSamples(d: seq<byte>, cursor: nat, end: nat, stride: nat, count: nat, total: nat): Option<nat>
    decreases count
  {
    if count == 0 then Some(total)
    else if cursor + 4 > end || cursor + 4 > |d| then None
    else SumSamples(d, cursor + stride, end, stride, count - 1, (total + U32(d, cursor)) % TWO_64)
  }

  /** trunDurationTicks: None when the duration is unknown or 0. */
  function TrunTicks(d: seq<byte>, off: nat, size: nat, default: Option<nat>): Option<nat> {
    if off + 16 > |d| || size < 16 || U32(d, off + 12) == 0 then None
    else
      var flags, count := Flags(d, off), U32(d, off + 12);
      if !Bit(flags, 0x100) then
        if default.None? || default.value == 0 then None else Some(default.value * count % TWO_64)
      else
        var cursor := off + 16 + (if Bit(flags, 0x1) then 4 else 0) + (if Bit(flags, 0x4) then 4 else 0);
        var total := SumSamples(d, cursor, off + size, Stride(flags), count, 0);
        if total == Some(0) then None else total
  }

  /** The first walk of trafDurationTicks: the last default duration a tfhd in [off, end) gives. A bad size ends it. */
  function DefaultDuration(d: seq<byte>, off: nat, end: int, default: Option<nat>): Option<nat>
    decreases |d| - off
  {
    if !HasHeader(d, off, end) || U32(d, off) < 8 then default
    else
      var here := if U32(d, off + 4) == TFHD then TfhdDefault(d, off, U32(d, off)) else None;
      DefaultDuration(d, off + U32(d, off), end, if here.Some? then here else default)
  }

  /** The default durations the tfhds in [off, end) give, in their order. */
  function DefaultsIn(d: seq<byte>, off: nat, end: int): seq<nat>
    decreases |d| - off
  {
    if !HasHeader(d, off, end) || U32(d, off) < 8 then []
    else
      var here := if U32(d, off + 4) == TFHD then TfhdDefault(d, off, U32(d, off)) else None;
      (if here.Some? then [here.value] else []) + DefaultsIn(d, off + U32(d, off), end)
  }

  /** Of several default durations the last one counts; one given before counts only when there is none. */
  lemma {:induction false} LastDefaultCounts(d: seq<byte>, off: nat, end: int, default: Option<nat>)
    ensures var all := DefaultsIn(d, off, end);
      DefaultDuration(d, off, end, default) == if all == [] then default else Some(all[|all| - 1])
    decreases |d| - off
  {
    if HasHeader(d, off, end) && U32(d, off) >= 8 {
      var here := if U32(d, off + 4) == TFHD then TfhdDefault(d, off, U32(d, off)) else None;
      LastDefaultCounts(d, off + U32(d, off), end, if here.Some? then here else default);
    }
  }

  /** The second walk of trafDurationTicks: the uint64 sum of the truns in [off, end). */
  function SumTruns(d: seq<byte>, off: nat, end: int, default: Option<nat>, total: nat): nat
    decreases |d| - off
  {
    if !HasHeader(d, off, end) || U32(d, off) < 8 then total
    else
      var here := if U32(d, off + 4) == TRUN then TrunTicks(d, off, U32(d, off), default) else None;
      SumTruns(d, off + U32(d, off), end, default, if here.Some? then (total + here.value) % TWO_64 else total)
  }

  /** trafDurationTicks; 0 also stands for "none found", which its caller treats alike. */
  function TrafTicks(d: seq<byte>, off: nat, end: int): nat {
    SumTruns(d, off, end, DefaultDuration(d, off, end, None), 0)
  }

  function Get(ticks: map<nat, nat>, track: nat): nat {
    if track in ticks then ticks[track] else 0
  }

  /** Adds to a track's uint64 count; a traf without ticks leaves the map alone. */
  function AddTicks(ticks: map<nat, nat>, track: nat, more: nat): map<nat, nat> {
    if more == 0 then ticks else ticks[track := (Get(ticks, track) + more) % TWO_64]
  }

  /** The walk of fragmentTrackDurationSecs: the counts so far, and whether the walk goes on. */
  function TrackTicks(d: seq<byte>, off: nat, end: int, level: Level, ticks: map<nat, nat>): (map<nat, nat>, bool)
    decreases 2 - Depth(level), |d| - off
  {
    if !HasHeader(d, off, end) then (ticks, true)
    else if U32(d, off) < 8 then (ticks, false)
    else
      var size := U32(d, off);
      var inner :=
        match Callback(d, off, level)
        case Fail => (ticks, false)
        case Skip => (ticks, true)
        case Into(next) =>
          if next.InTraf? then (AddTicks(ticks, next.track, TrafTicks(d, off + 8, off + size)), true)
          else TrackTicks(d, off + 8, off + size, next, ticks);
      if inner.1 then TrackTicks(d, off + size, end, level, inner.0) else inner
  }

  /** A moof that cannot be walked to its end is the last box counted, with what was counted up to there. */
  lemma StopIsFinal(d: seq<byte>, off: nat, end: int, ticks: map<nat, nat>)
    requires HasHeader(d, off, end) && U32(d, off) >= 8 && U32(d, off + 4) == MOOF
    requires !TrackTicks(d, off + 8, off + U32(d, off), InMoof, ticks).1
    ensures TrackTicks(d, off, end, TopLevel, ticks) == TrackTicks(d, off + 8, off + U32(d, off), InMoof, ticks)
  {}

  function FragmentTicks(d: seq<byte>): map<nat, nat> {
    TrackTicks(d, 0, |d|, TopLevel, map[]).0
  }

  // ---- Spans in seconds. ----

  type Timescale = n: nat | n > 0 witness 1

  const DEFAULT_TIMESCALE: Timescale := 90000
  /** The timescales inferTrackDurationSec tries, in its order. */
  const GUESSES: seq<Timescale> := [90000, 16000, 48000, 44100, 30000, 1000]

  function InSeconds(ticks: nat, timescale: nat): (sec: real)
    ensures timescale > 0 ==> (sec > 0.0 <==> ticks > 0) && sec * timescale as real == ticks as real
  {
    if timescale > 0 then ticks as real / timescale as real else 0.0
  }

  predicate Plausible(ticks: nat, timescale: nat) {
    0.5 <= InSeconds(ticks, timescale) <= 12.0
  }

  /** The first timescale of a list that gives a plausible length, else the default one. */
  function GuessFrom(ticks: nat, list: seq<Timescale>): (timescale: Timescale)
    ensures (exists ts <- list :: Plausible(ticks, ts)) ==> timescale in list && Plausible(ticks, timescale)
  {
    if list == [] then DEFAULT_TIMESCALE
    else if Plausible(ticks, list[0]) then list[0]
    else GuessFrom(ticks, list[1..])
  }

  /** A track's ticks in seconds, by its timescale or else by inferTrackDurationSec. */
  function Span(ticks: nat, timescale: nat): (sec: real)
    ensures sec >= 0.0 && (sec > 0.0 <==> ticks > 0)
  {
    InSeconds(ticks, if timescale > 0 then timescale else GuessFrom(ticks, GUESSES))
  }

  function TrackSpans(ticks: map<nat, nat>, timescales: map<nat, nat>): map<nat, real> {
    map t | t in ticks && Span(ticks[t], Get(timescales, t)) > 0.0 :: Span(ticks[t], Get(timescales, t))
  }

  /**
    * Which timescale is guessed: 90000 for counts of half a second to twelve seconds of it, then 16000 and 1000 for the
    * smaller counts down to half a second of theirs. The other three candidates are never taken.
    */
  lemma InferredTimescale(ticks: nat)
    ensures Span(ticks, 0) == ticks as real /
      if 8000 <= ticks < 45000 then 16000.0 else if 500 <= ticks < 8000 then 1000.0 else 90000.0
  {
    Windows(ticks);
    GuessOf(ticks, 90000, 16000, 48000, 44100, 30000, 1000);
    assert GUESSES == [90000, 16000, 48000, 44100, 30000, 1000];
  }

  lemma Windows(ticks: nat)
    ensures Plausible(ticks, 90000) <==> 45000 <= ticks <= 1080000
    ensures Plausible(ticks, 16000) <==> 8000 <= ticks <= 192000
    ensures Plausible(ticks, 48000) <==> 24000 <= ticks <= 576000
    ensures Plausible(ticks, 44100) <==> 22050 <= ticks <= 529200
    ensures Plausible(ticks, 30000) <==> 15000 <= ticks <= 360000
    ensures Plausible(ticks, 1000) <==> 500 <= ticks <= 12000
  {}

  lemma GuessOf(ticks: nat, a: Timescale, b: Timescale, c: Timescale, d: Timescale, e: Timescale, f: Timescale)
    requires Plausible(ticks, c) || Plausible(ticks, d) || Plausible(ticks, e) ==> Plausible(ticks, a) || Plausible(ticks, b)
    ensures GuessFrom(ticks, [a, b, c, d, e, f])
         == if Plausible(ticks, a) then a else if Plausible(ticks, b) then b else if Plausible(ticks, f) then f else 90000
  {
    var none: seq<Timescale> := [];
    GuessTurn(ticks, f, none);
    GuessTurn(ticks, e, [f]);
    GuessTurn(ticks, d, [e, f]);
    GuessTurn(ticks, c, [d, e, f]);
    GuessTurn(ticks, b, [c, d, e, f]);
    GuessTurn(ticks, a, [b, c, d, e, f]);
  }

  lemma GuessTurn(ticks: nat, first: Timescale, rest: seq<Timescale>)
    ensures GuessFrom(ticks, [first] + rest) == if Plausible(ticks, first) then first else GuessFrom(ticks, rest)
  {
    assert ([first] + rest)[1..] == rest;
  }

  method InferTrackDuration(ticks: nat) returns (sec: real)
    ensures sec == Span(ticks, 0)
  {
    if ticks == 0 {
      return 0.0;
    }
    for i := 0 to |GUESSES|
      invariant GuessFrom(ticks, GUESSES[i..]) == GuessFrom(ticks, GUESSES)
    {
      if Plausible(ticks, GUESSES[i]) {
        return InSeconds(ticks, GUESSES[i]);
      }
    }
    sec := InSeconds(ticks, DEFAULT_TIMESCALE);
  }

  method FragmentTrackSpans(ticks: map<nat, nat>, timescales: map<nat, nat>) returns (spans: map<nat, real>)
    ensures spans == TrackSpans(ticks, timescales)
  {
    spans := map[];
    var left := ticks.Keys;
    while left != {}
      invariant left <= ticks.Keys
      invariant forall t :: t in spans <==> t in TrackSpans(ticks, timescales) && t !in left
      invariant forall t <- spans :: spans[t] == TrackSpans(ticks, timescales)[t]
      decreases |left|
    {
      var t :| t in left;
      left := left - {t};
      var ts := Get(timescales, t);
      var sec;
      if ts > 0 {
        sec := InSeconds(ticks[t], ts);
      } else {
        sec := InferTrackDuration(ticks[t]);
      }
      if sec > 0.0 {
        spans := spans[t := sec];
      }
    }
  }

  /** Bounds every span from above and is one of them, or 0 when there is none. */
  ghost predicate IsLongest(spans: map<nat, real>, longest: real) {
    && (forall t <- spans :: spans[t] <= longest)
    && longest >= 0.0 && (longest > 0.0 ==> exists t :: t in spans && spans[t] == longest)
  }

  /** Bounds every positive span from below and is one of them, or 0 when there is none. */
  ghost predicate IsShortest(spans: map<nat, real>, shortest: real) {
    && (forall t <- spans :: spans[t] > 0.0 ==> 0.0 < shortest <= spans[t])
    && if shortest > 0.0 then exists t :: t in spans && spans[t] == shortest else shortest == 0.0
  }

  method LongestSpan(spans: map<nat, real>) returns (longest: real)
    ensures IsLongest(spans, longest)
  {
    longest := 0.0;
    var left := spans.Keys;
    while left != {}
      invariant left <= spans.Keys && longest >= 0.0
      invariant forall t <- spans :: t !in left ==> spans[t] <= longest
      invariant longest > 0.0 ==> exists t :: t in spans && spans[t] == longest
      decreases |left|
    {
      var t :| t in left;
      left := left - {t};
      if spans[t] > longest {
        longest := spans[t];
      }
    }
  }

  method ShortestSpan(spans: map<nat, real>) returns (shortest: real)
    ensures IsShortest(spans, shortest)
  {
    shortest := 0.0;
    var left := spans.Keys;
    while left != {}
      invariant left <= spans.Keys && shortest >= 0.0
      invariant forall t <- spans :: t !in left && spans[t] > 0.0 ==> 0.0 < shortest <= spans[t]
      invariant shortest > 0.0 ==> exists t :: t in spans && spans[t] == shortest
      decreases |left|
    {
      var t :| t in left;
      left := left - {t};
      if spans[t] <= 0.0 {
        continue;
      }
      if shortest <= 0.0 || spans[t] < shortest {
        shortest := spans[t];
      }
    }
  }

  // ---- The loops of the source. ----

  lemma SumSamplesTurn(d: seq<byte>, cursor: nat, end: nat, stride: nat, count: nat, total: nat)
    requires count > 0
    ensures SumSamples(d, cursor, end, stride, count, total)
         == if cursor + 4 > end || cursor + 4 > |d| then None
            else SumSamples(d, cursor + stride, end, stride, count - 1, (total + U32(d, cursor)) % TWO_64)
  {}

  method TrunDurationTicks(d: seq<byte>, off: nat, size: nat, default: Option<nat>) returns (ticks: Option<nat>)
    ensures ticks == TrunTicks(d, off, size, default)
  {
    if off + 16 > |d| || size < 16 {
      return None;
    }
    var flags, count := Flags(d, off), U32(d, off + 12);
    if count == 0 {
      return None;
    }
    var cursor: nat := off + 16;
    if Bit(flags, 0x1) {
      cursor := cursor + 4;
    }
    if Bit(flags, 0x4) {
      cursor := cursor + 4;
    }
    if !Bit(flags, 0x100) {
      if default == None || default.value == 0 {
        return None;
      }
      return Some(default.value * count % TWO_64);
    }
    var total: nat := 0;
    ghost var first := cursor;
    ghost var stride := Stride(flags);
    for i := 0 to count
      invariant SumSamples(d, cursor, off + size, stride, count - i, total)
             == SumSamples(d, first, off + size, stride, count, 0)
    {
      ghost var here := cursor;
      SumSamplesTurn(d, cursor, off + size, stride, count - i, total);
      if cursor + 4 > off + size || cursor + 4 > |d| {
        return None;
      }
      total := (total + U32(d, cursor)) % TWO_64;
      cursor := cursor + 4;
      if Bit(flags, 0x200) {
        cursor := cursor + 4;
      }
      if Bit(flags, 0x400) {
        cursor := cursor + 4;
      }
      if Bit(flags, 0x800) {
        cursor := cursor + 4;
      }
      assert cursor == here + stride;
    }
    return if total > 0 then Some(total) else None;
  }

  method TrafDurationTicks(d: seq<byte>, trafOff: nat, end: nat) returns (ticks: nat)
    ensures ticks == TrafTicks(d, trafOff + 8, end)
  {
    var default: Option<nat> := None;
    var off: nat := trafOff + 8;
    while off + 8 <= end && off + 8 <= |d| && U32(d, off) >= 8
      invariant DefaultDuration(d, off, end, default) == DefaultDuration(d, trafOff + 8, end, None)
      decreases |d| - off
    {
      if U32(d, off + 4) == TFHD {
        var here := TfhdDefault(d, off, U32(d, off));
        if here.Some? {
          default := here;
        }
      }
      off := off + U32(d, off);
    }
    ticks := 0;
    off := trafOff + 8;
    while off + 8 <= end && off + 8 <= |d| && U32(d, off) >= 8
      invariant SumTruns(d, off, end, default, ticks) == SumTruns(d, trafOff + 8, end, default, 0)
      decreases |d| - off
    {
      if U32(d, off + 4) == TRUN {
        var here := TrunDurationTicks(d, off, U32(d, off), default);
        if here.Some? {
          ticks := (ticks + here.value) % TWO_64;
        }
      }
      off := off + U32(d, off);
    }
  }

  /** The walk that fills the counts; a failed track lookup or a bad size ends it. */
  method WalkTracks(d: seq<byte>, from: nat, end: nat, level: Level, ticks: map<nat, nat>)
    returns (counts: map<nat, nat>, ok: bool)
    ensures (counts, ok) == TrackTicks(d, from, end, level, ticks)
    decreases 2 - Depth(level)
  {
    counts, ok := ticks, true;
    var off: nat := from;
    while off + 8 <= end && off + 8 <= |d|
      invariant ok && TrackTicks(d, off, end, level, counts) == TrackTicks(d, from, end, level, ticks)
      decreases |d| - off
    {
      var size := U32(d, off);
      if size < 8 {
        return counts, false;
      }
      var visit := Callback(d, off, level);
      if visit.Fail? {
        return counts, false;
      }
      if visit.Into? {
        if visit.level.InTraf? {
          var more := TrafDurationTicks(d, off, off + size);
          counts := AddTicks(counts, visit.level.track, more);
        } else {
          counts, ok := WalkTracks(d, off + 8, off + size, visit.level, counts);
          if !ok {
            return;
          }
        }
      }
      off := off + size;
    }
  }

  /** fragmentTrackDurationSecs on a whole fragment; an error of the walk keeps what was counted before it. */
  method FragmentSpans(d: seq<byte>, timescales: map<nat, nat>) returns (spans: map<nat, real>)
    ensures spans == TrackSpans(FragmentTicks(d), timescales)
  {
    var counts, _ := WalkTracks(d, 0, |d|, TopLevel, map[]);
    spans := FragmentTrackSpans(counts, timescales);
  }

  /** FragmentDurationSecWithTimescales. */
  method FragmentDuration(d: seq<byte>, timescales: map<nat, nat>) returns (sec: real)
    ensures IsLongest(TrackSpans(FragmentTicks(d), timescales), sec)
  {
    var spans := FragmentSpans(d, timescales);
    sec := LongestSpan(spans);
  }

  /** FragmentDurationMinSecWithTimescales. */
  method FragmentMinDuration(d: seq<byte>, timescales: map<nat, nat>) returns (sec: real)
    ensures IsShortest(TrackSpans(FragmentTicks(d), timescales), sec)
  {
    var spans := FragmentSpans(d, timescales);
    sec := ShortestSpan(spans);
  }
}
