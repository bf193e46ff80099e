/** Consumers of a byte stream that arrives in arbitrary chunks. A char stands for one byte. */
module Monitors {
  const VT_THRESHOLD: nat := 8
  const SOFTWARE_THRESHOLD: nat := 3
  const TAIL_MAX: int := 65536

  function Flatten(chunks: seq<string>): string {
    if chunks == [] then "" else Flatten(chunks[..|chunks| - 1]) + chunks[|chunks| - 1]
  }

  predicate Contains(s: string, word: string) {
    exists i {:trigger s[i..]} :: 0 <= i <= |s| && word <= s[i..]
  }

  predicate Around(s: string, before: string, word: string, after: string) {
    s == before + word + after
  }

  lemma ContainsIff(s: string, word: string)
    ensures Contains(s, word) <==> exists before, after :: Around(s, before, word, after)
  {
    if Contains(s, word) {
      var i :| 0 <= i <= |s| && word <= s[i..];
      assert s == s[..i] + s[i..] && s[i..] == word + s[i..][|word|..];
      assert Around(s, s[..i], word, s[i..][|word|..]);
    }
    forall before, after | Around(s, before, word, after)
      ensures Contains(s, word)
    {
      assert s[|before|..] == word + after;
    }
  }

  // ---- decode failures, counted by line

  /** A line that reports a hardware decoder failure. */
  predicate HardwareLine(line: string) {
    Contains(line, "vt decoder cb") || Contains(line, "hardware accelerator failed to decode picture")
  }

  /** A line that reports software decoder corruption; `lowered` is the line in lower case. */
  predicate SoftwareLine(lowered: string) {
    || Contains(lowered, "invalid nal unit size")
    || Contains(lowered, "error submitting packet to decoder")
    || Contains(lowered, "invalid data found when processing input")
  }

  /** Which lines count; the machinery below is the same whatever they are. */
  datatype Noise = Noise(hardware: string -> bool, software: string -> bool)

  /** The classification in use, where `lower` maps a line to lower case. */
  function DecodeNoise(lower: string -> string): Noise {
    Noise(HardwareLine, line => SoftwareLine(lower(line)))
  }

  /** Which lines count, word by word. */
  lemma CountedLines(lower: string -> string, line: string)
    ensures DecodeNoise(lower).hardware(line) <==>
      exists a, b :: Around(line, a, "vt decoder cb", b) || Around(line, a, "hardware accelerator failed to decode picture", b)
    ensures DecodeNoise(lower).software(line) <==>
      exists a, b ::
        || Around(lower(line), a, "invalid nal unit size", b)
        || Around(lower(line), a, "error submitting packet to decoder", b)
        || Around(lower(line), a, "invalid data found when processing input", b)
  {
    ContainsIff(line, "vt decoder cb");
    ContainsIff(line, "hardware accelerator failed to decode picture");
    ContainsIff(lower(line), "invalid nal unit size");
    ContainsIff(lower(line), "error submitting packet to decoder");
    ContainsIff(lower(line), "invalid data found when processing input");
  }

  datatype Tally = Tally(failures: nat, unreliable: bool, softwareFailures: nat, softwareUnreliable: bool, pending: string)

  const CLEAN := Tally(0, false, 0, false, "")

  /** The place of the first newline; the length of the data when there is none. */
  function NewlineAt(data: string): (i: nat)
    ensures i <= |data|
    ensures i < |data| ==> data[i] == '\n'
    ensures '\n' !in data[..i]
  {
    if data == "" || data[0] == '\n' then 0
    else
      var i := 1 + NewlineAt(data[1..]);
      assert data[..i] == [data[0]] + data[1..][..i - 1];
      i
  }

  /** The newline-terminated lines of a stream, and what follows the last newline. */
  function Lines(s: string): seq<string>
    decreases |s|
  {
    var i := NewlineAt(s);
    if i == |s| then [] else [s[..i]] + Lines(s[i + 1..])
  }

  function Rest(s: string): string
    decreases |s|
  {
    var i := NewlineAt(s);
    if i == |s| then s else Rest(s[i + 1..])
  }

  function CountIf(lines: seq<string>, p: string -> bool): nat {
    if lines == [] then 0 else (if p(lines[0]) then 1 else 0) + CountIf(lines[1..], p)
  }

  /** Counting `more` lines on top of `count`, with a flag that is set by a count at or over the threshold. */
  function Flag(raised: bool, count: nat, more: nat, threshold: nat): bool {
    raised || (more > 0 && count + more >= threshold)
  }

  function Absorb(noise: Noise, t: Tally, lines: seq<string>): Tally {
    var hw, sw := CountIf(lines, noise.hardware), CountIf(lines, noise.software);
    Tally(t.failures + hw, Flag(t.unreliable, t.failures, hw, VT_THRESHOLD),
          t.softwareFailures + sw, Flag(t.softwareUnreliable, t.softwareFailures, sw, SOFTWARE_THRESHOLD),
          t.pending)
  }

  /** One write: the lines it completes are counted, the rest stays pending. */
  function Feed(noise: Noise, t: Tally, p: string): Tally {
    var data := t.pending + p;
    Absorb(noise, t, Lines(data)).(pending := Rest(data))
  }

  function FeedAll(noise: Noise, t: Tally, chunks: seq<string>): Tally {
    if chunks == [] then t else Feed(noise, FeedAll(noise, t, chunks[..|chunks| - 1]), chunks[|chunks| - 1])
  }

  /** The line counter. */
  class DecodeMonitor {
    const noise: Noise
    var failures: nat
    var unreliable: bool
    var softwareFailures: nat
    var softwareUnreliable: bool
    var pending: string

    constructor (lower: string -> string)
      ensures noise == DecodeNoise(lower) && State() == CLEAN
    {
      noise := DecodeNoise(lower);
      failures, unreliable, softwareFailures, softwareUnreliable, pending := 0, false, 0, false, "";
    }

    function State(): Tally
      reads this
    {
      Tally(failures, unreliable, softwareFailures, softwareUnreliable, pending)
    }

    method CountDecodeLines(p: string)
      modifies this
      ensures State() == Feed(noise, old(State()), p)
    {
      var data := pending + p;
      pending := "";
      ghost var whole, start := data, State();
      while |data| > 0
        invariant pending == ""
        invariant Absorb(noise, State(), Lines(data)) == Absorb(noise, start, Lines(whole))
        invariant Rest(data) == Rest(whole)
      {
        var i := NewlineAt(data);
        if i == |data| {
          pending := data;
          return;
        }
        LineTurn(noise, State(), data, i, data[..i], data[i + 1..]);
        var line := data[..i];
        data := data[i + 1..];
        CountLine(line);
      }
    }

    method CountLine(line: string)
      modifies this
      ensures State() == Absorb(noise, old(State()), [line])
    {
      CountOne(line, noise.hardware);
      CountOne(line, noise.software);
      if noise.hardware(line) {
        failures := failures + 1;
        if failures >= VT_THRESHOLD {
          unreliable := true;
        }
      }
      if noise.software(line) {
        softwareFailures := softwareFailures + 1;
        if softwareFailures >= SOFTWARE_THRESHOLD {
          softwareUnreliable := true;
        }
      }
    }
  }

  lemma {:induction false} CountIfJoins(x: seq<string>, y: seq<string>, p: string -> bool)
    ensures CountIf(x + y, p) == CountIf(x, p) + CountIf(y, p)
  {
    if x == [] {
      assert x + y == y;
    } else {
      assert (x + y)[1..] == x[1..] + y;
      CountIfJoins(x[1..], y, p);
    }
  }

  lemma AbsorbJoins(noise: Noise, t: Tally, x: seq<string>, y: seq<string>)
    ensures Absorb(noise, Absorb(noise, t, x), y) == Absorb(noise, t, x + y)
  {
    CountIfJoins(x, y, noise.hardware);
    CountIfJoins(x, y, noise.software);
  }

  lemma CountOne(line: string, p: string -> bool)
    ensures CountIf([line], p) == if p(line) then 1 else 0
  {
    assert [line][1..] == [];
  }

  lemma LinesFirst(data: string, i: nat, line: string, tail: string)
    requires i == NewlineAt(data) && i < |data| && line == data[..i] && tail == data[i + 1..]
    ensures Lines(data) == [line] + Lines(tail)
  {}

  lemma RestFirst(data: string, i: nat, tail: string)
    requires i == NewlineAt(data) && i < |data| && tail == data[i + 1..]
    ensures Rest(data) == Rest(tail)
  {}

  /** The effect of the first line on what remains to be counted. */
  lemma LineTurn(noise: Noise, t: Tally, data: string, i: nat, line: string, tail: string)
    requires i == NewlineAt(data) && i < |data| && line == data[..i] && tail == data[i + 1..]
    ensures Absorb(noise, Absorb(noise, t, [line]), Lines(tail)) == Absorb(noise, t, Lines(data))
    ensures Rest(tail) == Rest(data)
  {
    LinesFirst(data, i, line, tail);
    RestFirst(data, i, tail);
    AbsorbJoins(noise, t, [line], Lines(tail));
  }

  lemma {:induction false} NewlineInFront(a: string, b: string)
    requires NewlineAt(a) < |a|
    ensures NewlineAt(a + b) == NewlineAt(a)
  {
    if a[0] != '\n' {
      assert (a + b)[1..] == a[1..] + b;
      NewlineInFront(a[1..], b);
    }
  }

  /** Reading `a` and then `b` after what `a` left over is reading both at once. */
  lemma {:induction false} LinesJoin(a: string, b: string)
    ensures Lines(a + b) == Lines(a) + Lines(Rest(a) + b)
    ensures Rest(a + b) == Rest(Rest(a) + b)
    decreases |a|
  {
    var i := NewlineAt(a);
    if i < |a| {
      FirstOfJoined(a, b, i, a[..i], a[i + 1..]);
      LinesFirst(a, i, a[..i], a[i + 1..]);
      RestFirst(a, i, a[i + 1..]);
      LinesJoin(a[i + 1..], b);
      Regroup(a[..i], Lines(a[i + 1..]), Lines(Rest(a) + b));
    } else {
      NoLine(a);
    }
  }

  lemma FirstOfJoined(a: string, b: string, i: nat, line: string, tail: string)
    requires i == NewlineAt(a) && i < |a| && line == a[..i] && tail == a[i + 1..]
    ensures Lines(a + b) == [line] + Lines(tail + b) && Rest(a + b) == Rest(tail + b)
  {
    NewlineInFront(a, b);
    assert (a + b)[..i] == line && (a + b)[i + 1..] == tail + b;
    LinesFirst(a + b, i, line, tail + b);
    RestFirst(a + b, i, tail + b);
  }

  lemma Regroup(line: string, x: seq<string>, y: seq<string>)
    ensures [line] + (x + y) == ([line] + x) + y
  {}

  lemma NoLine(a: string)
    requires NewlineAt(a) == |a|
    ensures Lines(a) == [] && Rest(a) == a
  {}

  /** Two writes do what their concatenation does. */
  lemma TwoWritesAreOne(noise: Noise, t: Tally, p: string, q: string)
    ensures Feed(noise, Feed(noise, t, p), q) == Feed(noise, t, p + q)
  {
    var data := t.pending + p;
    LinesJoin(data, q);
    assert data + q == t.pending + (p + q);
    AbsorbJoins(noise, t, Lines(data), Lines(Rest(data) + q));
  }

  /** Chunk independence: however a stream is split into writes, the monitor ends as after one whole write. */
  lemma {:induction false} ChunkIndependence(noise: Noise, chunks: seq<string>)
    ensures FeedAll(noise, CLEAN, chunks) == Feed(noise, CLEAN, Flatten(chunks))
  {
    if chunks != [] {
      var n := |chunks| - 1;
      ChunkIndependence(noise, chunks[..n]);
      TwoWritesAreOne(noise, CLEAN, Flatten(chunks[..n]), chunks[n]);
    } else {
      assert CLEAN.pending + "" == "";
    }
  }

  /** The lines and the rest are a faithful split of the stream. */
  function Unlines(lines: seq<string>, rest: string): string {
    if lines == [] then rest else lines[0] + "\n" + Unlines(lines[1..], rest)
  }

  lemma UnlinesFirst(line: string, lines: seq<string>, rest: string)
    ensures Unlines([line] + lines, rest) == line + "\n" + Unlines(lines, rest)
  {
    assert ([line] + lines)[1..] == lines;
  }

  lemma {:induction false} LinesSplit(s: string)
    ensures Unlines(Lines(s), Rest(s)) == s
    ensures '\n' !in Rest(s) && forall line <- Lines(s) :: '\n' !in line
    decreases |s|
  {
    var i := NewlineAt(s);
    if i == |s| {
      assert s[..i] == s;
    } else {
      LinesSplit(s[i + 1..]);
      UnlinesFirst(s[..i], Lines(s[i + 1..]), Rest(s[i + 1..]));
      assert s == s[..i] + "\n" + s[i + 1..];
    }
  }

  /** Whatever the chunks: counts over whole lines, sticky flags at the thresholds, and the unfinished line pending. */
  lemma MonitorCountsLines(noise: Noise, chunks: seq<string>)
    ensures var stream := Flatten(chunks);
      var r := FeedAll(noise, CLEAN, chunks);
      && r.failures == CountIf(Lines(stream), noise.hardware)
      && r.softwareFailures == CountIf(Lines(stream), noise.software)
      && r.unreliable == (r.failures >= 8)
      && r.softwareUnreliable == (r.softwareFailures >= 3)
      && r.pending == Rest(stream)
  {
    ChunkIndependence(noise, chunks);
    assert CLEAN.pending + Flatten(chunks) == Flatten(chunks);
  }

  // ---- the bounded tail

  function Last(max: nat, s: string): string {
    if |s| > max then s[|s| - max..] else s
  }

  class StderrTail {
    const max: nat
    var buf: string

    constructor (max: int)
      ensures this.max == if max <= 0 then 65536 else max
      ensures buf == ""
    {
      this.max := if max <= 0 then TAIL_MAX else max;
      buf := "";
    }

    method Write(p: string)
      modifies this
      ensures buf == Last(max, old(buf) + p)
    {
      buf := buf + p;
      if |buf| > max {
        buf := buf[|buf| - max..];
      }
    }
  }

  function Tailed(max: nat, chunks: seq<string>): string {
    if chunks == [] then "" else Last(max, Tailed(max, chunks[..|chunks| - 1]) + chunks[|chunks| - 1])
  }

  /** Cutting early loses nothing that cutting at the end would keep. */
  lemma LastJoins(max: nat, a: string, b: string)
    ensures Last(max, Last(max, a) + b) == Last(max, a + b)
  {
    var cut := Last(max, a);
    assert a == a[..|a| - |cut|] + cut;
    assert a + b == a[..|a| - |cut|] + (cut + b);
  }

  lemma {:induction false} TailIsLast(max: nat, chunks: seq<string>)
    ensures Tailed(max, chunks) == Last(max, Flatten(chunks))
  {
    if chunks != [] {
      var n := |chunks| - 1;
      TailIsLast(max, chunks[..n]);
      LastJoins(max, Flatten(chunks[..n]), chunks[n]);
    }
  }

  /** After any writes the buffer holds exactly the last `max` bytes of the stream, or all of a shorter one. */
  lemma TailIsSuffix(max: nat, chunks: seq<string>)
    ensures var stream, buf := Flatten(chunks), Tailed(max, chunks);
      && |buf| == (if |stream| < max then |stream| else max)
      && buf == stream[|stream| - |buf|..]
  {
    TailIsLast(max, chunks);
  }
}
