/** The media playlist as text lines: parsing the muxer's list and emitting the served one. */
module PlaylistText {
  import opened Wrappers
  import Publisher

  // ---- characters

  predicate Space(c: char) {
    c == ' ' || c == '\t' || c == '\n' || c == '\r' || c == 11 as char || c == 12 as char
  }

  function Trim(s: string): (r: string)
    ensures r == "" || Tight(r)
  {
    if s == "" then ""
    else if Space(s[0]) then Trim(s[1..])
    else if Space(s[|s| - 1]) then Trim(s[..|s| - 1])
    else s
  }

  predicate Tight(s: string) {
    s != "" && !Space(s[0]) && !Space(s[|s| - 1])
  }

  /** How numbers are written and read; `known` are those the machine represents. */
  datatype Numbers =
    Numbers(known: real -> bool, parse: string -> Option<real>, render: real -> string, printInt: nat -> string)

  /**
    * Reading yields represented numbers, printing one and reading it back is the identity, and a printed number has
    * no blanks at its ends and no comma.
    */
  ghost predicate Faithful(n: Numbers) {
    && (forall s: string :: n.parse(s).Some? ==> n.known(n.parse(s).value))
    && (forall x: real :: n.known(x) && x >= 0.0 ==>
          n.parse(n.render(x)) == Some(x) && Tight(n.render(x)) && ',' !in n.render(x))
    && (forall k: nat :: n.parse(n.printInt(k)) == Some(k as real) && Tight(n.printInt(k)))
  }

  // ---- tokens

  /** What one line means to the parser. */
  datatype Token = Skip | Target(text: string) | Map(line: string) | End | Inf(text: string) | Tag(line: string) | Uri(line: string)

  const M3U := "#EXTM3U"
  const TARGET := "#EXT-X-TARGETDURATION:"
  const MAP := "#EXT-X-MAP:"
  const END := "#EXT-X-ENDLIST"
  const INF := "#EXTINF:"
  const VERSION := "#EXT-X-VERSION:"

  function Classify(line: string): Token {
    if line == "" || M3U <= line then Skip
    else if TARGET <= line then Target(line[|TARGET|..])
    else if MAP <= line then Map(line)
    else if line == END then End
    else if INF <= line then Inf(line[|INF|..])
    else if line[0] == '#' then Tag(line)
    else Uri(line)
  }

  function Lex(raw: string): Token {
    Classify(Trim(raw))
  }

  function LexAll(lines: seq<string>): (r: seq<Token>)
    ensures |r| == |lines|
  {
    seq(|lines|, i requires 0 <= i < |lines| => Lex(lines[i]))
  }

  // ---- parsing

  datatype Entry = Entry(dur: real, uri: string)

  datatype Parsed = Parsed(
    initURI: string,
    header: seq<string>,
    segments: seq<Entry>,
    endList: bool,
    target: real,
    pending: real,
    hasInf: bool)

  const BLANK := Parsed("", [], [], false, 0.0, 0.0, false)

  function BeforeComma(s: string): string {
    if s == "" || s[0] == ',' then "" else [s[0]] + BeforeComma(s[1..])
  }

  function BeforeQuote(s: string): string {
    if s == "" || s[0] == '"' then "" else [s[0]] + BeforeQuote(s[1..])
  }

  /** The quoted URI attribute of a tag line, or nothing. */
  function QuotedURI(line: string): string {
    if line == "" then ""
    else if "URI=\"" <= line then BeforeQuote(line[5..])
    else QuotedURI(line[1..])
  }

  predicate InHeader(p: Parsed) {
    !p.hasInf && p.segments == []
  }

  /** One token; none when the playlist is not acceptable. */
  function Feed(n: Numbers, p: Parsed, t: Token): Option<Parsed> {
    match t
    case Skip => Some(p)
    case Target(text) =>
      var dur := n.parse(Trim(text));
      if dur == None || dur.value <= 0.0 then None else Some(p.(target := dur.value))
    case Map(line) =>
      Some(p.(initURI := QuotedURI(line), header := if InHeader(p) then p.header + [line] else p.header))
    case End => Some(p.(endList := true))
    case Inf(text) =>
      var dur := n.parse(Trim(BeforeComma(text)));
      if dur == None || dur.value < 0.0 then None else Some(p.(pending := dur.value, hasInf := true))
    case Tag(line) => Some(if InHeader(p) then p.(header := p.header + [line]) else p)
    case Uri(line) =>
      if !p.hasInf then None
      else Some(p.(segments := p.segments + [Entry(p.pending, line)], pending := 0.0, hasInf := false))
  }

  function Parse(n: Numbers, p: Parsed, tokens: seq<Token>): Option<Parsed> {
    if tokens == [] then Some(p)
    else
      match Parse(n, p, tokens[..|tokens| - 1])
      case None => None
      case Some(q) => Feed(n, q, tokens[|tokens| - 1])
  }

  function ParseText(n: Numbers, lines: seq<string>): Option<Parsed> {
    Parse(n, BLANK, LexAll(lines))
  }

  method ParsePlaylist(n: Numbers, lines: seq<string>) returns (out: Option<Parsed>)
    ensures out == ParseText(n, lines)
  {
    var p := BLANK;
    ghost var tokens := LexAll(lines);
    for i := 0 to |lines|
      invariant Parse(n, BLANK, tokens[..i]) == Some(p)
    {
      assert tokens[..i + 1][..i] == tokens[..i];
      var next := Feed(n, p, Lex(lines[i]));
      if next == None {
        ParseStops(n, BLANK, tokens, i + 1);
        return None;
      }
      p := next.value;
    }
    assert tokens[..|lines|] == tokens;
    return Some(p);
  }

  lemma {:induction false} ParseStops(n: Numbers, p: Parsed, tokens: seq<Token>, i: nat)
    requires i <= |tokens| && Parse(n, p, tokens[..i]) == None
    ensures Parse(n, p, tokens) == None
    decreases |tokens|
  {
    if i < |tokens| {
      var m := |tokens| - 1;
      assert tokens[..m][..i] == tokens[..i];
      ParseStops(n, p, tokens[..m], i);
    } else {
      assert tokens[..i] == tokens;
    }
  }

  // ---- segment names

  predicate IsDigit(c: char) {
    '0' <= c <= '9'
  }

  function DigitOf(c: char): nat
    requires IsDigit(c)
  {
    c as nat - '0' as nat
  }

  function Digit(d: nat): (c: char)
    requires d < 10
    ensures IsDigit(c) && DigitOf(c) == d
  {
    ('0' as nat + d) as char
  }

  function Pad5(i: nat): (s: string)
    requires i < 100000
    ensures |s| == 5 && forall c <- s :: IsDigit(c)
  {
    [Digit(i / 10000), Digit(i / 1000 % 10), Digit(i / 100 % 10), Digit(i / 10 % 10), Digit(i % 10)]
  }

  function NoTrailingSlash(s: string): string {
    if s != "" && s[|s| - 1] == '/' then NoTrailingSlash(s[..|s| - 1]) else s
  }

  function AfterSlash(s: string): string {
    if s == "" || s[|s| - 1] == '/' then "" else AfterSlash(s[..|s| - 1]) + [s[|s| - 1]]
  }

  /** The last element of a slash-separated path. */
  function Base(path: string): string {
    AfterSlash(NoTrailingSlash(path))
  }

  /** The index a URI names: five digits and the media suffix. */
  function IndexOf(uri: string): (r: Option<nat>)
    ensures r.Some? ==> r.value < 100000
  {
    var name := Base(Trim(uri));
    if |name| == 9 && (forall i :: 0 <= i < 5 ==> IsDigit(name[i])) && name[5..] == ".m4s" then
      Some(10000 * DigitOf(name[0]) + 1000 * DigitOf(name[1]) + 100 * DigitOf(name[2])
           + 10 * DigitOf(name[3]) + DigitOf(name[4]))
    else None
  }

  function SegmentURI(index: nat): string
    requires index < 100000
  {
    "seg/" + Pad5(index) + ".m4s"
  }

  lemma {:induction false} AfterSlashJoins(dir: string, name: string)
    requires '/' !in name
    ensures AfterSlash(dir + "/" + name) == name
  {
    if name == "" {
      assert dir + "/" + name == dir + "/";
    } else {
      var n := |name| - 1;
      assert (dir + "/" + name)[..|dir| + 1 + n] == dir + "/" + name[..n];
      AfterSlashJoins(dir, name[..n]);
    }
  }

  lemma DigitsRestore(i: nat)
    requires i < 100000
    ensures 10000 * (i / 10000) + 1000 * (i / 1000 % 10) + 100 * (i / 100 % 10) + 10 * (i / 10 % 10) + i % 10 == i
  {
    assert i / 10 / 10 == i / 100 && i / 100 / 10 == i / 1000 && i / 1000 / 10 == i / 10000;
  }

  /** A printed segment name reads back as its index. */
  lemma IndexOfSegmentURI(index: nat)
    requires index < 100000
    ensures IndexOf(SegmentURI(index)) == Some(index)
    ensures Tight(SegmentURI(index))
  {
    var digits := Pad5(index);
    var name := digits + ".m4s";
    assert SegmentURI(index) == "seg" + "/" + name;
    assert '/' !in name by {
      assert forall c <- digits :: c != '/';
      assert '/' !in ".m4s";
    }
    AfterSlashJoins("seg", name);
    assert name[..5] == digits && name[5..] == ".m4s";
    assert forall i :: 0 <= i < 5 ==> name[i] == digits[i];
    DigitsRestore(index);
  }

  // ---- emitting

  function Indexed(segments: seq<Entry>): (r: seq<Publisher.Segment>)
    ensures |r| == |segments|
  {
    seq(|segments|, i requires 0 <= i < |segments| => Publisher.Segment(IndexOf(segments[i].uri), segments[i].dur))
  }

  function Longest(target: real, segments: seq<Entry>): (m: real)
    ensures m >= target && forall s <- segments :: s.dur <= m
  {
    if segments == [] then target
    else
      var m := Longest(target, segments[..|segments| - 1]);
      var s := segments[|segments| - 1];
      assert segments == segments[..|segments| - 1] + [s];
      if s.dur > m then s.dur else m
  }

  /** The announced target: the longest listed segment, no less than a second, rounded up. */
  function TargetSeconds(longest: real): (t: nat)
    ensures t as real >= longest && t >= 1
  {
    var m := if longest < 1.0 then 1.0 else longest;
    -((-m).Floor)
  }

  function TargetLine(n: Numbers, t: nat): string {
    TARGET + n.printInt(t)
  }

  predicate IsTarget(line: string) {
    TARGET <= Trim(line)
  }

  predicate IsVersion(line: string) {
    VERSION <= Trim(line)
  }

  /** The source header with its own target dropped and the new one after the first version tag, or at the end. */
  function Header(header: seq<string>, line: string, done: bool): seq<string> {
    if header == [] then (if done then [] else [line])
    else if IsTarget(header[0]) then Header(header[1..], line, done)
    else if !done && IsVersion(header[0]) then [header[0], line] + Header(header[1..], line, true)
    else [header[0]] + Header(header[1..], line, done)
  }

  function InfLine(n: Numbers, dur: real): string {
    INF + n.render(dur) + ","
  }

  predicate Emittable(entries: seq<Publisher.Segment>) {
    forall e <- entries :: e.index.Some? && e.index.value < 100000 && e.dur >= 0.0
  }

  ghost predicate Printable(n: Numbers, entries: seq<Publisher.Segment>) {
    forall e <- entries :: n.known(e.dur)
  }

  function EntryLines(n: Numbers, entries: seq<Publisher.Segment>): seq<string>
    requires Emittable(entries)
  {
    if entries == [] then []
    else
      EntryLines(n, entries[..|entries| - 1])
      + [InfLine(n, entries[|entries| - 1].dur), SegmentURI(entries[|entries| - 1].index.value)]
  }

  function Emit(n: Numbers, header: seq<string>, target: nat, entries: seq<Publisher.Segment>, complete: bool): seq<string>
    requires Emittable(entries)
  {
    [M3U] + Header(header, TargetLine(n, target), false) + EntryLines(n, entries) + (if complete then [END] else [])
  }

  method HeaderLines(header: seq<string>, line: string) returns (lines: seq<string>)
    ensures lines == Header(header, line, false)
  {
    lines := [];
    var emitted := false;
    for i := 0 to |header|
      invariant lines + Header(header[i..], line, emitted) == Header(header, line, false)
    {
      assert header[i..][1..] == header[i + 1..];
      if IsTarget(header[i]) {
        continue;
      }
      lines := lines + [header[i]];
      if !emitted && IsVersion(header[i]) {
        lines := lines + [line];
        emitted := true;
      }
    }
    if !emitted {
      lines := lines + [line];
    }
  }

  method EmitPlaylist(n: Numbers, header: seq<string>, target: nat, entries: seq<Publisher.Segment>, complete: bool)
    returns (lines: seq<string>)
    requires Emittable(entries)
    ensures lines == Emit(n, header, target, entries, complete)
  {
    var top := HeaderLines(header, TargetLine(n, target));
    lines := [M3U] + top;
    for i := 0 to |entries|
      invariant lines == [M3U] + top + EntryLines(n, entries[..i])
    {
      assert entries[..i + 1][..i] == entries[..i];
      lines := lines + [InfLine(n, entries[i].dur)];
      lines := lines + [SegmentURI(entries[i].index.value)];
    }
    assert entries[..|entries|] == entries;
    if complete {
      lines := lines + [END];
    }
  }

  // ---- round trip: text to tokens

  lemma TrimTight(s: string)
    requires Tight(s)
    ensures Trim(s) == s
  {}

  lemma LexTarget(n: Numbers, t: nat)
    requires Faithful(n)
    ensures Lex(TargetLine(n, t)) == Target(n.printInt(t))
  {
    var line := TargetLine(n, t);
    assert line[0] == '#' && line[4] == '-' && line[|line| - 1] == n.printInt(t)[|n.printInt(t)| - 1];
    TrimTight(line);
    assert line[|TARGET|..] == n.printInt(t);
  }

  lemma LexInf(n: Numbers, dur: real)
    requires Faithful(n) && n.known(dur) && dur >= 0.0
    ensures Lex(InfLine(n, dur)) == Inf(n.render(dur) + ",")
  {
    var line := InfLine(n, dur);
    assert line[0] == '#' && line[4] == 'I' && line[|line| - 1] == ',';
    TrimTight(line);
    assert line[|INF|..] == n.render(dur) + ",";
  }

  lemma LexSegment(index: nat)
    requires index < 100000
    ensures Lex(SegmentURI(index)) == Uri(SegmentURI(index))
  {
    IndexOfSegmentURI(index);
    TrimTight(SegmentURI(index));
    assert SegmentURI(index)[0] == 's';
  }

  lemma LexEnds()
    ensures Lex(M3U) == Skip && Lex(END) == End
  {
    TrimTight(M3U);
    TrimTight(END);
    assert END[4] == '-' && END[7] == 'E' && TARGET[7] == 'T' && MAP[7] == 'M';
  }

  /** A line the parser keeps in the header reads back as itself. */
  predicate HeaderLine(h: string) {
    Lex(h) == Map(h) || Lex(h) == Tag(h)
  }

  predicate Keeps(t: Token) {
    t.Map? || t.Tag?
  }

  lemma LexKeepsLine(raw: string)
    requires Keeps(Lex(raw))
    ensures HeaderLine(Lex(raw).line)
  {
    var line := Trim(raw);
    if line != "" {
      TrimTight(line);
    }
  }

  // ---- round trip: tokens to playlist

  lemma {:induction false} ParseJoins(n: Numbers, p: Parsed, a: seq<Token>, b: seq<Token>, q: Parsed)
    requires Parse(n, p, a) == Some(q)
    ensures Parse(n, p, a + b) == Parse(n, q, b)
    decreases |b|
  {
    if b == [] {
      assert a + b == a;
    } else {
      var m := |b| - 1;
      ParseJoins(n, p, a, b[..m], q);
      assert (a + b)[..|a| + m] == a + b[..m];
    }
  }

  lemma ParseOne(n: Numbers, p: Parsed, t: Token)
    ensures Parse(n, p, [t]) == Feed(n, p, t)
  {
    assert [t][..0] == [];
    assert Parse(n, p, []) == Some(p);
  }

  lemma LexJoins(a: seq<string>, b: seq<string>)
    ensures LexAll(a + b) == LexAll(a) + LexAll(b)
  {}

  /** The init URI after some tokens: that of the last map tag. */
  function LastInit(tokens: seq<Token>, initURI: string): string {
    if tokens == [] then initURI
    else if tokens[|tokens| - 1].Map? then QuotedURI(tokens[|tokens| - 1].line)
    else LastInit(tokens[..|tokens| - 1], initURI)
  }

  /** The init URI the header announces. */
  function HeaderInit(header: seq<string>): string {
    LastInit(LexAll(header), "")
  }

  ghost predicate HeaderOk(header: seq<string>) {
    forall h <- header :: HeaderLine(h)
  }

  ghost predicate KnownLengths(n: Numbers, segments: seq<Entry>) {
    forall s <- segments :: s.dur >= 0.0 && n.known(s.dur)
  }

  /** A parsed header holds only lines that read back as themselves, and every length is one the machine represents. */
  lemma {:induction false} ParsedHeaderOk(n: Numbers, lines: seq<string>, k: nat)
    requires Faithful(n) && k <= |lines| && Parse(n, BLANK, LexAll(lines)[..k]).Some?
    ensures var p := Parse(n, BLANK, LexAll(lines)[..k]).value;
      && HeaderOk(p.header)
      && KnownLengths(n, p.segments)
      && (p.hasInf ==> p.pending >= 0.0 && n.known(p.pending))
    decreases k
  {
    if k > 0 {
      var tokens := LexAll(lines);
      assert tokens[..k][..k - 1] == tokens[..k - 1];
      ParsedHeaderOk(n, lines, k - 1);
      HeaderStaysOk(n, lines[k - 1], Parse(n, BLANK, tokens[..k - 1]).value);
    }
  }

  lemma HeaderStaysOk(n: Numbers, line: string, p: Parsed)
    requires Faithful(n) && Feed(n, p, Lex(line)).Some?
    requires HeaderOk(p.header) && KnownLengths(n, p.segments) && (p.hasInf ==> p.pending >= 0.0 && n.known(p.pending))
    ensures var q := Feed(n, p, Lex(line)).value;
      HeaderOk(q.header) && KnownLengths(n, q.segments) && (q.hasInf ==> q.pending >= 0.0 && n.known(q.pending))
  {
    if Keeps(Lex(line)) {
      LexKeepsLine(line);
    }
  }

  /** No map tag follows an entry's length; a later one would not reach the served header. */
  ghost predicate MapsInHeader(tokens: seq<Token>) {
    forall i, j :: 0 <= i < j < |tokens| && tokens[i].Inf? ==> !tokens[j].Map?
  }

  ghost predicate HasInf(tokens: seq<Token>) {
    exists i :: 0 <= i < |tokens| && tokens[i].Inf?
  }

  lemma HasInfGrows(tokens: seq<Token>, k: nat)
    requires 0 < k <= |tokens| && HasInf(tokens[..k - 1])
    ensures HasInf(tokens[..k])
  {
    var i :| 0 <= i < k - 1 && tokens[..k - 1][i].Inf?;
    assert tokens[..k][i].Inf?;
  }

  lemma HeaderInitAppend(header: seq<string>, line: string)
    ensures HeaderInit(header + [line]) == if Lex(line).Map? then QuotedURI(Lex(line).line) else HeaderInit(header)
  {
    LexJoins(header, [line]);
    assert LexAll([line]) == [Lex(line)];
  }

  lemma {:induction false} InitURIFromHeader(n: Numbers, lines: seq<string>, k: nat)
    requires k <= |lines| && Parse(n, BLANK, LexAll(lines)[..k]).Some? && MapsInHeader(LexAll(lines))
    ensures var p := Parse(n, BLANK, LexAll(lines)[..k]).value;
      p.initURI == HeaderInit(p.header) && (!InHeader(p) ==> HasInf(LexAll(lines)[..k]))
    decreases k
  {
    if k > 0 {
      var tokens := LexAll(lines);
      var t := tokens[k - 1];
      assert tokens[..k][..k - 1] == tokens[..k - 1];
      InitURIFromHeader(n, lines, k - 1);
      var q := Parse(n, BLANK, tokens[..k - 1]).value;
      InitURIStep(n, q, t, lines[k - 1], tokens, k);
    }
  }

  lemma InitURIStep(n: Numbers, q: Parsed, t: Token, raw: string, tokens: seq<Token>, k: nat)
    requires 0 < k <= |tokens| && tokens[k - 1] == t == Lex(raw) && MapsInHeader(tokens)
    requires q.initURI == HeaderInit(q.header) && (!InHeader(q) ==> HasInf(tokens[..k - 1]))
    requires Feed(n, q, t).Some?
    ensures var p := Feed(n, q, t).value;
      p.initURI == HeaderInit(p.header) && (!InHeader(p) ==> HasInf(tokens[..k]))
  {
    if HasInf(tokens[..k - 1]) {
      HasInfGrows(tokens, k);
      var i :| 0 <= i < k - 1 && tokens[..k - 1][i].Inf?;
      assert tokens[i].Inf?;
    }
    if t.Inf? {
      assert tokens[..k][k - 1].Inf?;
    }
    if Keeps(t) {
      LexKeepsLine(raw);
      HeaderInitAppend(q.header, t.line);
    }
  }

  /** Feeding header lines to a parser that is still in the header. */
  lemma {:induction false} ParseHeader(n: Numbers, p: Parsed, header: seq<string>)
    requires HeaderOk(header) && InHeader(p)
    ensures Parse(n, p, LexAll(header))
         == Some(p.(header := p.header + header, initURI := LastInit(LexAll(header), p.initURI)))
  {
    if header == [] {
      assert LexAll(header) == [] && p.header + header == p.header;
    } else {
      var m := |header| - 1;
      ParseHeader(n, p, header[..m]);
      assert LexAll(header)[..m] == LexAll(header[..m]);
      assert HeaderLine(header[m]);
      assert p.header + header == p.header + header[..m] + [header[m]];
    }
  }

  lemma HeaderNotTarget(h: string)
    requires HeaderLine(h)
    ensures !IsTarget(h)
  {}

  lemma {:induction false} HeaderDone(header: seq<string>, line: string)
    requires HeaderOk(header)
    ensures Header(header, line, true) == header
  {
    if header != [] {
      HeaderNotTarget(header[0]);
      HeaderDone(header[1..], line);
    }
  }

  /** How many header lines precede the inserted target. */
  function TargetAt(header: seq<string>): (k: nat)
    ensures k <= |header|
  {
    if header == [] then 0
    else if IsVersion(header[0]) then 1
    else 1 + TargetAt(header[1..])
  }

  lemma {:induction false} HeaderSplits(header: seq<string>, line: string)
    requires HeaderOk(header)
    ensures var k := TargetAt(header); Header(header, line, false) == header[..k] + [line] + header[k..]
  {
    if header != [] {
      HeaderNotTarget(header[0]);
      if IsVersion(header[0]) {
        HeaderDone(header[1..], line);
      } else {
        HeaderSplits(header[1..], line);
        var k := TargetAt(header[1..]);
        assert header[..k + 1] == [header[0]] + header[1..][..k] && header[k + 1..] == header[1..][k..];
      }
    }
  }

  lemma {:induction false} LastInitJoins(a: seq<Token>, b: seq<Token>, initURI: string)
    ensures LastInit(a + b, initURI) == LastInit(b, LastInit(a, initURI))
    decreases |b|
  {
    if b == [] {
      assert a + b == a;
    } else {
      var m := |b| - 1;
      assert (a + b)[..|a| + m] == a + b[..m];
      LastInitJoins(a, b[..m], initURI);
    }
  }

  lemma FeedTarget(n: Numbers, p: Parsed, t: nat)
    requires Faithful(n) && t >= 1
    ensures Feed(n, p, Target(n.printInt(t))) == Some(p.(target := t as real))
  {
    TrimTight(n.printInt(t));
  }

  /** Two stretches of text, one after the other. */
  lemma ParseThen(n: Numbers, p: Parsed, a: seq<string>, b: seq<string>, q: Parsed, r: Parsed)
    requires Parse(n, p, LexAll(a)) == Some(q) && Parse(n, q, LexAll(b)) == Some(r)
    ensures Parse(n, p, LexAll(a + b)) == Some(r)
  {
    LexJoins(a, b);
    ParseJoins(n, p, LexAll(a), LexAll(b), q);
  }

  lemma ParseTargetLine(n: Numbers, p: Parsed, t: nat)
    requires Faithful(n) && t >= 1
    ensures Parse(n, p, LexAll([TargetLine(n, t)])) == Some(p.(target := t as real))
  {
    LexTarget(n, t);
    FeedTarget(n, p, t);
    ParseOne(n, p, Target(n.printInt(t)));
    assert LexAll([TargetLine(n, t)]) == [Target(n.printInt(t))];
  }

  lemma ParseFirstLine(n: Numbers)
    ensures Parse(n, BLANK, LexAll([M3U])) == Some(BLANK)
  {
    LexEnds();
    ParseOne(n, BLANK, Skip);
    assert LexAll([M3U]) == [Skip];
  }

  lemma ParseFour(n: Numbers, a: seq<string>, b: seq<string>, c: seq<string>, d: seq<string>,
                  p0: Parsed, p1: Parsed, p2: Parsed, p3: Parsed)
    requires Parse(n, p0, LexAll(a)) == Some(p0) && Parse(n, p0, LexAll(b)) == Some(p1)
    requires Parse(n, p1, LexAll(c)) == Some(p2) && Parse(n, p2, LexAll(d)) == Some(p3)
    ensures Parse(n, p0, LexAll(a + b + c + d)) == Some(p3)
  {
    ParseThen(n, p0, a, b, p0, p1);
    ParseThen(n, p0, a + b, c, p1, p2);
    ParseThen(n, p0, a + b + c, d, p2, p3);
  }

  lemma TopLines(first: seq<string>, header: seq<string>, line: string)
    requires HeaderOk(header)
    ensures first + Header(header, line, false)
         == first + header[..TargetAt(header)] + [line] + header[TargetAt(header)..]
  {
    HeaderSplits(header, line);
  }

  function AfterHeader(p: Parsed, header: seq<string>): Parsed {
    p.(header := p.header + header, initURI := LastInit(LexAll(header), p.initURI))
  }

  lemma AfterBoth(p: Parsed, header: seq<string>, k: nat, target: real)
    requires k <= |header|
    ensures AfterHeader(AfterHeader(p, header[..k]).(target := target), header[k..]) == AfterHeader(p, header).(target := target)
  {
    assert header == header[..k] + header[k..];
    assert p.header + header[..k] + header[k..] == p.header + header;
    LexJoins(header[..k], header[k..]);
    LastInitJoins(LexAll(header[..k]), LexAll(header[k..]), p.initURI);
  }

  lemma ParseTop(n: Numbers, header: seq<string>, t: nat)
    requires Faithful(n) && HeaderOk(header) && t >= 1
    ensures Parse(n, BLANK, LexAll([M3U] + Header(header, TargetLine(n, t), false)))
         == Some(BLANK.(header := header, initURI := HeaderInit(header), target := t as real))
  {
    var k := TargetAt(header);
    var a, b := header[..k], header[k..];
    TopLines([M3U], header, TargetLine(n, t));
    AfterBoth(BLANK, header, k, t as real);
    assert BLANK.header + header == header;
    var p1 := AfterHeader(BLANK, a);
    var p2 := p1.(target := t as real);
    ParseFirstLine(n);
    ParseHeader(n, BLANK, a);
    ParseTargetLine(n, p1, t);
    ParseHeader(n, p2, b);
    ParseFour(n, [M3U], a, [TargetLine(n, t)], b, BLANK, p1, p2, AfterHeader(p2, b));
  }

  function Entries(entries: seq<Publisher.Segment>): (r: seq<Entry>)
    requires Emittable(entries)
    ensures |r| == |entries|
  {
    seq(|entries|, i requires 0 <= i < |entries| => Entry(entries[i].dur, SegmentURI(entries[i].index.value)))
  }

  lemma {:induction false} BeforeCommaOf(s: string)
    requires ',' !in s
    ensures BeforeComma(s + ",") == s
  {
    if s != "" {
      assert (s + ",")[1..] == s[1..] + ",";
      BeforeCommaOf(s[1..]);
    }
  }

  lemma FeedEntry(n: Numbers, p: Parsed, dur: real, index: nat)
    requires Faithful(n) && n.known(dur) && dur >= 0.0 && index < 100000 && !p.hasInf && p.pending == 0.0
    ensures Parse(n, p, LexAll([InfLine(n, dur), SegmentURI(index)]))
         == Some(p.(segments := p.segments + [Entry(dur, SegmentURI(index))]))
  {
    LexInf(n, dur);
    LexSegment(index);
    BeforeCommaOf(n.render(dur));
    TrimTight(n.render(dur));
    var t1, t2 := Inf(n.render(dur) + ","), Uri(SegmentURI(index));
    assert LexAll([InfLine(n, dur), SegmentURI(index)]) == [t1] + [t2];
    ParseOne(n, p, t1);
    var p1 := p.(pending := dur, hasInf := true);
    ParseOne(n, p1, t2);
    ParseJoins(n, p, [t1], [t2], p1);
  }

  lemma EntriesLast(entries: seq<Publisher.Segment>, m: nat)
    requires Emittable(entries) && m + 1 == |entries|
    ensures Entries(entries) == Entries(entries[..m]) + [Entry(entries[m].dur, SegmentURI(entries[m].index.value))]
  {}

  lemma {:induction false} ParseEntries(n: Numbers, p: Parsed, entries: seq<Publisher.Segment>)
    requires Faithful(n) && Emittable(entries) && Printable(n, entries)
    requires !p.hasInf && p.pending == 0.0 && p.segments == []
    ensures Parse(n, p, LexAll(EntryLines(n, entries))) == Some(p.(segments := Entries(entries)))
  {
    if entries == [] {
      assert LexAll(EntryLines(n, entries)) == [] && Entries(entries) == [];
    } else {
      var m := |entries| - 1;
      var dur, index := entries[m].dur, entries[m].index.value;
      ParseEntries(n, p, entries[..m]);
      EntriesLast(entries, m);
      AddEntry(n, p, EntryLines(n, entries[..m]), Entries(entries[..m]), dur, index);
    }
  }

  lemma AddEntry(n: Numbers, p: Parsed, lines: seq<string>, entries: seq<Entry>, dur: real, index: nat)
    requires Faithful(n) && n.known(dur) && dur >= 0.0 && index < 100000 && !p.hasInf && p.pending == 0.0
    requires Parse(n, p, LexAll(lines)) == Some(p.(segments := entries))
    ensures Parse(n, p, LexAll(lines + [InfLine(n, dur), SegmentURI(index)]))
         == Some(p.(segments := entries + [Entry(dur, SegmentURI(index))]))
  {
    var q := p.(segments := entries);
    FeedEntry(n, q, dur, index);
    ParseThen(n, p, lines, [InfLine(n, dur), SegmentURI(index)], q, q.(segments := entries + [Entry(dur, SegmentURI(index))]));
  }

  /** Parsing an emitted playlist returns its header, its target and its entries, and its end tag when it has one. */
  lemma EmitParses(n: Numbers, header: seq<string>, t: nat, entries: seq<Publisher.Segment>, complete: bool)
    requires Faithful(n) && HeaderOk(header) && t >= 1 && Emittable(entries) && Printable(n, entries)
    ensures ParseText(n, Emit(n, header, t, entries, complete))
         == Some(Parsed(HeaderInit(header), header, Entries(entries), complete, t as real, 0.0, false))
  {
    var top := [M3U] + Header(header, TargetLine(n, t), false);
    var body := EntryLines(n, entries);
    var tail := if complete then [END] else [];
    var p1 := BLANK.(header := header, initURI := HeaderInit(header), target := t as real);
    var p2 := p1.(segments := Entries(entries));
    ParseTop(n, header, t);
    ParseEntries(n, p1, entries);
    ParseThen(n, BLANK, top, body, p1, p2);
    ParseTail(n, p2, complete);
    ParseThen(n, BLANK, top + body, tail, p2, p2.(endList := complete));
  }

  lemma ParseTail(n: Numbers, p: Parsed, complete: bool)
    requires !p.endList
    ensures Parse(n, p, LexAll(if complete then [END] else [])) == Some(p.(endList := complete))
  {
    LexEnds();
    if complete {
      assert LexAll([END]) == [End];
      ParseOne(n, p, End);
    }
  }

  lemma EntriesIndexed(entries: seq<Publisher.Segment>)
    requires Emittable(entries)
    ensures Indexed(Entries(entries)) == entries
  {
    forall i | 0 <= i < |entries|
      ensures Indexed(Entries(entries))[i] == entries[i]
    {
      IndexOfSegmentURI(entries[i].index.value);
    }
  }

  lemma PublishedPrefixEmittable(n: Numbers, segments: seq<Entry>, published: set<nat>)
    requires KnownLengths(n, segments)
    ensures var entries := Publisher.Prefix(Indexed(segments), published); Emittable(entries) && Printable(n, entries)
  {
    Publisher.PrefixNamesSegments(Indexed(segments), published);
    forall e <- Publisher.Prefix(Indexed(segments), published)
      ensures e.index.Some? && e.index.value < 100000 && e.dur >= 0.0 && n.known(e.dur)
    {
      var i :| 0 <= i < |segments| && Indexed(segments)[i] == e;
      assert segments[i] in segments;
    }
  }

  /**
    * Playlist round trip: when the muxer's list `lines` parses, the served playlist parses too, to the source header
    * lines and the init URI of that header, and to the indices and lengths of the published prefix; the end tag is
    * there exactly when the generation is complete; and no entry is longer than the announced target (section 4.3.3.1
    * of RFC 8216).
    */
  lemma ServedPlaylistRoundTrips(n: Numbers, lines: seq<string>, published: set<nat>)
    requires Faithful(n) && ParseText(n, lines).Some?
    ensures var p := ParseText(n, lines).value;
      var segs := Indexed(p.segments);
      var entries := Publisher.Prefix(segs, published);
      var complete := Publisher.StatusOf(Publisher.Playlist(segs, p.endList), published).complete;
      var target := TargetSeconds(Longest(p.target, p.segments));
      && Emittable(entries)
      && var served := ParseText(n, Emit(n, p.header, target, entries, complete));
         && served.Some?
         && served.value.header == p.header
         && served.value.initURI == HeaderInit(p.header)
         && (MapsInHeader(LexAll(lines)) ==> served.value.initURI == p.initURI)
         && Indexed(served.value.segments) == entries
         && served.value.endList == complete
         && served.value.target == target as real
         && forall s <- served.value.segments :: s.dur <= served.value.target
  {
    var p := ParseText(n, lines).value;
    assert LexAll(lines)[..|lines|] == LexAll(lines);
    ParsedHeaderOk(n, lines, |lines|);
    if MapsInHeader(LexAll(lines)) {
      InitURIFromHeader(n, lines, |lines|);
    }
    PublishedPrefixEmittable(n, p.segments, published);
    var segs := Indexed(p.segments);
    var entries := Publisher.Prefix(segs, published);
    var complete := Publisher.StatusOf(Publisher.Playlist(segs, p.endList), published).complete;
    var target := TargetSeconds(Longest(p.target, p.segments));
    EmitParses(n, p.header, target, entries, complete);
    EntriesIndexed(entries);
    PrefixBounded(p.segments, published, Longest(p.target, p.segments));
  }

  lemma PrefixBounded(segments: seq<Entry>, published: set<nat>, longest: real)
    requires forall s <- segments :: s.dur <= longest
    requires Emittable(Publisher.Prefix(Indexed(segments), published))
    ensures forall s <- Entries(Publisher.Prefix(Indexed(segments), published)) :: s.dur <= longest
  {
    var entries := Publisher.Prefix(Indexed(segments), published);
    Publisher.PrefixNamesSegments(Indexed(segments), published);
    forall s <- Entries(entries)
      ensures s.dur <= longest
    {
      var i :| 0 <= i < |entries| && Entries(entries)[i] == s;
      assert entries[i] in Indexed(segments);
      var j :| 0 <= j < |segments| && Indexed(segments)[j] == entries[i];
      assert segments[j] in segments;
    }
  }

  // ---- blanks, names and targets, said of the text

  predicate Blank(s: string) {
    forall c <- s :: c == ' ' || c == '\t' || c == '\n' || c == '\r' || c == 11 as char || c == 12 as char
  }

  lemma {:induction false} TrimBlank(s: string)
    requires Blank(s)
    ensures Trim(s) == ""
    decreases |s|
  {
    if s != "" {
      assert s[0] in s && forall c <- s[1..] :: c in s;
      TrimBlank(s[1..]);
    }
  }

  /** Trimming takes the blanks off both ends and nothing else. */
  lemma {:induction false} TrimIs(before: string, mid: string, after: string)
    requires Blank(before) && Blank(after) && Tight(mid)
    ensures Trim(before + mid + after) == mid
    decreases |before|, |after|
  {
    var s := before + mid + after;
    if before != "" {
      assert s[0] == before[0] && before[0] in before && forall c <- before[1..] :: c in before;
      assert s[1..] == before[1..] + mid + after;
      TrimIs(before[1..], mid, after);
    } else if after != "" {
      var n := |after| - 1;
      assert s[0] == mid[0] && s[|s| - 1] == after[n] && after[n] in after && forall c <- after[..n] :: c in after;
      assert s[..|s| - 1] == before + mid + after[..n];
      TrimIs(before, mid, after[..n]);
    } else {
      assert s == mid;
    }
  }

  predicate Slashes(s: string) {
    forall c <- s :: c == '/'
  }

  /** The last element of a path is what stands after its last slash, but for slashes at its very end. */
  lemma {:induction false} BaseIs(dir: string, name: string, slashes: string)
    requires name != "" && '/' !in name && Slashes(slashes)
    ensures Base(dir + "/" + name + slashes) == name
    decreases |slashes|
  {
    var s := dir + "/" + name + slashes;
    if slashes == "" {
      assert s == dir + "/" + name && s[|s| - 1] == name[|name| - 1] && name[|name| - 1] in name;
      AfterSlashJoins(dir, name);
    } else {
      var n := |slashes| - 1;
      assert slashes[n] in slashes && forall c <- slashes[..n] :: c in slashes;
      assert s[|s| - 1] == slashes[n] && s[..|s| - 1] == dir + "/" + name + slashes[..n];
      BaseIs(dir, name, slashes[..n]);
    }
  }

  /** A URI names an index exactly when its last element is that index in five digits and the media suffix. */
  lemma IndexOfIff(uri: string, index: nat)
    requires index < 100000
    ensures IndexOf(uri) == Some(index) <==> Base(Trim(uri)) == Pad5(index) + ".m4s"
  {
    var name := Base(Trim(uri));
    DigitsRestore(index);
    if IndexOf(uri) == Some(index) {
      FiveDigits(DigitOf(name[0]), DigitOf(name[1]), DigitOf(name[2]), DigitOf(name[3]), DigitOf(name[4]));
      assert name == name[..5] + name[5..];
      assert name[..5] == Pad5(index);
    }
    if name == Pad5(index) + ".m4s" {
      assert name[5..] == ".m4s" && forall i :: 0 <= i < 5 ==> name[i] == Pad5(index)[i] && Pad5(index)[i] in Pad5(index);
    }
  }

  lemma FiveDigits(a: nat, b: nat, c: nat, d: nat, e: nat)
    requires a < 10 && b < 10 && c < 10 && d < 10 && e < 10
    ensures var i := 10000 * a + 1000 * b + 100 * c + 10 * d + e;
      i / 10000 == a && i / 1000 % 10 == b && i / 100 % 10 == c && i / 10 % 10 == d && i % 10 == e
  {
    Leading(a, b, c, d, e);
    LastDigit(a, b);
    LastDigit(10 * a + b, c);
    LastDigit(100 * a + 10 * b + c, d);
    LastDigit(1000 * a + 100 * b + 10 * c + d, e);
  }

  lemma Leading(a: nat, b: nat, c: nat, d: nat, e: nat)
    requires a < 10 && b < 10 && c < 10 && d < 10 && e < 10
    ensures var i := 10000 * a + 1000 * b + 100 * c + 10 * d + e;
      && i / 10000 == a && i / 1000 == 10 * a + b && i / 100 == 100 * a + 10 * b + c
      && i / 10 == 1000 * a + 100 * b + 10 * c + d
  {}

  lemma LastDigit(head: nat, digit: nat)
    requires digit < 10
    ensures (10 * head + digit) % 10 == digit
  {}

  /** The announced target is the least whole number of seconds that covers the longest length and is at least one. */
  lemma TargetIsLeast(longest: real, seconds: int)
    ensures var t := TargetSeconds(longest);
      && t as real >= longest && t as real >= 1.0
      && (seconds as real >= longest && seconds as real >= 1.0 ==> t <= seconds)
  {
    assert TargetSeconds(longest) as real - 1.0 < if longest < 1.0 then 1.0 else longest;
  }

  /** The served header has no target line but the new one; its other lines are lines of the muxer's header. */
  lemma {:induction false} HeaderDropsTargets(header: seq<string>, line: string, done: bool)
    ensures forall h <- Header(header, line, done) :: h == line || (h in header && !IsTarget(h))
    ensures forall h <- header :: !IsTarget(h) ==> h in Header(header, line, done)
    decreases |header|
  {
    if header != [] {
      HeaderDropsTargets(header[1..], line, done);
      HeaderDropsTargets(header[1..], line, true);
      assert header == [header[0]] + header[1..];
    }
  }

  // ---- what a parsed playlist holds

  /** The tag lines before the first length of a list. */
  function TagsBeforeInf(tokens: seq<Token>): seq<string> {
    if tokens == [] || tokens[0].Inf? then []
    else (if tokens[0].Map? || tokens[0].Tag? then [tokens[0].line] else []) + TagsBeforeInf(tokens[1..])
  }

  /** The lines that name a segment. */
  function Uris(tokens: seq<Token>): seq<string> {
    if tokens == [] then []
    else Uris(tokens[..|tokens| - 1]) + if tokens[|tokens| - 1].Uri? then [tokens[|tokens| - 1].line] else []
  }

  lemma {:induction false} TagsGrow(tokens: seq<Token>, t: Token)
    ensures TagsBeforeInf(tokens + [t])
         == TagsBeforeInf(tokens) + if (t.Map? || t.Tag?) && !AnyInf(tokens) then [t.line] else []
    decreases |tokens|
  {
    if tokens == [] {
      assert [t][1..] == [];
    } else {
      assert (tokens + [t])[1..] == tokens[1..] + [t];
      TagsGrow(tokens[1..], t);
      assert AnyInf(tokens) <==> tokens[0].Inf? || AnyInf(tokens[1..]);
    }
  }

  predicate AnyInf(tokens: seq<Token>) {
    exists t <- tokens :: t.Inf?
  }

  lemma AnyInfNext(tokens: seq<Token>, t: Token)
    ensures AnyInf(tokens + [t]) <==> AnyInf(tokens) || t.Inf?
  {
    if AnyInf(tokens) {
      var u :| u in tokens && u.Inf?;
      assert u in tokens + [t];
    }
    assert t in tokens + [t];
  }

  ghost predicate HoldsTokens(p: Parsed, tags: seq<string>, uris: seq<string>, inf: bool) {
    && p.header == tags
    && |p.segments| == |uris| && (forall i :: 0 <= i < |uris| ==> p.segments[i].uri == uris[i])
    && (InHeader(p) <==> !inf)
  }

  lemma FeedHolds(n: Numbers, p: Parsed, t: Token, tags: seq<string>, uris: seq<string>, inf: bool)
    requires HoldsTokens(p, tags, uris, inf) && Feed(n, p, t).Some?
    ensures HoldsTokens(Feed(n, p, t).value, tags + (if (t.Map? || t.Tag?) && !inf then [t.line] else []),
                        uris + (if t.Uri? then [t.line] else []), inf || t.Inf?)
  {}

  /**
    * What an accepted playlist holds: as its header the tag lines before the first length and no later ones, and one
    * segment for each line that names one, in their order.
    */
  lemma {:induction false} ParsedIs(n: Numbers, tokens: seq<Token>)
    requires Parse(n, BLANK, tokens).Some?
    ensures HoldsTokens(Parse(n, BLANK, tokens).value, TagsBeforeInf(tokens), Uris(tokens), AnyInf(tokens))
    decreases |tokens|
  {
    if tokens != [] {
      var m := |tokens| - 1;
      var before, t := tokens[..m], tokens[m];
      ParsedIs(n, before);
      FeedHolds(n, Parse(n, BLANK, before).value, t, TagsBeforeInf(before), Uris(before), AnyInf(before));
      assert tokens == before + [t];
      TagsGrow(before, t);
      AnyInfNext(before, t);
    }
  }

  /** What makes the parser reject a line: a target that is not positive, a negative length, a segment without a length. */
  lemma RejectsIff(n: Numbers, p: Parsed, t: Token)
    ensures Feed(n, p, t) == None <==>
      match t
      case Target(text) => !exists x :: n.parse(Trim(text)) == Some(x) && x > 0.0
      case Inf(text) => !exists x :: n.parse(Trim(BeforeComma(text))) == Some(x) && x >= 0.0
      case Uri(_) => !p.hasInf
      case _ => false
  {}
}
