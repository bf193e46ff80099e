/** The lines of a playlist written out, to tie the tags of the model to the format they stand for. */
module PlaylistLiteral {
  import opened Wrappers
  import opened PlaylistText
  import opened Decimals
  import Publisher

  /** What each tag means to the parser (RFC 8216, sections 4.3.1 to 4.3.3), whatever text follows it. */
  lemma TagsMean(text: string)
    ensures Classify("#EXTM3U" + text) == Skip
    ensures Classify("#EXT-X-TARGETDURATION:" + text) == Target(text)
    ensures Classify("#EXT-X-MAP:" + text) == Map("#EXT-X-MAP:" + text)
    ensures Classify("#EXT-X-ENDLIST") == End
    ensures Classify("#EXTINF:" + text) == Inf(text)
    ensures Classify("#EXT-X-VERSION:" + text) == Tag("#EXT-X-VERSION:" + text)
    ensures Classify("seg/" + text) == Uri("seg/" + text)
  {
    TargetMeans(text);
    MapMeans(text);
    InfMeans(text);
    VersionMeans(text);
    EndMeans();
    assert ("seg/" + text)[0] == 's';
  }

  /** The other lines: an empty one is passed over, one that begins with # is a tag, any other one names a segment. */
  lemma OtherLinesMean(line: string)
    ensures line == "" ==> Classify(line) == Skip
    ensures line != "" && line[0] != '#' ==> Classify(line) == Uri(line)
    ensures (line != "" && line[0] == '#' && line != "#EXT-X-ENDLIST"
             && !("#EXTM3U" <= line) && !("#EXT-X-TARGETDURATION:" <= line) && !("#EXT-X-MAP:" <= line) && !("#EXTINF:" <= line))
            ==> Classify(line) == Tag(line)
  {
    assert M3U[0] == '#' && TARGET[0] == '#' && MAP[0] == '#' && INF[0] == '#' && END[0] == '#';
  }

  lemma TargetMeans(text: string)
    ensures Classify("#EXT-X-TARGETDURATION:" + text) == Target(text)
  {
    var line := "#EXT-X-TARGETDURATION:" + text;
    assert line[4] == '-' && line[22..] == text;
  }

  lemma MapMeans(text: string)
    ensures Classify("#EXT-X-MAP:" + text) == Map("#EXT-X-MAP:" + text)
  {
    var line := "#EXT-X-MAP:" + text;
    assert line[4] == '-' && line[7] == 'M';
  }

  lemma InfMeans(text: string)
    ensures Classify("#EXTINF:" + text) == Inf(text)
  {
    var line := "#EXTINF:" + text;
    assert line[4] == 'I' && line[8..] == text;
  }

  lemma VersionMeans(text: string)
    ensures Classify("#EXT-X-VERSION:" + text) == Tag("#EXT-X-VERSION:" + text)
  {
    var line := "#EXT-X-VERSION:" + text;
    assert line[4] == '-' && line[7] == 'V';
  }

  lemma EndMeans()
    ensures Classify("#EXT-X-ENDLIST") == End
  {
    var line := "#EXT-X-ENDLIST";
    assert line[4] == '-' && line[7] == 'E';
  }

  /** The URI of a tag is the text between the quotes after its first URI=". */
  lemma {:induction false} QuotedURIIs(before: string, name: string, after: string)
    requires 'U' !in before && '"' !in name
    ensures QuotedURI(before + "URI=\"" + name + "\"" + after) == name
    decreases |before|
  {
    var line := before + "URI=\"" + name + "\"" + after;
    if before == "" {
      assert line[5..] == name + ("\"" + after);
      BeforeQuoteIs(name, after);
    } else {
      assert line[0] == before[0] && before[0] in before;
      assert line[1..] == before[1..] + "URI=\"" + name + "\"" + after;
      QuotedURIIs(before[1..], name, after);
    }
  }

  lemma {:induction false} BeforeQuoteIs(name: string, after: string)
    requires '"' !in name
    ensures BeforeQuote(name + ("\"" + after)) == name
    decreases |name|
  {
    var s := name + ("\"" + after);
    if name != "" {
      assert s[0] == name[0] && name[0] in name;
      assert s[1..] == name[1..] + ("\"" + after);
      BeforeQuoteIs(name[1..], after);
    }
  }

  // ---- one served playlist

  const MAP_LINE := "#EXT-X-MAP:URI=\"init.mp4\""
  const HEADER: seq<string> := ["#EXT-X-VERSION:7", MAP_LINE]
  const ENTRIES: seq<Publisher.Segment> := [Publisher.Segment(Some(0), 4.0), Publisher.Segment(Some(1), 2.5)]
  const LINES: seq<string> :=
    ["#EXTM3U", "#EXT-X-VERSION:7", "#EXT-X-TARGETDURATION:4", MAP_LINE,
     "#EXTINF:4.000,", "seg/00000.m4s", "#EXTINF:2.500,", "seg/00001.m4s", "#EXT-X-ENDLIST"]

  lemma NumbersPrinted()
    ensures Print(4) == "4" && Render(4.0) == "4.000" && Render(2.5) == "2.500"
  {
    assert Milliseconds(4.0) == 4000 && Milliseconds(2.5) == 2500;
    assert Print(2) == "2" && Pad3(0) == "000" && Pad3(500) == "500";
  }

  lemma HeaderPrinted(line: string)
    requires TARGET <= line
    ensures Header(HEADER, line, false) == ["#EXT-X-VERSION:7", line, MAP_LINE]
  {
    var v, m := "#EXT-X-VERSION:7", MAP_LINE;
    assert Trim(v) == v && Trim(m) == m;
    assert v[7] == 'V' && m[7] == 'M';
    assert HEADER[1..] == [m] && [m][1..] == [];
    assert Header([m], line, true) == [m] + Header([], line, true);
  }

  lemma InfPrinted()
    ensures InfLine(MILLISECONDS, 4.0) == "#EXTINF:4.000," && InfLine(MILLISECONDS, 2.5) == "#EXTINF:2.500,"
  {
    NumbersPrinted();
    assert "#EXTINF:" + "4.000" + "," == "#EXTINF:4.000,";
    assert "#EXTINF:" + "2.500" + "," == "#EXTINF:2.500,";
  }

  lemma URIsPrinted()
    ensures SegmentURI(0) == "seg/00000.m4s" && SegmentURI(1) == "seg/00001.m4s"
  {
    assert Pad5(0) == "00000" && Pad5(1) == "00001";
  }

  lemma EntriesPrinted()
    ensures Emittable(ENTRIES)
    ensures EntryLines(MILLISECONDS, ENTRIES) == ["#EXTINF:4.000,", "seg/00000.m4s", "#EXTINF:2.500,", "seg/00001.m4s"]
  {
    InfPrinted();
    URIsPrinted();
    var a, b := ENTRIES[0], ENTRIES[1];
    assert ENTRIES[..1] == [a] && [a][..0] == [];
    assert EntryLines(MILLISECONDS, [a]) == EntryLines(MILLISECONDS, []) + [InfLine(MILLISECONDS, 4.0), SegmentURI(0)];
    assert EntryLines(MILLISECONDS, ENTRIES)
        == EntryLines(MILLISECONDS, [a]) + [InfLine(MILLISECONDS, 2.5), SegmentURI(1)];
  }

  /** What is emitted for two published segments, line by line. */
  lemma EmittedLines()
    ensures Emittable(ENTRIES) && Emit(MILLISECONDS, HEADER, 4, ENTRIES, true) == LINES
  {
    NumbersPrinted();
    EntriesPrinted();
    assert TargetLine(MILLISECONDS, 4) == "#EXT-X-TARGETDURATION:4";
    HeaderPrinted("#EXT-X-TARGETDURATION:4");
  }

  lemma TwoLines(v: string, m: string)
    requires Lex(v) == Tag(v) && Lex(m) == Map(m)
    ensures HeaderOk([v, m]) && HeaderInit([v, m]) == QuotedURI(m)
  {
    assert LexAll([v, m]) == [Tag(v), Map(m)];
    assert forall h <- [v, m] :: h == v || h == m;
  }

  lemma VersionLexed()
    ensures Lex("#EXT-X-VERSION:7") == Tag("#EXT-X-VERSION:7")
  {
    VersionMeans("7");
    assert "#EXT-X-VERSION:" + "7" == "#EXT-X-VERSION:7";
    TrimTight("#EXT-X-VERSION:7");
  }

  lemma MapLexed()
    ensures Lex(MAP_LINE) == Map(MAP_LINE)
  {
    MapMeans("URI=\"init.mp4\"");
    assert "#EXT-X-MAP:" + "URI=\"init.mp4\"" == MAP_LINE;
    TrimTight(MAP_LINE);
  }

  lemma MapNames()
    ensures QuotedURI(MAP_LINE) == "init.mp4"
  {
    QuotedURIIs("#EXT-X-MAP:", "init.mp4", "");
    assert MAP_LINE == "#EXT-X-MAP:" + "URI=\"" + "init.mp4" + "\"" + "";
  }

  lemma HeaderReads()
    ensures HeaderOk(HEADER) && HeaderInit(HEADER) == "init.mp4"
  {
    VersionLexed();
    MapLexed();
    MapNames();
    TwoLines("#EXT-X-VERSION:7", MAP_LINE);
  }

  lemma EntriesRead()
    ensures Emittable(ENTRIES) && Printable(MILLISECONDS, ENTRIES)
    ensures Entries(ENTRIES) == [Entry(4.0, "seg/00000.m4s"), Entry(2.5, "seg/00001.m4s")]
  {
    URIsPrinted();
  }

  /** And what the parser makes of those lines. */
  lemma LinesParse()
    ensures ParseText(MILLISECONDS, LINES)
         == Some(Parsed("init.mp4", HEADER, [Entry(4.0, "seg/00000.m4s"), Entry(2.5, "seg/00001.m4s")], true, 4.0, 0.0, false))
  {
    MillisecondsAreFaithful();
    EmittedLines();
    HeaderReads();
    EntriesRead();
    EmitParses(MILLISECONDS, HEADER, 4, ENTRIES, true);
  }
}
