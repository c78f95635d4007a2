/** Printing and parsing SEARCH/REPLACE blocks are inverse, and the parser's image is exactly the
    set of printable blocks. */
module PatchRoundTrip {
  import opened Basics
  import opened PatchLanguage

  // ---------- Lines of a text ----------

  predicate OneLine(line: string) {
    forall i :: 0 <= i < |line| ==> !IsLineBreak(line[i])
  }

  predicate AllLines(lines: seq<string>) {
    forall i :: 0 <= i < |lines| ==> OneLine(lines[i])
  }

  predicate OnlyNewlineBreaks(s: string) {
    forall i :: 0 <= i < |s| && IsLineBreak(s[i]) ==> s[i] == '\n'
  }

  /** Every line followed by a newline. */
  function Unlines(lines: seq<string>): string {
    if lines == [] then "" else lines[0] + ['\n'] + Unlines(lines[1..])
  }

  /** s.split("\n") */
  function NewlineSplit(s: string): (parts: seq<string>)
    ensures |parts| > 0
  {
    if s == "" then [""]
    else
      var later := NewlineSplit(s[1..]);
      if s[0] == '\n' then [""] + later else [[s[0]] + later[0]] + later[1..]
  }

  lemma {:induction false} JoinAfterSplit(s: string)
    ensures JoinLines(NewlineSplit(s)) == s
    ensures Unlines(NewlineSplit(s)) == s + "\n"
    ensures OnlyNewlineBreaks(s) ==> AllLines(NewlineSplit(s))
  {
    if s != "" {
      JoinAfterSplit(s[1..]);
      var later := NewlineSplit(s[1..]);
      assert s == [s[0]] + s[1..];
      assert OnlyNewlineBreaks(s) ==> OnlyNewlineBreaks(s[1..]);
      if s[0] != '\n' {
        var parts := NewlineSplit(s);
        assert parts[1..] == later[1..];
        assert Unlines(parts) == [s[0]] + Unlines(later);
        assert JoinLines(parts) == [s[0]] + JoinLines(later);
      } else {
        assert NewlineSplit(s)[1..] == later;
      }
    }
  }

  lemma {:induction false} SplitOfPrefixedLine(line: string, s: string)
    requires '\n' !in line
    ensures NewlineSplit(line + "\n" + s) == [line] + NewlineSplit(s)
  {
    var text := line + "\n" + s;
    if line == "" {
      assert text[1..] == s;
    } else {
      assert text[1..] == line[1..] + "\n" + s;
      SplitOfPrefixedLine(line[1..], s);
      assert [line[0]] + line[1..] == line;
    }
  }

  lemma {:induction false} SplitOfOneLine(line: string)
    requires '\n' !in line
    ensures NewlineSplit(line) == [line]
  {
    if line != "" {
      SplitOfOneLine(line[1..]);
      assert [line[0]] + line[1..] == line;
    }
  }

  lemma {:induction false} SplitAfterJoin(lines: seq<string>)
    requires lines != [] && forall i :: 0 <= i < |lines| ==> '\n' !in lines[i]
    ensures NewlineSplit(JoinLines(lines)) == lines
  {
    if |lines| == 1 {
      SplitOfOneLine(lines[0]);
    } else {
      SplitAfterJoin(lines[1..]);
      SplitOfPrefixedLine(lines[0], JoinLines(lines[1..]));
    }
  }

  lemma {:induction false} LineLengthIs(line: string, rest: string)
    requires OneLine(line) && (rest == "" || IsLineBreak(rest[0]))
    ensures LineLength(line + rest) == |line|
  {
    if line != "" {
      assert (line + rest)[1..] == line[1..] + rest;
      LineLengthIs(line[1..], rest);
    } else {
      assert line + rest == rest;
    }
  }

  lemma SplitLinesStep(line: string, rest: string)
    requires OneLine(line)
    ensures SplitLines(line + ['\n'] + rest) == [line] + SplitLines(rest)
  {
    var text := line + ['\n'] + rest;
    assert text == line + (['\n'] + rest);
    LineLengthIs(line, ['\n'] + rest);
    assert text[|line| + 1..] == rest;
  }

  lemma {:induction false} SplitLinesOfUnlines(lines: seq<string>)
    requires AllLines(lines)
    ensures SplitLines(Unlines(lines)) == lines
  {
    if lines != [] {
      SplitLinesStep(lines[0], Unlines(lines[1..]));
      SplitLinesOfUnlines(lines[1..]);
    }
  }

  /** The newline at the very end of a text may be dropped, unless the text would then end in a break. */
  lemma {:induction false} FinalNewlineIsOptional(text: string)
    requires text != "" && !IsLineBreak(text[|text| - 1])
    ensures SplitLines(text + ['\n']) == SplitLines(text)
    decreases |text|
  {
    var n := LineLength(text);
    var longer := text + ['\n'];
    if n == |text| {
      SplitLinesStep(text, "");
      assert text + ['\n'] + "" == longer;
    } else {
      LineLengthIs(text[..n], longer[n..]);
      assert longer == text[..n] + longer[n..];
      var skip := if text[n] == '\r' && n + 1 < |text| && text[n + 1] == '\n' then 2 else 1;
      var rest := text[n + skip..];
      assert n + skip < |text| by {
        assert n + 1 < |text|;
        assert skip == 2 ==> text[n + 1] != text[|text| - 1];
      }
      assert longer[n + skip..] == rest + ['\n'];
      assert longer[n] == text[n] && longer[n + 1] == text[n + 1];
      assert longer[..n] == text[..n];
      FinalNewlineIsOptional(rest);
    }
  }

  lemma {:induction false} SplitLinesAreLines(text: string)
    ensures AllLines(SplitLines(text))
    decreases |text|
  {
    if text != "" {
      var n := LineLength(text);
      if n < |text| {
        var skip := if text[n] == '\r' && n + 1 < |text| && text[n + 1] == '\n' then 2 else 1;
        SplitLinesAreLines(text[n + skip..]);
      }
    }
  }

  lemma {:induction false} UnlinesAppend(a: seq<string>, b: seq<string>)
    ensures Unlines(a + b) == Unlines(a) + Unlines(b)
  {
    if a == [] {
      assert a + b == b;
    } else {
      UnlinesAppend(a[1..], b);
      assert (a + b)[1..] == a[1..] + b;
    }
  }

  // ---------- Printing ----------

  /** The marker lines to print: the parser accepts decorated ones too. */
  datatype Style = Style(open: string, divider: string, close: string)

  predicate ValidStyle(style: Style) {
    && IsSearchMarker(style.open) && IsDivider(style.divider) && IsReplaceMarker(style.close)
    && OneLine(style.open) && OneLine(style.divider) && OneLine(style.close)
  }

  function PrintBlock(style: Style, b: Block): string {
    style.open + ['\n'] + (b.search + ['\n'] + (style.divider + ['\n'] + (b.replacement + ['\n'] + style.close)))
  }

  /** The blocks that the format can carry. */
  predicate Printable(b: Block) {
    && b.search != ""
    && OnlyNewlineBreaks(b.search) && OnlyNewlineBreaks(b.replacement)
    && NoneIs(NewlineSplit(b.search), MARKERS.divides)
    && NoneIs(NewlineSplit(b.replacement), MARKERS.closes)
  }

  predicate Noise(lines: seq<string>) {
    NoneIs(lines, MARKERS.opens) && AllLines(lines)
  }

  /** Each block behind its noise lines, and more noise at the end. */
  function PrintResponse(style: Style, blocks: seq<Block>, noise: seq<seq<string>>, last: seq<string>): string
    requires |noise| == |blocks|
  {
    if blocks == [] then Unlines(last)
    else
      Unlines(noise[0]) + (PrintBlock(style, blocks[0]) + ['\n'] + PrintResponse(style, blocks[1..], noise[1..], last))
  }

  function SegmentOf(style: Style, b: Block, noise: seq<string>): Segment {
    Segment(noise, style.open, NewlineSplit(b.search), style.divider, NewlineSplit(b.replacement), style.close)
  }

  lemma SegmentOfIsWellFormed(style: Style, b: Block, noise: seq<string>)
    requires ValidStyle(style) && Printable(b) && Noise(noise)
    ensures WellFormedSegment(MARKERS, SegmentOf(style, b, noise)) && BlockOf(SegmentOf(style, b, noise)) == b
  {
    JoinAfterSplit(b.search);
    JoinAfterSplit(b.replacement);
  }

  lemma UnlinesGlue(before: seq<string>, line: string, after: seq<string>)
    ensures Unlines(Glue(before, line, after)) == Unlines(before) + (line + ['\n'] + Unlines(after))
  {
    UnlinesAppend(before, [line] + after);
    assert ([line] + after)[1..] == after;
  }

  lemma GlueLines(before: seq<string>, line: string, after: seq<string>)
    requires AllLines(before) && OneLine(line) && AllLines(after)
    ensures AllLines(Glue(before, line, after))
  {
  }

  /** A printed block, its noise in front and any lines behind, is the text of the segment's lines. */
  lemma PrintedSegment(style: Style, b: Block, noise: seq<string>, after: seq<string>)
    ensures Unlines(SegmentLines(SegmentOf(style, b, noise), after))
      == Unlines(noise) + (PrintBlock(style, b) + ['\n'] + Unlines(after))
  {
    var s := SegmentOf(style, b, noise);
    var rest := Glue(s.replacement, s.close, after);
    var body := Glue(s.search, s.divider, rest);
    JoinAfterSplit(b.search);
    JoinAfterSplit(b.replacement);
    UnlinesGlue(s.replacement, s.close, after);
    UnlinesGlue(s.search, s.divider, rest);
    UnlinesGlue(noise, s.open, body);
    var nl := ['\n'];
    RegroupBlock(style.open + nl, b.search + nl, style.divider + nl, b.replacement + nl, style.close, nl,
      Unlines(after));
  }

  lemma RegroupBlock(a: string, b: string, c: string, d: string, e: string, nl: string, z: string)
    ensures a + (b + (c + (d + (e + nl + z)))) == a + (b + (c + (d + e))) + nl + z
  {
    assert d + (e + nl + z) == (d + e) + (nl + z);
    assert c + ((d + e) + (nl + z)) == (c + (d + e)) + (nl + z);
    assert b + ((c + (d + e)) + (nl + z)) == (b + (c + (d + e))) + (nl + z);
  }

  lemma SegmentLinesAreLines(style: Style, b: Block, noise: seq<string>, after: seq<string>)
    requires ValidStyle(style) && Printable(b) && Noise(noise) && AllLines(after)
    ensures AllLines(SegmentLines(SegmentOf(style, b, noise), after))
  {
    var s := SegmentOf(style, b, noise);
    JoinAfterSplit(b.search);
    JoinAfterSplit(b.replacement);
    GlueLines(s.replacement, s.close, after);
    GlueLines(s.search, s.divider, Glue(s.replacement, s.close, after));
    GlueLines(noise, s.open, Glue(s.search, s.divider, Glue(s.replacement, s.close, after)));
  }

  predicate AllPrintable(blocks: seq<Block>, noise: seq<seq<string>>, last: seq<string>) {
    && |noise| == |blocks|
    && (forall i :: 0 <= i < |blocks| ==> Printable(blocks[i]))
    && (forall i :: 0 <= i < |noise| ==> Noise(noise[i]))
    && Noise(last)
  }

  lemma {:induction false} PrintedResponse(style: Style, blocks: seq<Block>, noise: seq<seq<string>>, last: seq<string>)
      returns (segments: seq<Segment>)
    requires ValidStyle(style) && AllPrintable(blocks, noise, last)
    ensures Derives(MARKERS, Flatten(segments, Clean(last)), segments, Clean(last)) && BlocksOf(segments) == blocks
    ensures PrintResponse(style, blocks, noise, last) == Unlines(Flatten(segments, Clean(last)))
    ensures AllLines(Flatten(segments, Clean(last)))
  {
    if blocks == [] {
      segments := [];
    } else {
      var later := PrintedResponse(style, blocks[1..], noise[1..], last);
      var after := Flatten(later, Clean(last));
      var s := SegmentOf(style, blocks[0], noise[0]);
      SegmentOfIsWellFormed(style, blocks[0], noise[0]);
      PrintedSegment(style, blocks[0], noise[0], after);
      SegmentLinesAreLines(style, blocks[0], noise[0], after);
      segments := [s] + later;
      OneMoreSegment(s, later, Clean(last));
      assert blocks == [blocks[0]] + blocks[1..];
    }
  }

  lemma OneMoreSegment(s: Segment, later: seq<Segment>, tail: Tail)
    requires Derives(MARKERS, Flatten(later, tail), later, tail) && WellFormedSegment(MARKERS, s)
    ensures Flatten([s] + later, tail) == SegmentLines(s, Flatten(later, tail))
    ensures Derives(MARKERS, Flatten([s] + later, tail), [s] + later, tail)
    ensures BlocksOf([s] + later) == [BlockOf(s)] + BlocksOf(later)
  {
    var segments := [s] + later;
    assert segments[1..] == later;
    forall i | 0 <= i < |segments| ensures WellFormedSegment(MARKERS, segments[i]) {
      assert i > 0 ==> segments[i] == later[i - 1];
    }
  }

  /** Printing any non-empty list of printable blocks amid any noise, and parsing it, gives the list back. */
  lemma PrintThenParse(style: Style, blocks: seq<Block>, noise: seq<seq<string>>, last: seq<string>)
    requires ValidStyle(style) && blocks != [] && AllPrintable(blocks, noise, last)
    ensures ParseLines(SplitLines(PrintResponse(style, blocks, noise, last))) == Parsed(blocks)
  {
    var segments := PrintedResponse(style, blocks, noise, last);
    var lines := Flatten(segments, Clean(last));
    SplitLinesOfUnlines(lines);
    DerivationIsUnique(MARKERS, lines, segments, Clean(last));
  }

  /** The marker lines that the prompt asks for. */
  const PROMPT_STYLE := Style("<<<<<<< SEARCH", "=======", ">>>>>>> REPLACE")

  /** A line made of an arrow run, a gap and a keyword keeps all three when stripped. */
  lemma MarkerShape(line: string, arrows: string, gap: string, word: string)
    requires line == arrows + gap + word
    requires arrows != "" && !IsSpace(arrows[0])
    requires word != "" && !IsSpace(word[|word| - 1])
    ensures Strip(line) == line && arrows <= line && Contains(line, word)
  {
    assert line[0] == arrows[0] && line[|line| - 1] == word[|word| - 1];
    assert MatchesAt(line, word, |arrows + gap|);
  }

  lemma PromptOpens()
    ensures IsSearchMarker(PROMPT_STYLE.open)
  {
    MarkerShape(PROMPT_STYLE.open, "<<<<<<<", " ", "SEARCH");
  }

  lemma PromptDivides()
    ensures IsDivider(PROMPT_STYLE.divider)
  {
    MarkerShape(PROMPT_STYLE.divider, "=", "=====", "=");
  }

  lemma PromptCloses()
    ensures IsReplaceMarker(PROMPT_STYLE.close)
  {
    MarkerShape(PROMPT_STYLE.close, ">>>>>>>", " ", "REPLACE");
  }

  lemma PromptLines()
    ensures OneLine(PROMPT_STYLE.open) && OneLine(PROMPT_STYLE.divider) && OneLine(PROMPT_STYLE.close)
  {
  }

  lemma PromptStyleIsValid()
    ensures ValidStyle(PROMPT_STYLE)
  {
    PromptOpens();
    PromptDivides();
    PromptCloses();
    PromptLines();
  }

  // ---------- The parser produces nothing else ----------

  lemma UnglueLines(before: seq<string>, line: string, after: seq<string>)
    requires AllLines(Glue(before, line, after))
    ensures AllLines(before) && OneLine(line) && AllLines(after)
  {
    var lines := Glue(before, line, after);
    assert lines[|before|] == line;
    assert forall i :: 0 <= i < |before| ==> before[i] == lines[i];
    assert forall i :: 0 <= i < |after| ==> after[i] == lines[|before| + 1 + i];
  }

  lemma {:induction false} SegmentsUseTheLines(segments: seq<Segment>, tail: Tail, k: nat)
    requires k < |segments| && AllLines(Flatten(segments, tail))
    ensures AllLines(segments[k].search) && AllLines(segments[k].replacement)
    decreases |segments|
  {
    var s, after := segments[0], Flatten(segments[1..], tail);
    var rest := Glue(s.replacement, s.close, after);
    UnglueLines(s.noise, s.open, Glue(s.search, s.divider, rest));
    UnglueLines(s.search, s.divider, rest);
    UnglueLines(s.replacement, s.close, after);
    if k > 0 {
      SegmentsUseTheLines(segments[1..], tail, k - 1);
    }
  }

  lemma SegmentIsPrintable(s: Segment)
    requires WellFormedSegment(MARKERS, s) && AllLines(s.search) && AllLines(s.replacement)
    ensures Printable(BlockOf(s))
  {
    JoinedLinesBreakAtNewlines(s.search);
    JoinedLinesBreakAtNewlines(s.replacement);
    assert IsLineBreak('\n');
    SplitAfterJoin(s.search);
    if s.replacement == [] {
      assert Strip("") == "";
    } else {
      SplitAfterJoin(s.replacement);
    }
  }

  lemma {:induction false} JoinedLinesBreakAtNewlines(lines: seq<string>)
    requires AllLines(lines)
    ensures OnlyNewlineBreaks(JoinLines(lines))
  {
    if |lines| > 1 {
      JoinedLinesBreakAtNewlines(lines[1..]);
    }
  }

  /** Whatever the model answers, every block that the parser returns is printable. */
  lemma ParsedBlocksArePrintable(text: string, k: nat)
    requires ParseLines(SplitLines(text)).Parsed? && k < |ParseLines(SplitLines(text)).blocks|
    ensures Printable(ParseLines(SplitLines(text)).blocks[k])
  {
    var lines := SplitLines(text);
    var (segments, tail) := Decompose(MARKERS, lines);
    SplitLinesAreLines(text);
    DerivationExists(MARKERS, lines);
    SegmentsUseTheLines(segments, tail, k);
    SegmentIsPrintable(segments[k]);
  }

  /** A block survives the trip through the format exactly when it is printable. */
  lemma BlockRoundTripsIff(style: Style, b: Block)
    requires ValidStyle(style)
    ensures ParseLines(SplitLines(PrintBlock(style, b))) == Parsed([b]) <==> Printable(b)
  {
    var text := PrintBlock(style, b);
    if Printable(b) {
      PrintThenParse(style, [b], [[]], []);
      assert PrintResponse(style, [b], [[]], []) == text + ['\n'];
      assert text[|text| - 1] == style.close[|style.close| - 1];
      FinalNewlineIsOptional(text);
    }
    if ParseLines(SplitLines(text)) == Parsed([b]) {
      ParsedBlocksArePrintable(text, 0);
    }
  }

  /** Normalising a response (parse, then print without noise) does not change what it means. */
  lemma ReprintingKeepsTheMeaning(text: string)
    requires ParseLines(SplitLines(text)).Parsed?
    ensures var blocks := ParseLines(SplitLines(text)).blocks;
            ParseLines(SplitLines(PrintResponse(PROMPT_STYLE, blocks, seq(|blocks|, _ => []), []))) == Parsed(blocks)
  {
    var blocks := ParseLines(SplitLines(text)).blocks;
    forall k | 0 <= k < |blocks| ensures Printable(blocks[k]) {
      ParsedBlocksArePrintable(text, k);
    }
    PromptStyleIsValid();
    PrintThenParse(PROMPT_STYLE, blocks, seq(|blocks|, _ => []), []);
  }
}
