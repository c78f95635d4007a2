/** The SEARCH/REPLACE block language: markers, grammar, parser and printer. */
module PatchLanguage {
  import opened Basics

  datatype Block = Block(search: string, replacement: string)

  datatype ParseError =
    | MissingSeparator(block: nat)
    | EmptySearch(block: nat)
    | MissingReplaceMarker(block: nat)
    | NoBlocks

  datatype ParseResult = Parsed(blocks: seq<Block>) | Malformed(error: ParseError)

  predicate IsSearchMarker(line: string) {
    var s := Strip(line);
    "<<<<<<<" <= s && Contains(s, "SEARCH")
  }

  predicate IsDivider(line: string) {
    Strip(line) == "======="
  }

  predicate IsReplaceMarker(line: string) {
    var s := Strip(line);
    ">>>>>>>" <= s && Contains(s, "REPLACE")
  }

  // ---------- The grammar ----------

  /** The three kinds of line that structure a response. */
  datatype Markers = Markers(opens: string -> bool, divides: string -> bool, closes: string -> bool)

  const MARKERS := Markers(IsSearchMarker, IsDivider, IsReplaceMarker)

  /** One complete block together with the noise lines in front of it. */
  datatype Segment = Segment(
    noise: seq<string>, open: string, search: seq<string>,
    divider: string, replacement: seq<string>, close: string)

  /** What follows the last complete block: noise, or the beginning of a broken block. */
  datatype Tail =
    | Clean(noise: seq<string>)
    | NoSeparator(noise: seq<string>, open: string, rest: seq<string>)
    | NothingToSearch(noise: seq<string>, open: string, search: seq<string>, divider: string, rest: seq<string>)
    | NoReplaceMarker(noise: seq<string>, open: string, search: seq<string>, divider: string, rest: seq<string>)

  predicate NoneIs(lines: seq<string>, p: string -> bool) {
    forall i :: 0 <= i < |lines| ==> !p(lines[i])
  }

  predicate WellFormedSegment(m: Markers, s: Segment) {
    && NoneIs(s.noise, m.opens) && m.opens(s.open)
    && NoneIs(s.search, m.divides) && m.divides(s.divider)
    && JoinLines(s.search) != ""
    && NoneIs(s.replacement, m.closes) && m.closes(s.close)
  }

  predicate WellFormedTail(m: Markers, t: Tail) {
    && NoneIs(t.noise, m.opens)
    && match t
       case Clean(_) => true
       case NoSeparator(_, open, rest) => m.opens(open) && NoneIs(rest, m.divides)
       case NothingToSearch(_, open, search, divider, _) =>
         m.opens(open) && NoneIs(search, m.divides) && m.divides(divider) && JoinLines(search) == ""
       case NoReplaceMarker(_, open, search, divider, rest) =>
         && m.opens(open) && NoneIs(search, m.divides) && m.divides(divider) && JoinLines(search) != ""
         && NoneIs(rest, m.closes)
  }

  /** The lines of a segment, followed by the given lines. */
  function SegmentLines(s: Segment, after: seq<string>): seq<string> {
    Glue(s.noise, s.open, Glue(s.search, s.divider, Glue(s.replacement, s.close, after)))
  }

  function Glue(before: seq<string>, line: string, after: seq<string>): seq<string> {
    before + ([line] + after)
  }

  function TailLines(t: Tail): seq<string> {
    match t
    case Clean(noise) => noise
    case NoSeparator(noise, open, rest) => Glue(noise, open, rest)
    case NothingToSearch(noise, open, search, divider, rest) => Glue(noise, open, Glue(search, divider, rest))
    case NoReplaceMarker(noise, open, search, divider, rest) => Glue(noise, open, Glue(search, divider, rest))
  }

  function Flatten(segments: seq<Segment>, tail: Tail): seq<string> {
    if segments == [] then TailLines(tail)
    else SegmentLines(segments[0], Flatten(segments[1..], tail))
  }

  /** The lines are these complete blocks followed by this tail. */
  predicate Derives(m: Markers, lines: seq<string>, segments: seq<Segment>, tail: Tail) {
    && (forall i :: 0 <= i < |segments| ==> WellFormedSegment(m, segments[i]))
    && WellFormedTail(m, tail)
    && lines == Flatten(segments, tail)
  }

  function BlockOf(s: Segment): Block {
    Block(JoinLines(s.search), JoinLines(s.replacement))
  }

  function BlocksOf(segments: seq<Segment>): (blocks: seq<Block>)
    ensures |blocks| == |segments|
    ensures forall i :: 0 <= i < |blocks| ==> blocks[i] == BlockOf(segments[i])
  {
    seq(|segments|, i requires 0 <= i < |segments| => BlockOf(segments[i]))
  }

  /** The error reported for a broken block, given its number counted from 1. */
  function TailError(tail: Tail, block: nat): ParseError
    requires !tail.Clean?
  {
    match tail
    case NoSeparator(_, _, _) => MissingSeparator(block)
    case NothingToSearch(_, _, _, _, _) => EmptySearch(block)
    case NoReplaceMarker(_, _, _, _, _) => MissingReplaceMarker(block)
  }

  /** What a derivation means: its blocks, or the error in the broken block behind them. */
  function Outcome(blocks: seq<Block>, tail: Tail): ParseResult {
    if !tail.Clean? then Malformed(TailError(tail, |blocks| + 1))
    else if blocks == [] then Malformed(NoBlocks)
    else Parsed(blocks)
  }

  // ---------- Every list of lines has exactly one derivation ----------

  /** The lines before the first one satisfying p, that line, and the lines after it. */
  datatype Cut = Cut(before: seq<string>, line: string, after: seq<string>) | NoCut

  function CutAt(lines: seq<string>, p: string -> bool): (c: Cut)
    ensures c.Cut? ==> |c.after| < |lines|
  {
    if lines == [] then NoCut
    else if p(lines[0]) then Cut([], lines[0], lines[1..])
    else
      match CutAt(lines[1..], p)
      case NoCut => NoCut
      case Cut(before, line, after) => Cut([lines[0]] + before, line, after)
  }

  lemma CutIsSound(lines: seq<string>, p: string -> bool)
    ensures match CutAt(lines, p)
            case Cut(before, line, after) => NoneIs(before, p) && p(line) && lines == Glue(before, line, after)
            case NoCut => NoneIs(lines, p)
  {
    if lines != [] && !p(lines[0]) {
      CutIsSound(lines[1..], p);
      assert NoneIs(lines[1..], p) ==> forall i :: 0 < i < |lines| ==> lines[i] == lines[1..][i - 1];
    }
  }

  lemma CutIsUnique(before: seq<string>, line: string, after: seq<string>, p: string -> bool)
    requires NoneIs(before, p) && p(line)
    ensures CutAt(Glue(before, line, after), p) == Cut(before, line, after)
  {
    var lines := before + ([line] + after);
    if before != [] {
      assert lines[1..] == before[1..] + ([line] + after);
      CutIsUnique(before[1..], line, after, p);
      assert before == [before[0]] + before[1..];
    }
  }

  lemma NoCutMeansNone(lines: seq<string>, p: string -> bool)
    requires NoneIs(lines, p)
    ensures CutAt(lines, p) == NoCut
  {
  }

  /** Either the next complete block and the lines after it, or the tail that ends the response. */
  datatype Step = Take(segment: Segment, after: seq<string>) | Stop(tail: Tail)

  function NextBlock(m: Markers, lines: seq<string>): (step: Step)
    ensures step.Take? ==> |step.after| < |lines|
  {
    match CutAt(lines, m.opens)
    case NoCut => Stop(Clean(lines))
    case Cut(noise, open, body) =>
      match CutAt(body, m.divides)
      case NoCut => Stop(NoSeparator(noise, open, body))
      case Cut(search, divider, rest) =>
        if JoinLines(search) == "" then Stop(NothingToSearch(noise, open, search, divider, rest))
        else
          match CutAt(rest, m.closes)
          case NoCut => Stop(NoReplaceMarker(noise, open, search, divider, rest))
          case Cut(replacement, close, after) => Take(Segment(noise, open, search, divider, replacement, close), after)
  }

  lemma NextBlockIsSound(m: Markers, lines: seq<string>)
    ensures match NextBlock(m, lines)
            case Take(s, after) => WellFormedSegment(m, s) && lines == SegmentLines(s, after)
            case Stop(tail) => WellFormedTail(m, tail) && lines == TailLines(tail)
  {
    CutIsSound(lines, m.opens);
    if CutAt(lines, m.opens).Cut? {
      var body := CutAt(lines, m.opens).after;
      CutIsSound(body, m.divides);
      if CutAt(body, m.divides).Cut? {
        CutIsSound(CutAt(body, m.divides).after, m.closes);
      }
    }
  }

  lemma NextBlockTakes(m: Markers, s: Segment, after: seq<string>)
    requires WellFormedSegment(m, s)
    ensures NextBlock(m, SegmentLines(s, after)) == Take(s, after)
  {
    var rest := Glue(s.replacement, s.close, after);
    var body := Glue(s.search, s.divider, rest);
    CutIsUnique(s.noise, s.open, body, m.opens);
    CutIsUnique(s.search, s.divider, rest, m.divides);
    CutIsUnique(s.replacement, s.close, after, m.closes);
  }

  lemma NextBlockStops(m: Markers, t: Tail)
    requires WellFormedTail(m, t)
    ensures NextBlock(m, TailLines(t)) == Stop(t)
  {
    match t
    case Clean(noise) =>
      NoCutMeansNone(noise, m.opens);
    case NoSeparator(noise, open, rest) =>
      CutIsUnique(noise, open, rest, m.opens);
      NoCutMeansNone(rest, m.divides);
    case NothingToSearch(noise, open, search, divider, rest) =>
      CutIsUnique(noise, open, Glue(search, divider, rest), m.opens);
      CutIsUnique(search, divider, rest, m.divides);
    case NoReplaceMarker(noise, open, search, divider, rest) =>
      CutIsUnique(noise, open, Glue(search, divider, rest), m.opens);
      CutIsUnique(search, divider, rest, m.divides);
      NoCutMeansNone(rest, m.closes);
  }

  function Decompose(m: Markers, lines: seq<string>): (seq<Segment>, Tail)
    decreases |lines|
  {
    match NextBlock(m, lines)
    case Stop(tail) => ([], tail)
    case Take(segment, after) =>
      var (segments, tail) := Decompose(m, after);
      ([segment] + segments, tail)
  }

  /** Every list of lines has a derivation. */
  lemma {:induction false} DerivationExists(m: Markers, lines: seq<string>)
    ensures Derives(m, lines, Decompose(m, lines).0, Decompose(m, lines).1)
    decreases |lines|
  {
    NextBlockIsSound(m, lines);
    match NextBlock(m, lines)
    case Stop(_) =>
    case Take(segment, after) =>
      DerivationExists(m, after);
      assert Decompose(m, lines).0[1..] == Decompose(m, after).0;
  }

  /** The grammar is unambiguous: any derivation of the lines is the computed one. */
  lemma {:induction false} DerivationIsUnique(m: Markers, lines: seq<string>, segments: seq<Segment>, tail: Tail)
    requires Derives(m, lines, segments, tail)
    ensures Decompose(m, lines) == (segments, tail)
    decreases |segments|
  {
    if segments == [] {
      NextBlockStops(m, tail);
    } else {
      var after := Flatten(segments[1..], tail);
      NextBlockTakes(m, segments[0], after);
      DerivationIsUnique(m, after, segments[1..], tail);
      assert segments == [segments[0]] + segments[1..];
    }
  }

  function Parse(m: Markers, lines: seq<string>): (seq<Block>, Tail) {
    var (segments, tail) := Decompose(m, lines);
    (BlocksOf(segments), tail)
  }

  function ParseLines(lines: seq<string>): ParseResult {
    Outcome(Parse(MARKERS, lines).0, Parse(MARKERS, lines).1)
  }

  /** The parser answers exactly what any derivation of the lines says. */
  lemma ParserFollowsTheGrammar(lines: seq<string>, result: ParseResult)
    ensures ParseLines(lines) == result
      <==> exists segments, tail ::
             Derives(MARKERS, lines, segments, tail) && result == Outcome(BlocksOf(segments), tail)
  {
    var d := Decompose(MARKERS, lines);
    DerivationExists(MARKERS, lines);
    forall segments, tail | Derives(MARKERS, lines, segments, tail)
      ensures Decompose(MARKERS, lines) == (segments, tail)
    {
      DerivationIsUnique(MARKERS, lines, segments, tail);
    }
  }

  /** An error names the block behind the complete ones, counted from 1, and what it lacks. */
  lemma ErrorNamesTheBlock(lines: seq<string>, segments: seq<Segment>, tail: Tail)
    requires Derives(MARKERS, lines, segments, tail)
    ensures ParseLines(lines) == Malformed(NoBlocks) <==> tail.Clean? && segments == []
    ensures forall k ::
              ParseLines(lines) == Malformed(MissingSeparator(k)) <==> tail.NoSeparator? && k == |segments| + 1
    ensures forall k ::
              ParseLines(lines) == Malformed(EmptySearch(k)) <==> tail.NothingToSearch? && k == |segments| + 1
    ensures forall k ::
              ParseLines(lines) == Malformed(MissingReplaceMarker(k)) <==> tail.NoReplaceMarker? && k == |segments| + 1
  {
    DerivationIsUnique(MARKERS, lines, segments, tail);
  }

  /** A complete block takes at least four lines, so the blocks are at most a quarter of the lines. */
  lemma {:induction false} FourLinesPerBlock(m: Markers, lines: seq<string>, segments: seq<Segment>, tail: Tail)
    requires Derives(m, lines, segments, tail)
    ensures 4 * |segments| <= |lines|
    decreases |segments|
  {
    if segments != [] {
      FourLinesPerBlock(m, Flatten(segments[1..], tail), segments[1..], tail);
      assert |segments[0].search| > 0;
    }
  }

  lemma BlockCountBound(lines: seq<string>)
    requires ParseLines(lines).Parsed?
    ensures 1 <= |ParseLines(lines).blocks| && 4 * |ParseLines(lines).blocks| <= |lines|
  {
    var d := Decompose(MARKERS, lines);
    DerivationExists(MARKERS, lines);
    FourLinesPerBlock(MARKERS, lines, d.0, d.1);
  }

  // ---------- The parser ----------

  /** A scan that stops at index has cut the lines there. */
  lemma ScanFound(lines: seq<string>, start: nat, index: nat, p: string -> bool)
    requires start <= index < |lines| && p(lines[index])
    requires forall k :: start <= k < index ==> !p(lines[k])
    ensures CutAt(lines[start..], p) == Cut(lines[start..index], lines[index], lines[index + 1..])
  {
    CutIsUnique(lines[start..index], lines[index], lines[index + 1..], p);
    assert lines[start..] == Glue(lines[start..index], lines[index], lines[index + 1..]);
  }

  /** A scan that reaches the end has found nothing. */
  lemma ScanMissed(lines: seq<string>, start: nat, p: string -> bool)
    requires start <= |lines|
    requires forall k :: start <= k < |lines| ==> !p(lines[k])
    ensures CutAt(lines[start..], p) == NoCut
  {
    NoCutMeansNone(lines[start..], p);
  }

  /** The blocks found so far, followed by whatever the lines from here on give. */
  ghost predicate Parsing(m: Markers, lines: seq<string>, blocks: seq<Block>, here: seq<string>) {
    Parse(m, lines) == After(blocks, Parse(m, here))
  }

  function After(blocks: seq<Block>, later: (seq<Block>, Tail)): (seq<Block>, Tail) {
    (blocks + later.0, later.1)
  }

  lemma ParsingTakes(m: Markers, lines: seq<string>, blocks: seq<Block>, here: seq<string>, b: Block,
                     after: seq<string>)
    requires Parsing(m, lines, blocks, here)
    requires var step := NextBlock(m, here); step.Take? && step.after == after && BlockOf(step.segment) == b
    ensures Parsing(m, lines, blocks + [b], after)
  {
    var segments := Decompose(m, after).0;
    assert BlocksOf([NextBlock(m, here).segment] + segments) == [b] + BlocksOf(segments);
    assert blocks + ([b] + BlocksOf(segments)) == (blocks + [b]) + BlocksOf(segments);
  }

  lemma ParsingStops(m: Markers, lines: seq<string>, blocks: seq<Block>, here: seq<string>, tail: Tail)
    requires Parsing(m, lines, blocks, here)
    requires NextBlock(m, here) == Stop(tail)
    ensures Parse(m, lines) == (blocks, tail)
  {
    assert blocks + [] == blocks;
  }

  method ParseSearchReplaceBlocks(modelOutput: string) returns (result: ParseResult)
    ensures result == ParseLines(SplitLines(modelOutput))
  {
    result := ParseBlocks(MARKERS, SplitLines(modelOutput));
  }

  /** The index of the first line from start on that satisfies p, or the number of lines. */
  method SkipUntil(lines: seq<string>, start: nat, p: string -> bool) returns (index: nat)
    requires start <= |lines|
    ensures start <= index <= |lines|
    ensures index == |lines| ==> CutAt(lines[start..], p) == NoCut
    ensures index < |lines| ==> CutAt(lines[start..], p) == Cut(lines[start..index], lines[index], lines[index + 1..])
  {
    index := start;
    while index < |lines| && !p(lines[index])
      invariant start <= index <= |lines|
      invariant forall k :: start <= k < index ==> !p(lines[k])
    {
      index := index + 1;
    }
    if index == |lines| {
      ScanMissed(lines, start, p);
    } else {
      ScanFound(lines, start, index, p);
    }
  }

  /** One block, from its opening marker at index on: the block and the index behind it, or the error. */
  method ReadBlock(m: Markers, lines: seq<string>, index: nat, blockIndex: nat,
                   ghost here: seq<string>, ghost noise: seq<string>)
      returns (block: Block, next: nat, error: Option<ParseError>)
    requires index < |lines|
    requires CutAt(here, m.opens) == Cut(noise, lines[index], lines[index + 1..])
    ensures var step := NextBlock(m, here);
            match error
            case None =>
              && index < next <= |lines|
              && step.Take? && BlockOf(step.segment) == block && step.after == lines[next..]
            case Some(e) =>
              step.Stop? && !step.tail.Clean? && e == TailError(step.tail, blockIndex)
  {
    block, next := Block("", ""), 0;
    var searchStart := index + 1;
    var searchEnd := SkipUntil(lines, searchStart, m.divides);
    if searchEnd == |lines| {
      error := Some(MissingSeparator(blockIndex));
      return;
    }
    var search := JoinLines(lines[searchStart..searchEnd]);
    if search == "" {
      error := Some(EmptySearch(blockIndex));
      return;
    }
    var replacementStart := searchEnd + 1;
    var replacementEnd := SkipUntil(lines, replacementStart, m.closes);
    if replacementEnd == |lines| {
      error := Some(MissingReplaceMarker(blockIndex));
      return;
    }
    var replacement := JoinLines(lines[replacementStart..replacementEnd]);
    block, next, error := Block(search, replacement), replacementEnd + 1, None;
  }

  /** The loop of the parser, for any choice of marker lines. */
  method ParseBlocks(m: Markers, lines: seq<string>) returns (result: ParseResult)
    ensures result == Outcome(Parse(m, lines).0, Parse(m, lines).1)
  {
    var blocks: seq<Block> := [];
    ghost var noiseStart := 0;
    var index := 0;
    assert lines[0..] == lines && [] + Parse(m, lines).0 == Parse(m, lines).0;
    while index < |lines|
      invariant 0 <= noiseStart <= index <= |lines|
      invariant forall k :: noiseStart <= k < index ==> !m.opens(lines[k])
      invariant Parsing(m, lines, blocks, lines[noiseStart..])
    {
      // A line that opens no block belongs to none.
      if !m.opens(lines[index]) {
        index := index + 1;
        continue;
      }
      ScanFound(lines, noiseStart, index, m.opens);
      var block, next, error :=
        ReadBlock(m, lines, index, |blocks| + 1, lines[noiseStart..], lines[noiseStart..index]);
      if error.Some? {
        ParsingStops(m, lines, blocks, lines[noiseStart..], NextBlock(m, lines[noiseStart..]).tail);
        return Malformed(error.value);
      }
      ParsingTakes(m, lines, blocks, lines[noiseStart..], block, lines[next..]);
      blocks := blocks + [block];
      index := next;
      noiseStart := next;
    }
    ScanMissed(lines, noiseStart, m.opens);
    ParsingStops(m, lines, blocks, lines[noiseStart..], NextBlock(m, lines[noiseStart..]).tail);
    if |blocks| == 0 {
      return Malformed(NoBlocks);
    }
    return Parsed(blocks);
  }
}
