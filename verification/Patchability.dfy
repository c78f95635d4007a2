/** Which files a model can patch at all. */
module Patchability {
  import opened Basics
  import opened PatchLanguage
  import opened PatchRoundTrip
  import opened PatchApplication

  /** A SEARCH section can hold this text: it is not empty, breaks only at newlines, and no line of it is a divider. */
  predicate Searchable(s: string) {
    s != "" && OnlyNewlineBreaks(s) && NoneIs(NewlineSplit(s), MARKERS.divides)
  }

  predicate OccursOnce(text: string, s: string) {
    |Positions(text, s)| == 1
  }

  /** Some searchable text occurs exactly once in the file. */
  ghost predicate Patchable(text: string) {
    exists s {:trigger Searchable(s)} :: Searchable(s) && OccursOnce(text, s)
  }

  /** A line of n x's and a y, which no marker looks like. */
  function Filler(n: nat): string {
    seq(n, _ => 'x') + "y"
  }

  lemma FillerShape(n: nat)
    ensures |Filler(n)| == n + 1 && Filler(n)[n] == 'y' && forall i :: 0 <= i < n ==> Filler(n)[i] == 'x'
  {
  }

  predicate Plain(line: string) {
    line != "" && forall i :: 0 <= i < |line| ==> line[i] == 'x' || line[i] == 'y'
  }

  lemma PlainIsOneLine(line: string)
    requires Plain(line)
    ensures OneLine(line) && OnlyNewlineBreaks(line)
  {
  }

  lemma PlainStays(line: string)
    requires Plain(line)
    ensures Strip(line) == line
  {
    assert !IsSpace(line[0]) && !IsSpace(line[|line| - 1]);
  }

  lemma PlainIsNoMarker(line: string)
    requires Plain(line)
    ensures !MARKERS.divides(line) && !MARKERS.closes(line)
  {
    PlainStays(line);
    assert "======="[0] == '=' && ">>>>>>>"[0] == '>';
  }

  /** A line of plain letters is one line and no marker: it can be searched for, and put in. */
  lemma PlainLineIsPrintable(s: string, line: string)
    requires Searchable(s) && Plain(line)
    ensures Printable(Block(s, line))
  {
    PlainIsOneLine(line);
    SplitOfOneLine(line);
    PlainIsNoMarker(line);
  }

  lemma PlainLineIsSearchable(line: string)
    requires Plain(line)
    ensures Searchable(line)
  {
    PlainIsOneLine(line);
    SplitOfOneLine(line);
    PlainIsNoMarker(line);
  }

  /** Put in the place of a match in a text of at most n characters, the filler occurs there only. */
  lemma FillerOccursOnce(before: string, after: string, n: nat)
    requires |before| + |after| < n
    ensures Positions(before + Filler(n) + after, Filler(n)) == {|before|}
  {
    var r, text := Filler(n), before + Filler(n) + after;
    FillerShape(n);
    var y := |before| + n;
    assert text[|before|..|before| + |r|] == r;
    assert text[y] == 'y' && forall i :: |before| <= i < y ==> text[i] == 'x';
    forall q | MatchesAt(text, r, q) ensures q == |before| {
      assert text[q..q + |r|] == r;
      assert forall k :: 0 <= k <= n ==> text[q + k] == r[k];
      assert text[q + n] == 'y';
      assert q <= y <= q + n ==> text[q + (y - q)] == r[y - q];
    }
    assert MatchesAt(text, r, |before|);
  }

  /** Putting a filler in the place of the only match is a rewriting, and leaves a file that can be patched again. */
  lemma FillerRewrites(text: string, s: string, p: nat, n: nat, filled: string)
    requires Positions(text, s) == {p} && p + |s| <= |text| < n
    requires s != "" && filled == text[..p] + Filler(n) + text[p + |s|..]
    ensures Rewrites(text, Block(s, Filler(n)), filled) && Patchable(filled)
  {
    FillerShape(n);
    PlainLineIsSearchable(Filler(n));
    FillerOccursOnce(text[..p], text[p + |s|..], n);
    assert OccursOnce(filled, Filler(n));
    assert RewritesAt(text, Block(s, Filler(n)), p, filled);
  }

  /** The answer that replaces one searchable match by a filler applies, and leaves a file that can be patched again. */
  lemma FillingApplies(text: string, s: string) returns (output: string, filled: string)
    requires Searchable(s) && OccursOnce(text, s)
    ensures PatchText(text, output) == Applied(filled) && Patchable(filled)
  {
    SingletonIffUniqueMatch(text, s);
    var p :| Positions(text, s) == {p};
    assert p in Positions(text, s);
    var n := |text| + 1;
    FillerShape(n);
    var b := Block(s, Filler(n));
    PlainLineIsPrintable(s, Filler(n));
    output := PrintBlock(PROMPT_STYLE, b);
    PrintedBlockParses(b);
    filled := text[..p] + Filler(n) + text[p + |s|..];
    FillerRewrites(text, s, p, n, filled);
    OneBlockApplies(text, b, filled, output);
  }

  lemma PrintedBlockParses(b: Block)
    requires Printable(b)
    ensures ParseLines(SplitLines(PrintBlock(PROMPT_STYLE, b))) == Parsed([b])
  {
    PromptStyleIsValid();
    BlockRoundTripsIff(PROMPT_STYLE, b);
  }

  lemma OneBlockApplies(text: string, b: Block, filled: string, output: string)
    requires ParseLines(SplitLines(output)) == Parsed([b])
    requires Rewrites(text, b, filled) && |b.replacement| >= |b.search|
    ensures PatchText(text, output) == Applied(filled)
  {
    RewritesIff(text, b, filled);
    var p :| p in Positions(text, b.search) && RewritesAt(text, b, p, filled);
    assert |filled| >= |text|;
    assert !GutsTheFile(text, b);
    assert [b][1..] == [];
    assert RewritesAll(filled, [b][1..], filled);
    assert RewritesAll(text, [b], filled);
    PatchAppliesIff(text, output, filled);
  }

  /** Some answer can be applied to a file exactly when some searchable text occurs in it exactly once. */
  lemma PatchableIff(text: string)
    ensures (exists output :: PatchText(text, output).Applied?) <==> Patchable(text)
  {
    if Patchable(text) {
      var s :| Searchable(s) && OccursOnce(text, s);
      var output, filled := FillingApplies(text, s);
    }
    forall output | PatchText(text, output).Applied? ensures Patchable(text) {
      AppliedMeansPatchable(text, output);
    }
  }

  lemma AppliedMeansPatchable(text: string, output: string)
    requires PatchText(text, output).Applied?
    ensures Patchable(text)
  {
    var final := PatchText(text, output).text;
    PatchAppliesIff(text, output, final);
    var blocks := ParseLines(SplitLines(output)).blocks;
    assert blocks != [];
    var next :| Rewrites(text, blocks[0], next);
    RewritesIff(text, blocks[0], next);
    ParsedBlocksArePrintable(output, 0);
    assert Searchable(blocks[0].search) && OccursOnce(text, blocks[0].search);
  }

  /** A file that holds one plain letter can be patched. */
  lemma LetterIsPatchable(letter: string)
    requires letter == "x" || letter == "y"
    ensures Patchable(letter)
  {
    PlainLineIsSearchable(letter);
    assert MatchesAt(letter, letter, 0);
    assert Positions(letter, letter) == {0};
    assert OccursOnce(letter, letter);
  }
}
